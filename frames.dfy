/** Name resolution across nested lambdas.
  A lambda is compiled by a compiler of its own, which can see the compilers of the lambdas
  around it: the names on their stacks and their own names. A name found on an enclosing stack
  is captured and loaded from the closure. */
module Frames {
  import opened Names
  import opened Wrappers

  /** What a nested lambda can see of one enclosing compiler. */
  datatype Frame = Frame(names: seq<Name>, selfName: Option<Name>)

  /** `closure_value` as written: the name lies on the stack of some enclosing compiler. */
  predicate OnSomeStack(outer: seq<Frame>, name: Name)
    ensures OnSomeStack(outer, name) <==> name in Flatten(outer)
  {
    FlattenHolds(outer, name);
    exists k :: 0 <= k < |outer| && name in outer[k].names
  }

  /** All names on the stacks of `outer`, outermost first. */
  function Flatten(outer: seq<Frame>): seq<Name> {
    if outer == [] then [] else Flatten(outer[..|outer| - 1]) + outer[|outer| - 1].names
  }

  lemma {:induction false} FlattenHolds(outer: seq<Frame>, name: Name)
    ensures name in Flatten(outer) <==> exists k :: 0 <= k < |outer| && name in outer[k].names
  {
    if outer != [] {
      var init := outer[..|outer| - 1];
      FlattenHolds(init, name);
      assert forall k :: 0 <= k < |init| ==> init[k] == outer[k];
      if name in Flatten(init) {
        var k :| 0 <= k < |init| && name in init[k].names;
        assert name in outer[k].names;
      }
    }
  }

  /** `closure_value` as intended: searching outwards from the innermost enclosing compiler,
    the name is met on a stack before it is met as a compiler's own name, which is more
    local than the values that compiler encloses. */
  predicate Visible(outer: seq<Frame>, name: Name)
    ensures Visible(outer, name) ==> OnSomeStack(outer, name)
  {
    VisibleWithinMeaning(outer, |outer|, name);
    VisibleWithin(outer, |outer|, name)
  }

  /** The same search over the `n` outermost compilers. */
  predicate VisibleWithin(outer: seq<Frame>, n: nat, name: Name)
    requires n <= |outer|
  {
    if n == 0 then false
    else name in outer[n - 1].names || (outer[n - 1].selfName != Some(name) && VisibleWithin(outer, n - 1, name))
  }

  /** The search over the `n` outermost compilers does not look past them. */
  lemma {:induction false} VisibleWithinPrefix(outer: seq<Frame>, more: seq<Frame>, n: nat, name: Name)
    requires n <= |outer|
    ensures VisibleWithin(outer + more, n, name) == VisibleWithin(outer, n, name)
  {
    if n > 0 {
      assert (outer + more)[n - 1] == outer[n - 1];
      VisibleWithinPrefix(outer, more, n - 1, name);
    }
  }

  /** `load_local_name` answers true, as written: the name is on the compiler's own stack, or is
    not its own name and is already captured or found by the as-written search. */
  predicate LoadsAsWritten(f: Frame, captures: seq<Name>, outer: seq<Frame>, name: Name)
    ensures f.selfName == Some(name) ==> (LoadsAsWritten(f, captures, outer, name) <==> name in f.names)
  {
    name in f.names || (f.selfName != Some(name) && (name in captures || OnSomeStack(outer, name)))
  }

  /** The same with the intended search. */
  predicate Loads(f: Frame, captures: seq<Name>, outer: seq<Frame>, name: Name)
    ensures Loads(f, captures, outer, name) ==> LoadsAsWritten(f, captures, outer, name)
  {
    name in f.names || (f.selfName != Some(name) && (name in captures || Visible(outer, name)))
  }

  /** The as-written search lets a nested lambda capture a name that its direct enclosing
    compiler cannot load. In `(lambda (g) (define (g) (lambda () g)))` the innermost lambda
    finds `g` on the stack of the outer lambda; the function `g` it sits in must then load
    `g` to build the closure, but `g` is its own name, so the load reports nothing and the
    assertion in `load_lambda` fails. */
  lemma CaptureNotLoadable()
    ensures var g: Name := 100;
      var outerLambda := Frame([g], None);
      var defined := Frame([], Some(g));
      && OnSomeStack([outerLambda, defined], g)
      && !LoadsAsWritten(defined, [], [outerLambda], g)
  {
    var g: Name := 100;
    assert g in Frame([g], None).names;
    assert [Frame([g], None), Frame([], Some(g))][0] == Frame([g], None);
  }

  /** With the intended search, whatever a nested lambda captures, its direct enclosing
    compiler can load (so the assertion in `load_lambda` holds). */
  lemma VisibleLoadable(outer: seq<Frame>, f: Frame, captures: seq<Name>, name: Name)
    requires Visible(outer + [f], name)
    ensures Loads(f, captures, outer, name)
  {
    assert (outer + [f])[|outer|] == f;
    VisibleWithinPrefix(outer, [f], |outer|, name);
  }

  /** The intended search finds a name exactly when some enclosing stack holds it and no compiler further in has it as its own
    name. */
  lemma VisibleMeaning(outer: seq<Frame>, name: Name)
    ensures Visible(outer, name) <==>
      exists k :: 0 <= k < |outer| && name in outer[k].names &&
        forall j :: k < j < |outer| ==> outer[j].selfName != Some(name)
  {
    VisibleWithinMeaning(outer, |outer|, name);
  }

  lemma {:induction false} VisibleWithinMeaning(outer: seq<Frame>, n: nat, name: Name)
    requires n <= |outer|
    ensures VisibleWithin(outer, n, name) <==>
      exists k :: 0 <= k < n && name in outer[k].names &&
        forall j :: k < j < n ==> outer[j].selfName != Some(name)
    decreases n
  {
    if n > 0 {
      VisibleWithinMeaning(outer, n - 1, name);
      if VisibleWithin(outer, n, name) {
        if name !in outer[n - 1].names {
          var k :| 0 <= k < n - 1 && name in outer[k].names &&
            forall j :: k < j < n - 1 ==> outer[j].selfName != Some(name);
          assert forall j :: k < j < n ==> outer[j].selfName != Some(name);
        }
      } else {
        forall k | 0 <= k < n && name in outer[k].names
          ensures exists j :: k < j < n && outer[j].selfName == Some(name)
        {
          if forall j :: k < j < n - 1 ==> outer[j].selfName != Some(name) {
            assert outer[n - 1].selfName == Some(name);
          } else {
            var j :| k < j < n - 1 && outer[j].selfName == Some(name);
          }
        }
      }
    }
  }
}
