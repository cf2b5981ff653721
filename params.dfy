/** The parameter list of a `lambda` or `define`d function, as `make_lambda` reads it:
  plain names, `(name default)` pairs, and the markers `:optional`, `:key` and `:rest`. */
module Params {
  import opened Names
  import opened Wrappers
  import opened Values
  import opened Errors

  /** A parameter name and its default expression, if any. */
  type Param = (Name, Option<Value>)

  /** What a parameter list declares: positional parameters (the first `reqParams` of them
    required), keyword parameters, and a rest parameter. */
  datatype ParamSpec = ParamSpec(params: seq<Param>, reqParams: nat, kwParams: seq<Param>, rest: Option<Name>)

  /** The parser's state between two elements of the list. */
  datatype ParseState = ParseState(params: seq<Param>, kw: seq<Param>, key: bool, optional: bool, req: nat)

  const Start := ParseState([], [], false, false, 0)

  predicate Distinct(s: seq<Name>) {
    forall j, k :: 0 <= j < k < |s| ==> s[j] != s[k]
  }

  /** `v`, an element of a parameter list, declares parameter `p`. */
  predicate Declares(v: Value, p: Param) {
    || (v == Name(p.0) && p.1 == None)
    || (v.List? && |v.items| == 2 && v.items[0] == Name(p.0) && p.1 == Some(v.items[1]))
  }

  /** The finishing checks after the last element: `:key` needs a keyword parameter and
    `:optional` an optional one. */
  function Finish(st: ParseState, rest: Option<Name>): (r: Result<ParamSpec, Error>)
    ensures r.Ok? <==> (st.key ==> |st.kw| > 0) && (st.optional ==> st.req != |st.params|)
    ensures r.Ok? ==> r.value.params == st.params && r.value.kwParams == st.kw && r.value.rest == rest
    ensures r.Ok? ==> r.value.reqParams == if st.optional then st.req else |st.params|
    ensures r.Err? ==> r.error.Compile? && r.error.err.SyntaxError?
  {
    var req := if st.optional then st.req else |st.params|;
    if st.key && |st.kw| == 0 then Err(Syntax("expected arguments after `:key`"))
    else if st.optional && req == |st.params| then Err(Syntax("expected arguments after `:optional`"))
    else Ok(ParamSpec(st.params, req, st.kw, rest))
  }

  /** Adds a parameter, refusing a name already declared. */
  function Add(st: ParseState, p: Param): (r: Result<ParseState, Error>)
    ensures r.Err? <==> p.0 in NamesOf(st.params) + NamesOf(st.kw)
    ensures r.Err? ==> r.error == Compile(DuplicateParameter(p.0))
    ensures r.Ok? && st.key ==> r.value == st.(kw := st.kw + [p])
    ensures r.Ok? && !st.key ==> r.value == st.(params := st.params + [p])
  {
    if p.0 in NamesOf(st.params) || p.0 in NamesOf(st.kw) then Err(Compile(DuplicateParameter(p.0)))
    else if st.key then Ok(st.(kw := st.kw + [p]))
    else Ok(st.(params := st.params + [p]))
  }

  /** The parse of `args[i..]` from state `st`, element by element as `make_lambda` reads it. */
  function ParseFrom(args: seq<Value>, i: nat, st: ParseState): (r: Result<ParamSpec, Error>)
    requires i <= |args|
    ensures r.Err? ==> r.error.Compile? && (r.error.err.SyntaxError? || r.error.err.DuplicateParameter?)
    decreases |args| - i
  {
    if i == |args| then Finish(st, None)
    else
      if args[i] == Keyword(RestName) then ReadRest(args, i, st)
      else if args[i].Keyword? then
        match ReadMarker(args, i, st)
        case Ok(st') => ParseFrom(args, i + 1, st')
        case Err(e) => Err(e)
      else
        match ReadParam(args[i])
        case Err(e) => Err(e)
        case Ok(p) =>
          match Add(st, p)
          case Ok(st') => ParseFrom(args, i + 1, st')
          case Err(e) => Err(e)
  }

  /** An element of the list other than a keyword: `name`, or `(name default)`. */
  function ReadParam(v: Value): (r: Result<Param, Error>)
    ensures r.Ok? <==> v.Name? || (v.List? && |v.items| == 2 && v.items[0].Name?)
    ensures r.Ok? ==> Declares(v, r.value)
    ensures r.Err? ==> r.error.Compile? && r.error.err.SyntaxError?
  {
    if v.Name? then Ok((v.name, None))
    else if !(v.List? && |v.items| == 2) then Err(Syntax("expected name, keyword, or list of 2 elements"))
    else if !v.items[0].Name? then Err(Syntax("expected name"))
    else Ok((v.items[0].name, Some(v.items[1])))
  }

  /** The parameter-list parse of `make_lambda`. */
  function ParseParams(args: seq<Value>): (r: Result<ParamSpec, Error>)
    ensures r.Err? ==> r.error.Compile? && (r.error.err.SyntaxError? || r.error.err.DuplicateParameter?)
  {
    ParseFrom(args, 0, Start)
  }

  /** The loop of `make_lambda` that reads the parameter list. */
  method ReadParams(args: seq<Value>) returns (r: Result<ParamSpec, Error>)
    ensures r == ParseParams(args)
  {
    var st := Start;
    var i := 0;
    while i < |args|
      invariant i <= |args| && ParseFrom(args, i, st) == ParseParams(args)
      decreases |args| - i
    {
      var v := args[i];
      if v == Keyword(RestName) {
        return ReadRest(args, i, st);
      } else if v.Keyword? {
        var marked := ReadMarker(args, i, st);
        if marked.Err? {
          return Err(marked.error);
        }
        st := marked.value;
      } else {
        var p := ReadParam(v);
        if p.Err? {
          return Err(p.error);
        }
        var added := Add(st, p.value);
        if added.Err? {
          return Err(added.error);
        }
        st := added.value;
      }
      i := i + 1;
    }
    r := Finish(st, None);
  }

  /** `:key` or `:optional` in the parameter list: each may appear once, and not both. */
  function ReadMarker(args: seq<Value>, i: nat, st: ParseState): (r: Result<ParseState, Error>)
    requires i < |args| && args[i].Keyword? && args[i].name != RestName
    ensures r.Ok? <==> !st.key && !st.optional && (args[i].name == KeyName || args[i].name == OptionalName)
    ensures r.Ok? ==> r.value == st.(key := args[i].name == KeyName, optional := args[i].name == OptionalName, req := |st.params|)
    ensures args[i].name == KeyName && st.key ==> r == Err(Syntax("duplicate `:key`"))
    ensures args[i].name == OptionalName && st.optional ==> r == Err(Syntax("duplicate `:optional`"))
    ensures (args[i].name == KeyName && !st.key && st.optional) || (args[i].name == OptionalName && !st.optional && st.key) ==>
      r == Err(Syntax("`:key` and `:optional` are mutually exclusive"))
    ensures args[i].name != KeyName && args[i].name != OptionalName ==> r == Err(Syntax("expected :key, :optional, or :rest"))
  {
    var kw := args[i].name;
    if kw == KeyName then
      if st.key then Err(Syntax("duplicate `:key`"))
      else if st.optional then Err(Syntax("`:key` and `:optional` are mutually exclusive"))
      else Ok(st.(key := true, req := |st.params|))
    else if kw == OptionalName then
      if st.optional then Err(Syntax("duplicate `:optional`"))
      else if st.key then Err(Syntax("`:key` and `:optional` are mutually exclusive"))
      else Ok(st.(optional := true, req := |st.params|))
    else Err(Syntax("expected :key, :optional, or :rest"))
  }

  /** `:rest name` ends the parameter list. */
  function ReadRest(args: seq<Value>, i: nat, st: ParseState): (r: Result<ParamSpec, Error>)
    requires i < |args| && args[i] == Keyword(RestName)
    ensures r.Ok? ==> !st.key && i + 2 == |args| && args[i + 1].Name? && r == Finish(st, Some(args[i + 1].name))
    ensures st.key ==> r == Err(Syntax("`:key` and `:rest` are mutually exclusive"))
    ensures !st.key && i + 1 == |args| ==> r == Err(Syntax("expected name after `:rest`"))
    ensures !st.key && i + 1 < |args| && !args[i + 1].Name? ==> r == Err(Syntax("expected name"))
    ensures !st.key && i + 2 < |args| && args[i + 1].Name? ==> r == Err(Syntax("extraneous token after `:rest` argument"))
    ensures r.Err? ==> r.error.Compile? && r.error.err.SyntaxError?
  {
    if st.key then Err(Syntax("`:key` and `:rest` are mutually exclusive"))
    else if i + 1 == |args| then Err(Syntax("expected name after `:rest`"))
    else if !args[i + 1].Name? then Err(Syntax("expected name"))
    else if i + 2 < |args| then Err(Syntax("extraneous token after `:rest` argument"))
    else Finish(st, Some(args[i + 1].name))
  }

  /** The parameters declared by the elements of `s` that are names or `(name default)`
    pairs, in order. */
  function Declared(s: seq<Value>): seq<Param> {
    if s == [] then []
    else Declared(s[..|s| - 1]) + (if ReadParam(s[|s| - 1]).Ok? then [ReadParam(s[|s| - 1]).value] else [])
  }

  /** The elements of a parameter list before its `:rest name` ending, if any. */
  function Body(args: seq<Value>, rest: Option<Name>): seq<Value> {
    if rest.Some? && |args| >= 2 then args[..|args| - 2] else args
  }

  /** The elements of `s` before the first `x`; all of `s` when `x` is absent. */
  function Before(s: seq<Value>, x: Value): (r: seq<Value>)
    ensures x !in r && r <= s
  {
    if x !in s then s
    else if x in s[..|s| - 1] then Before(s[..|s| - 1], x)
    else s[..|s| - 1]
  }

  lemma BeforeSnoc(s: seq<Value>, y: Value, x: Value)
    ensures Before(s + [y], x) == if x in s then Before(s, x) else if y == x then s else s + [y]
  {
    assert (s + [y])[..|s|] == s;
  }

  /** What the parser has established after reading `args[..i]` into `st`: the parameters
    are the declarations read, in order, with distinct names; the flags record which
    markers were read, each at most once and not both; the positional parameters are the
    declarations before `:key`, and the required count is the number of declarations before
    `:optional`. */
  ghost predicate StateOk(args: seq<Value>, i: nat, st: ParseState)
    requires i <= |args|
  {
    && Distinct(NamesOf(st.params) + NamesOf(st.kw))
    && (forall p :: p in st.params + st.kw ==> exists k :: 0 <= k < i && Declares(args[k], p))
    && st.params + st.kw == Declared(args[..i])
    && (st.key <==> Keyword(KeyName) in args[..i])
    && (st.optional <==> Keyword(OptionalName) in args[..i])
    && (!st.key ==> st.kw == [])
    && (st.optional ==> st.req <= |st.params|)
    && !(st.key && st.optional)
    && st.params == Declared(Before(args[..i], Keyword(KeyName)))
    && (st.optional ==> st.req == |Declared(Before(args[..i], Keyword(OptionalName)))|)
    && MarkersOnce(args[..i])
  }

  /** `:key` and `:optional` each occur at most once. */
  predicate MarkersOnce(s: seq<Value>) {
    forall j, k :: 0 <= j < k < |s| && s[j] == s[k] ==> s[j] != Keyword(KeyName) && s[j] != Keyword(OptionalName)
  }

  /** What an accepted parameter list declares: `SpecCore`, and a `:rest` anywhere in the list
    ends it with the rest parameter. */
  ghost predicate SpecOk(args: seq<Value>, ps: ParamSpec) {
    SpecCore(args, ps) && (Keyword(RestName) in args ==> ps.rest.Some?)
  }

  /** Distinct names, each written in the list; the positional and keyword parameters are the
    declarations of the list in order, the positional ones being those before `:key`; fewer
    required than positional parameters exactly when `:optional` is present, the required ones
    being those before it; keyword parameters exactly when `:key` is present; each marker at
    most once and not both; a rest parameter only as the last two elements and never with
    keyword parameters. */
  ghost predicate SpecCore(args: seq<Value>, ps: ParamSpec) {
    && Distinct(NamesOf(ps.params) + NamesOf(ps.kwParams))
    && (forall p :: p in ps.params + ps.kwParams ==> exists k :: 0 <= k < |args| && Declares(args[k], p))
    && ps.params + ps.kwParams == Declared(Body(args, ps.rest))
    && ps.params == Declared(Before(Body(args, ps.rest), Keyword(KeyName)))
    && ps.reqParams <= |ps.params|
    && (ps.reqParams < |ps.params| <==> Keyword(OptionalName) in args)
    && (Keyword(OptionalName) in args ==> ps.reqParams == |Declared(Before(Body(args, ps.rest), Keyword(OptionalName)))|)
    && (|ps.kwParams| > 0 <==> Keyword(KeyName) in args)
    && !(Keyword(KeyName) in args && Keyword(OptionalName) in args)
    && MarkersOnce(args)
    && (ps.rest.Some? ==>
          |ps.kwParams| == 0 && |args| >= 2 &&
          args[|args| - 2] == Keyword(RestName) && args[|args| - 1] == Name(ps.rest.value))
  }

  /** One more element adds its declaration, if it is one. */
  lemma DeclaredSnoc(s: seq<Value>, x: Value)
    ensures Declared(s + [x]) == Declared(s) + (if ReadParam(x).Ok? then [ReadParam(x).value] else [])
  {
    assert (s + [x])[..|s|] == s;
  }

  lemma {:induction false} DeclaredAppend(s: seq<Value>, t: seq<Value>)
    ensures Declared(s + t) == Declared(s) + Declared(t)
    decreases |t|
  {
    if t == [] {
      assert s + t == s;
    } else {
      var t' := t[..|t| - 1];
      var x := t[|t| - 1];
      assert s + t == (s + t') + [x] && t == t' + [x];
      DeclaredSnoc(s + t', x);
      DeclaredSnoc(t', x);
      DeclaredAppend(s, t');
    }
  }

  lemma PrefixGrows(args: seq<Value>, i: nat)
    requires i < |args|
    ensures args[..i + 1] == args[..i] + [args[i]]
    ensures forall x :: x in args[..i + 1] <==> x in args[..i] || x == args[i]
  {
    assert args[..i + 1] == args[..i] + [args[i]];
  }

  lemma {:induction false} NamesOfAppend(ps: seq<Param>, qs: seq<Param>)
    ensures NamesOf(ps + qs) == NamesOf(ps) + NamesOf(qs)
  {
    assert forall k :: 0 <= k < |ps + qs| ==> NamesOf(ps + qs)[k] == (NamesOf(ps) + NamesOf(qs))[k];
  }

  lemma DistinctSnoc(s: seq<Name>, x: Name)
    requires Distinct(s) && x !in s
    ensures Distinct(s + [x])
  {
    forall j, k | 0 <= j < k < |s + [x]| ensures (s + [x])[j] != (s + [x])[k] {
      if k == |s| {
        assert (s + [x])[j] == s[j];
      } else {
        assert (s + [x])[j] == s[j] && (s + [x])[k] == s[k];
      }
    }
  }

  lemma StartOk(args: seq<Value>)
    ensures StateOk(args, 0, Start)
  {
    assert args[..0] == [];
  }

  lemma AddOk(args: seq<Value>, i: nat, st: ParseState, p: Param)
    requires i < |args| && StateOk(args, i, st)
    requires ReadParam(args[i]) == Ok(p) && Add(st, p).Ok?
    ensures StateOk(args, i + 1, Add(st, p).value)
  {
    AddNamesOk(args, i, st, p);
    AddDeclaredOk(args, i, st, p);
    AddFlagsOk(args, i, st, p);
  }

  /** An accepted parameter keeps the names distinct and each declared in the list. */
  lemma AddNamesOk(args: seq<Value>, i: nat, st: ParseState, p: Param)
    requires i < |args| && StateOk(args, i, st)
    requires ReadParam(args[i]) == Ok(p) && Add(st, p).Ok?
    ensures var st' := Add(st, p).value;
      && Distinct(NamesOf(st'.params) + NamesOf(st'.kw))
      && forall q :: q in st'.params + st'.kw ==> exists k :: 0 <= k < i + 1 && Declares(args[k], q)
  {
    var st' := Add(st, p).value;
    AddDistinct(st, p);
    forall q | q in st'.params + st'.kw ensures exists k :: 0 <= k < i + 1 && Declares(args[k], q) {
      if q == p {
        assert Declares(args[i], q);
      } else {
        assert q in st.params + st.kw;
        var k :| 0 <= k < i && Declares(args[k], q);
        assert 0 <= k < i + 1;
      }
    }
  }

  /** An accepted parameter extends the declarations read, before each marker too. */
  lemma AddDeclaredOk(args: seq<Value>, i: nat, st: ParseState, p: Param)
    requires i < |args| && StateOk(args, i, st)
    requires ReadParam(args[i]) == Ok(p) && Add(st, p).Ok?
    ensures var st' := Add(st, p).value;
      && st'.params + st'.kw == Declared(args[..i + 1])
      && st'.params == Declared(Before(args[..i + 1], Keyword(KeyName)))
      && (st'.optional ==> st'.req == |Declared(Before(args[..i + 1], Keyword(OptionalName)))|)
      && (st'.optional ==> st'.req <= |st'.params|)
  {
    PrefixGrows(args, i);
    DeclaredSnoc(args[..i], args[i]);
    var st' := Add(st, p).value;
    BeforeSnoc(args[..i], args[i], Keyword(KeyName));
    BeforeSnoc(args[..i], args[i], Keyword(OptionalName));
    assert st'.params + st'.kw == (st.params + st.kw) + [p];
  }

  /** A parameter is no marker: the flags and the markers read stay as they were. */
  lemma AddFlagsOk(args: seq<Value>, i: nat, st: ParseState, p: Param)
    requires i < |args| && StateOk(args, i, st)
    requires ReadParam(args[i]) == Ok(p) && Add(st, p).Ok?
    ensures var st' := Add(st, p).value;
      && (st'.key <==> Keyword(KeyName) in args[..i + 1])
      && (st'.optional <==> Keyword(OptionalName) in args[..i + 1])
      && (!st'.key ==> st'.kw == [])
      && !(st'.key && st'.optional)
      && MarkersOnce(args[..i + 1])
  {
    PrefixGrows(args, i);
    assert args[i] != Keyword(KeyName) && args[i] != Keyword(OptionalName);
  }

  /** A marker accepted keeps the invariant: it is the first marker of the list. */
  lemma MarkerOk(args: seq<Value>, i: nat, st: ParseState)
    requires i < |args| && StateOk(args, i, st)
    requires args[i].Keyword? && args[i].name != RestName && ReadMarker(args, i, st).Ok?
    ensures StateOk(args, i + 1, ReadMarker(args, i, st).value)
  {
    MarkerDeclaredOk(args, i, st);
    MarkerFlagsOk(args, i, st);
  }

  /** A marker declares nothing; what was declared before it is all declared before it. */
  lemma MarkerDeclaredOk(args: seq<Value>, i: nat, st: ParseState)
    requires i < |args| && StateOk(args, i, st)
    requires args[i].Keyword? && args[i].name != RestName && ReadMarker(args, i, st).Ok?
    ensures var st' := ReadMarker(args, i, st).value;
      && st'.params + st'.kw == Declared(args[..i + 1])
      && st'.params == Declared(Before(args[..i + 1], Keyword(KeyName)))
      && (st'.optional ==> st'.req == |Declared(Before(args[..i + 1], Keyword(OptionalName)))|)
      && (st'.optional ==> st'.req <= |st'.params|)
  {
    PrefixGrows(args, i);
    DeclaredSnoc(args[..i], args[i]);
    BeforeSnoc(args[..i], args[i], Keyword(KeyName));
    BeforeSnoc(args[..i], args[i], Keyword(OptionalName));
    assert Before(args[..i], Keyword(KeyName)) == args[..i];
  }

  /** An accepted marker is the first marker of the list and sets its flag. */
  lemma MarkerFlagsOk(args: seq<Value>, i: nat, st: ParseState)
    requires i < |args| && StateOk(args, i, st)
    requires args[i].Keyword? && args[i].name != RestName && ReadMarker(args, i, st).Ok?
    ensures var st' := ReadMarker(args, i, st).value;
      && Distinct(NamesOf(st'.params) + NamesOf(st'.kw))
      && (forall p :: p in st'.params + st'.kw ==> exists k :: 0 <= k < i + 1 && Declares(args[k], p))
      && (st'.key <==> Keyword(KeyName) in args[..i + 1])
      && (st'.optional <==> Keyword(OptionalName) in args[..i + 1])
      && (!st'.key ==> st'.kw == [])
      && !(st'.key && st'.optional)
      && MarkersOnce(args[..i + 1])
  {
    PrefixGrows(args, i);
  }

  /** An accepted parameter keeps the declared names distinct. */
  lemma AddDistinct(st: ParseState, p: Param)
    requires Distinct(NamesOf(st.params) + NamesOf(st.kw)) && Add(st, p).Ok?
    ensures Distinct(NamesOf(Add(st, p).value.params) + NamesOf(Add(st, p).value.kw))
  {
    var st' := Add(st, p).value;
    var ns := NamesOf(st.params) + NamesOf(st.kw);
    if st.key {
      NamesOfAppend(st.kw, [p]);
      assert NamesOf(st'.params) + NamesOf(st'.kw) == ns + [p.0];
      DistinctSnoc(ns, p.0);
    } else {
      NamesOfAppend(st.params, [p]);
      assert NamesOf(st'.params) + NamesOf(st'.kw) == NamesOf(st.params) + [p.0] + NamesOf(st.kw);
      DistinctInsert(NamesOf(st.params), NamesOf(st.kw), p.0);
    }
  }

  lemma DistinctInsert(s: seq<Name>, t: seq<Name>, x: Name)
    requires Distinct(s + t) && x !in s && x !in t
    ensures Distinct(s + [x] + t)
  {
    var u := s + [x] + t;
    forall j, k | 0 <= j < k < |u| ensures u[j] != u[k] {
      if j < |s| && k < |s| {
        assert u[j] == (s + t)[j] && u[k] == (s + t)[k];
      } else if j < |s| && k > |s| {
        assert u[j] == (s + t)[j] && u[k] == (s + t)[k - 1];
      } else if j > |s| {
        assert u[j] == (s + t)[j - 1] && u[k] == (s + t)[k - 1];
      }
    }
  }

  lemma FinishOk(args: seq<Value>, i: nat, st: ParseState, rest: Option<Name>)
    requires i <= |args| && StateOk(args, i, st) && Finish(st, rest).Ok?
    requires rest.None? ==> i == |args|
    requires rest.Some? ==>
      i + 2 == |args| && args[i] == Keyword(RestName) && args[i + 1] == Name(rest.value) && !st.key
    ensures SpecCore(args, Finish(st, rest).value)
  {
    FinishBody(args, i, st, rest);
    var ps := Finish(st, rest).value;
    forall p | p in ps.params + ps.kwParams ensures exists k :: 0 <= k < |args| && Declares(args[k], p) {
      assert p in st.params + st.kw;
    }
  }

  /** Where the parse finishes, the body of the list is what was read, and its markers are
    those of the whole list. */
  lemma FinishBody(args: seq<Value>, i: nat, st: ParseState, rest: Option<Name>)
    requires i <= |args|
    requires rest.None? ==> i == |args|
    requires rest.Some? ==>
      i + 2 == |args| && args[i] == Keyword(RestName) && args[i + 1] == Name(rest.value)
    ensures Body(args, rest) == args[..i]
    ensures forall x :: x != Keyword(RestName) && !x.Name? ==> (x in args <==> x in args[..i])
    ensures MarkersOnce(args[..i]) ==> MarkersOnce(args)
  {
    if rest.Some? {
      PrefixGrows(args, i);
      PrefixGrows(args, i + 1);
      assert args[..i + 2] == args;
    } else {
      assert args[..i] == args;
    }
  }

  /** Reading the rest of a list from a consistent state either fails or yields a parameter
    description with the properties of SpecCore. */
  lemma {:induction false} ParseFromOk(args: seq<Value>, i: nat, st: ParseState)
    requires i <= |args| && StateOk(args, i, st)
    ensures ParseFrom(args, i, st).Ok? ==> SpecCore(args, ParseFrom(args, i, st).value)
    decreases |args| - i
  {
    if i == |args| {
      if Finish(st, None).Ok? {
        FinishOk(args, i, st, None);
      }
    } else if ParseFrom(args, i, st).Ok? {
      if args[i] == Keyword(RestName) {
        var name := ParseRestStep(args, i, st);
        FinishOk(args, i, st, Some(name));
      } else if args[i].Keyword? {
        var st' := ParseMarkerStep(args, i, st);
        MarkerOk(args, i, st);
        ParseFromOk(args, i + 1, st');
      } else {
        var p, st' := ParseParamStep(args, i, st);
        AddOk(args, i, st, p);
        ParseFromOk(args, i + 1, st');
      }
    }
  }

  /** A parse that succeeds at `:rest name` ends there. */
  lemma ParseRestStep(args: seq<Value>, i: nat, st: ParseState) returns (name: Name)
    requires i < |args| && args[i] == Keyword(RestName) && ParseFrom(args, i, st).Ok?
    ensures !st.key && i + 2 == |args| && args[i + 1] == Name(name)
    ensures ParseFrom(args, i, st) == Finish(st, Some(name))
  {
    name := args[i + 1].name;
  }

  /** A parse that succeeds past a marker goes on from the state the marker leaves. */
  lemma ParseMarkerStep(args: seq<Value>, i: nat, st: ParseState) returns (st': ParseState)
    requires i < |args| && args[i].Keyword? && args[i] != Keyword(RestName) && ParseFrom(args, i, st).Ok?
    ensures ReadMarker(args, i, st) == Ok(st') && ParseFrom(args, i + 1, st') == ParseFrom(args, i, st)
  {
    st' := ReadMarker(args, i, st).value;
  }

  /** A parse that succeeds past a parameter goes on from the state with it added. */
  lemma ParseParamStep(args: seq<Value>, i: nat, st: ParseState) returns (p: Param, st': ParseState)
    requires i < |args| && !args[i].Keyword? && ParseFrom(args, i, st).Ok?
    ensures ReadParam(args[i]) == Ok(p) && Add(st, p) == Ok(st')
    ensures ParseFrom(args, i + 1, st') == ParseFrom(args, i, st)
  {
    p := ReadParam(args[i]).value;
    st' := Add(st, p).value;
  }

  /** Every parameter list `make_lambda` accepts declares distinct parameters, each written in
    the list, with the markers respected. */
  lemma ParseParamsOk(args: seq<Value>)
    ensures ParseParams(args).Ok? ==> SpecOk(args, ParseParams(args).value)
  {
    StartOk(args);
    ParseFromOk(args, 0, Start);
    assert args[..0] == [];
    RestFrom(args, 0, Start);
  }

  /** A parse that has met no `:rest` before `i` and succeeds from there has a rest parameter
    when the list holds `:rest`: reading stops at the first `:rest`, which must end the list. */
  lemma {:induction false} RestFrom(args: seq<Value>, i: nat, st: ParseState)
    requires i <= |args| && Keyword(RestName) !in args[..i]
    ensures ParseFrom(args, i, st).Ok? && Keyword(RestName) in args ==> ParseFrom(args, i, st).value.rest.Some?
    decreases |args| - i
  {
    if i == |args| {
      assert args[..i] == args;
    } else if ParseFrom(args, i, st).Ok? {
      if args[i] == Keyword(RestName) {
        var name := ParseRestStep(args, i, st);
      } else {
        PrefixGrows(args, i);
        if args[i].Keyword? {
          var st' := ParseMarkerStep(args, i, st);
          RestFrom(args, i + 1, st');
        } else {
          var p, st' := ParseParamStep(args, i, st);
          RestFrom(args, i + 1, st');
        }
      }
    }
  }

  /** An accepted list holding `:rest` ends with `:rest name`, `name` being the rest parameter,
    and holds no `:key`. */
  lemma RestAtEnd(args: seq<Value>)
    requires ParseParams(args).Ok? && Keyword(RestName) in args
    ensures |args| >= 2 && args[|args| - 2] == Keyword(RestName) && args[|args| - 1].Name?
    ensures ParseParams(args).value.rest == Some(args[|args| - 1].name)
    ensures Keyword(KeyName) !in args && ParseParams(args).value.kwParams == []
  {
    ParseParamsOk(args);
  }

  /** A default expression is part of the parameter list, hence smaller than it, and well
    formed when the list is. */
  lemma DefaultsSmaller(args: seq<Value>, ps: ParamSpec, p: Param)
    requires SpecOk(args, ps) && (p in ps.params || p in ps.kwParams) && p.1.Some?
    ensures Size(p.1.value) < ListSize(args)
    ensures AllWellFormed(args) ==> WellFormed(p.1.value)
  {
    assert p in ps.params + ps.kwParams;
    var k :| 0 <= k < |args| && Declares(args[k], p);
    ElementSmaller(args, k);
    ElementSmaller(args[k].items, 1);
  }

  /** Every default of `ps` is part of `args`, hence smaller than it, and well formed when
    `args` is. */
  ghost predicate DefaultsWithin(args: seq<Value>, ps: seq<Param>) {
    forall p :: p in ps && p.1.Some? ==>
      Size(p.1.value) < ListSize(args) && (AllWellFormed(args) ==> WellFormed(p.1.value))
  }

  /** The defaults of an accepted parameter list, positional and keyword, lie within it. */
  lemma SpecDefaults(args: seq<Value>, ps: ParamSpec)
    requires SpecOk(args, ps)
    ensures DefaultsWithin(args, ps.params) && DefaultsWithin(args, ps.kwParams)
  {
    forall p | p in ps.params && p.1.Some?
      ensures Size(p.1.value) < ListSize(args) && (AllWellFormed(args) ==> WellFormed(p.1.value))
    {
      DefaultsSmaller(args, ps, p);
    }
    forall p | p in ps.kwParams && p.1.Some?
      ensures Size(p.1.value) < ListSize(args) && (AllWellFormed(args) ==> WellFormed(p.1.value))
    {
      DefaultsSmaller(args, ps, p);
    }
  }

  /** `args[i..j]` are all names or `(name default)` pairs. */
  predicate AllDeclare(args: seq<Value>, i: nat, j: nat)
    requires i <= j <= |args|
  {
    forall k :: i <= k < j ==> ReadParam(args[k]).Ok?
  }

  /** The names declared so far. */
  function StateNames(st: ParseState): seq<Name> {
    NamesOf(st.params) + NamesOf(st.kw)
  }

  /** `st` with `ps` added where the parser puts new parameters: keyword parameters after
    `:key`, positional ones otherwise. */
  function Extend(st: ParseState, ps: seq<Param>): ParseState {
    if st.key then st.(kw := st.kw + ps) else st.(params := st.params + ps)
  }

  /** `n` occurs twice in `s`. */
  predicate Repeated(s: seq<Name>, n: Name) {
    exists j, k :: 0 <= j < k < |s| && s[j] == n && s[k] == n
  }

  lemma DeclaredCons(x: Value, s: seq<Value>)
    ensures Declared([x] + s) == (if ReadParam(x).Ok? then [ReadParam(x).value] else []) + Declared(s)
  {
    DeclaredAppend([x], s);
    assert [x][..0] == [];
  }

  lemma {:induction false} DeclaredLength(s: seq<Value>)
    requires forall k :: 0 <= k < |s| ==> ReadParam(s[k]).Ok?
    ensures |Declared(s)| == |s|
  {
    if s != [] {
      DeclaredLength(s[..|s| - 1]);
    }
  }

  lemma RepeatedPrefix(s: seq<Name>, t: seq<Name>, n: Name)
    requires Repeated(s, n)
    ensures Repeated(s + t, n)
  {
    var j, k :| 0 <= j < k < |s| && s[j] == n && s[k] == n;
    assert (s + t)[j] == n && (s + t)[k] == n;
  }

  /** One declaration read: the parse fails on a name already declared and otherwise goes on
    with it added. */
  lemma ParamStep(args: seq<Value>, i: nat, st: ParseState)
    requires i < |args| && ReadParam(args[i]).Ok?
    ensures var added := Add(st, ReadParam(args[i]).value);
      ParseFrom(args, i, st) == if added.Ok? then ParseFrom(args, i + 1, added.value) else Err(added.error)
  {
  }

  /** A name added after an earlier occurrence of itself is repeated. */
  lemma RepeatedAfter(a: seq<Name>, x: Name, b: seq<Name>)
    requires x in a
    ensures Repeated(a + [x] + b, x) && !Distinct(a + [x] + b)
  {
    var k :| 0 <= k < |a| && a[k] == x;
    assert (a + [x] + b)[k] == x && (a + [x] + b)[|a|] == x;
  }

  /** The names of a run of declarations, its first one apart. */
  lemma RunNames(args: seq<Value>, i: nat, j: nat)
    requires i < j <= |args| && ReadParam(args[i]).Ok?
    ensures Declared(args[i..j]) == [ReadParam(args[i]).value] + Declared(args[i + 1..j])
    ensures NamesOf(Declared(args[i..j])) == [ReadParam(args[i]).value.0] + NamesOf(Declared(args[i + 1..j]))
  {
    var p := ReadParam(args[i]).value;
    assert args[i..j] == [args[i]] + args[i + 1..j];
    DeclaredCons(args[i], args[i + 1..j]);
    NamesOfAppend([p], Declared(args[i + 1..j]));
  }

  /** A fresh name added: the state keeps its shape and the run's remaining names follow. */
  lemma AddFresh(st: ParseState, p: Param, rest: seq<Param>)
    requires Distinct(StateNames(st)) && (!st.key ==> st.kw == []) && p.0 !in StateNames(st)
    ensures Add(st, p).Ok?
    ensures var st' := Add(st, p).value;
      && Distinct(StateNames(st')) && (!st'.key ==> st'.kw == [])
      && StateNames(st') == StateNames(st) + [p.0]
      && Extend(st', rest) == Extend(st, [p] + rest)
  {
    var st' := Add(st, p).value;
    AddDistinct(st, p);
    if st.key {
      NamesOfAppend(st.kw, [p]);
      assert st.kw + [p] + rest == st.kw + ([p] + rest);
    } else {
      NamesOfAppend(st.params, [p]);
      assert st.params + [p] + rest == st.params + ([p] + rest);
    }
  }

  /** A run of declarations `args[i..j]` is read one by one: if its names, with those already
    declared, are distinct, the parse continues after the run with all of them added;
    otherwise it fails on a name declared twice. */
  lemma {:induction false} DeclsRun(args: seq<Value>, i: nat, j: nat, st: ParseState)
    requires i <= j <= |args| && AllDeclare(args, i, j)
    requires Distinct(StateNames(st)) && (!st.key ==> st.kw == [])
    ensures RunParsed(args, i, j, st)
    decreases j - i
  {
    if i == j {
      assert args[i..j] == [];
      assert StateNames(st) + NamesOf(Declared(args[i..j])) == StateNames(st);
      assert Extend(st, []) == st;
    } else {
      var p := ReadParam(args[i]).value;
      if p.0 in StateNames(st) {
        DeclsRepeat(args, i, j, st);
      } else {
        AddFresh(st, p, Declared(args[i + 1..j]));
        DeclsRun(args, i + 1, j, Add(st, p).value);
        DeclsFresh(args, i, j, st);
      }
    }
  }

  /** The parse of `args[i..]` from `st` reads the run `args[i..j]` as DeclsRun states. */
  ghost predicate RunParsed(args: seq<Value>, i: nat, j: nat, st: ParseState)
    requires i <= j <= |args|
  {
    var names := StateNames(st) + NamesOf(Declared(args[i..j]));
    var r := ParseFrom(args, i, st);
    if Distinct(names) then r == ParseFrom(args, j, Extend(st, Declared(args[i..j])))
    else r.Err? && r.error.Compile? && r.error.err.DuplicateParameter? && Repeated(names, r.error.err.name)
  }

  /** A run whose first name is declared already fails on it. */
  lemma DeclsRepeat(args: seq<Value>, i: nat, j: nat, st: ParseState)
    requires i < j <= |args| && ReadParam(args[i]).Ok? && ReadParam(args[i]).value.0 in StateNames(st)
    ensures RunParsed(args, i, j, st)
  {
    var p := ReadParam(args[i]).value;
    RunNames(args, i, j);
    assert StateNames(st) + NamesOf(Declared(args[i..j])) == StateNames(st) + [p.0] + NamesOf(Declared(args[i + 1..j]));
    ParamStep(args, i, st);
    RepeatedAfter(StateNames(st), p.0, NamesOf(Declared(args[i + 1..j])));
  }

  /** A run whose first name is fresh is read as that name followed by the rest of the run. */
  lemma DeclsFresh(args: seq<Value>, i: nat, j: nat, st: ParseState)
    requires i < j <= |args| && ReadParam(args[i]).Ok? && Add(st, ReadParam(args[i]).value).Ok?
    requires var p := ReadParam(args[i]).value;
      && StateNames(Add(st, p).value) == StateNames(st) + [p.0]
      && Extend(Add(st, p).value, Declared(args[i + 1..j])) == Extend(st, [p] + Declared(args[i + 1..j]))
    requires RunParsed(args, i + 1, j, Add(st, ReadParam(args[i]).value).value)
    ensures RunParsed(args, i, j, st)
  {
    var p := ReadParam(args[i]).value;
    var st' := Add(st, p).value;
    var rest := Declared(args[i + 1..j]);
    RunNames(args, i, j);
    var names := StateNames(st) + NamesOf(Declared(args[i..j]));
    AppendAssoc(StateNames(st), [p.0], NamesOf(rest));
    assert Extend(st', rest) == Extend(st, Declared(args[i..j]));
    ParamStep(args, i, st);
    var r := ParseFrom(args, i, st);
    assert r == ParseFrom(args, i + 1, st');
    if Distinct(names) {
      assert r == ParseFrom(args, j, Extend(st', rest));
    } else {
      assert r.Err? && r.error.Compile? && r.error.err.DuplicateParameter? && Repeated(StateNames(st') + NamesOf(rest), r.error.err.name);
    }
  }

  lemma AppendAssoc(a: seq<Name>, b: seq<Name>, c: seq<Name>)
    ensures a + (b + c) == (a + b) + c
  {
  }

  /** A list made only of names and `(name default)` pairs is accepted exactly when the names
    are distinct; it then declares them all, in order, as required positional parameters;
    otherwise it fails on a name declared twice. */
  lemma DeclarationList(args: seq<Value>)
    requires AllDeclare(args, 0, |args|)
    ensures var names := NamesOf(Declared(args));
      var r := ParseParams(args);
      && (r.Ok? <==> Distinct(names))
      && (r.Ok? ==> r.value == ParamSpec(Declared(args), |args|, [], None))
      && (r.Err? ==> r.error.Compile? && r.error.err.DuplicateParameter? && Repeated(names, r.error.err.name))
  {
    var decls := Declared(args);
    var names := NamesOf(decls);
    assert args[0..|args|] == args;
    assert NamesOf<Option<Value>>([]) == [];
    assert StateNames(Start) + names == names;
    DeclsRun(args, 0, |args|, Start);
    assert RunParsed(args, 0, |args|, Start);
    var r := ParseParams(args);
    assert r == ParseFrom(args, 0, Start);
    if Distinct(names) {
      var st := Extend(Start, decls);
      assert st == ParseState(decls, [], false, false, 0);
      DeclaredLength(args);
      EndOfList(args, st);
      assert r == Finish(st, None);
    }
  }

  lemma EndOfList(args: seq<Value>, st: ParseState)
    ensures ParseFrom(args, |args|, st) == Finish(st, None)
  {
  }

  /** A list of declarations around one `:key` or `:optional` marker: a name declared twice
    is refused; a marker with nothing after it is refused; otherwise the declarations before
    the marker are positional and required, and those after it are keyword parameters after
    `:key` and optional positional parameters after `:optional`. */
  lemma MarkedList(pre: seq<Value>, m: Name, post: seq<Value>)
    requires m == KeyName || m == OptionalName
    requires AllDeclare(pre, 0, |pre|) && AllDeclare(post, 0, |post|)
    ensures var names := NamesOf(Declared(pre)) + NamesOf(Declared(post));
      var r := ParseParams(pre + [Keyword(m)] + post);
      && (!Distinct(names) ==>
            r.Err? && r.error.Compile? && r.error.err.DuplicateParameter? && Repeated(names, r.error.err.name))
      && (Distinct(names) && post == [] ==>
            r == Err(Syntax(if m == KeyName then "expected arguments after `:key`" else "expected arguments after `:optional`")))
      && (Distinct(names) && post != [] && m == KeyName ==>
            r == Ok(ParamSpec(Declared(pre), |pre|, Declared(post), None)))
      && (Distinct(names) && post != [] && m == OptionalName ==>
            r == Ok(ParamSpec(Declared(pre) + Declared(post), |pre|, [], None)))
  {
    var args := pre + [Keyword(m)] + post;
    var names := NamesOf(Declared(pre)) + NamesOf(Declared(post));
    var r := ParseParams(args);
    MarkedSplit(pre, m, post);
    if !Distinct(NamesOf(Declared(pre))) {
      RepeatedPrefix(NamesOf(Declared(pre)), NamesOf(Declared(post)), r.error.err.name);
    } else {
      AfterMarker(pre, m, post);
    }
    if !Distinct(names) {
      var j, k :| 0 <= j < k < |names| && names[j] == r.error.err.name && names[k] == r.error.err.name;
    }
  }

  /** The parser state just after the marker of a marked list. */
  function MarkedState(pre: seq<Value>, m: Name): ParseState {
    ParseState(Declared(pre), [], m == KeyName, m == OptionalName, |Declared(pre)|)
  }

  /** The declarations before the marker are read first, then the marker. */
  lemma MarkedSplit(pre: seq<Value>, m: Name, post: seq<Value>)
    requires m == KeyName || m == OptionalName
    requires AllDeclare(pre, 0, |pre|) && AllDeclare(post, 0, |post|)
    ensures var args := pre + [Keyword(m)] + post;
      && args[|pre| + 1..] == post
      && AllDeclare(args, |pre| + 1, |args|)
      && (Distinct(NamesOf(Declared(pre))) ==> ParseParams(args) == ParseFrom(args, |pre| + 1, MarkedState(pre, m)))
      && (!Distinct(NamesOf(Declared(pre))) ==>
            var r := ParseParams(args);
            r.Err? && r.error.Compile? && r.error.err.DuplicateParameter? && Repeated(NamesOf(Declared(pre)), r.error.err.name))
  {
    var args := pre + [Keyword(m)] + post;
    var i := |pre|;
    MarkedDeclare(pre, m, post);
    assert StateNames(Start) + NamesOf(Declared(pre)) == NamesOf(Declared(pre));
    DeclsRun(args, 0, i, Start);
    if Distinct(NamesOf(Declared(pre))) {
      var st0 := Extend(Start, Declared(pre));
      assert st0 == ParseState(Declared(pre), [], false, false, 0);
      MarkerStep(args, i, st0);
    }
  }

  /** Around the marker, a marked list holds only declarations. */
  lemma MarkedDeclare(pre: seq<Value>, m: Name, post: seq<Value>)
    requires AllDeclare(pre, 0, |pre|) && AllDeclare(post, 0, |post|)
    ensures var args := pre + [Keyword(m)] + post;
      && args[0..|pre|] == pre && args[|pre|] == Keyword(m) && args[|pre| + 1..] == post
      && AllDeclare(args, 0, |pre|) && AllDeclare(args, |pre| + 1, |args|)
  {
    var args := pre + [Keyword(m)] + post;
    var i := |pre|;
    assert args[0..i] == pre && args[i] == Keyword(m) && args[i + 1..] == post;
    forall k | 0 <= k < i ensures ReadParam(args[k]).Ok? {
      assert args[k] == pre[k];
    }
    forall k | i + 1 <= k < |args| ensures ReadParam(args[k]).Ok? {
      assert args[k] == post[k - i - 1];
    }
  }

  /** The declarations after the marker, then the end of the list. */
  lemma AfterMarker(pre: seq<Value>, m: Name, post: seq<Value>)
    requires m == KeyName || m == OptionalName
    requires AllDeclare(pre, 0, |pre|) && AllDeclare(post, 0, |post|)
    requires Distinct(NamesOf(Declared(pre)))
    requires var args := pre + [Keyword(m)] + post;
      args[|pre| + 1..] == post && AllDeclare(args, |pre| + 1, |args|)
    ensures var names := NamesOf(Declared(pre)) + NamesOf(Declared(post));
      var r := ParseFrom(pre + [Keyword(m)] + post, |pre| + 1, MarkedState(pre, m));
      && (!Distinct(names) ==>
            r.Err? && r.error.Compile? && r.error.err.DuplicateParameter? && Repeated(names, r.error.err.name))
      && (Distinct(names) && post == [] ==>
            r == Err(Syntax(if m == KeyName then "expected arguments after `:key`" else "expected arguments after `:optional`")))
      && (Distinct(names) && post != [] && m == KeyName ==>
            r == Ok(ParamSpec(Declared(pre), |pre|, Declared(post), None)))
      && (Distinct(names) && post != [] && m == OptionalName ==>
            r == Ok(ParamSpec(Declared(pre) + Declared(post), |pre|, [], None)))
  {
    var args := pre + [Keyword(m)] + post;
    var st1 := MarkedState(pre, m);
    DeclaredLength(pre);
    DeclaredLength(post);
    assert args[|pre| + 1..|args|] == post;
    assert StateNames(st1) == NamesOf(Declared(pre));
    DeclsRun(args, |pre| + 1, |args|, st1);
    var names := NamesOf(Declared(pre)) + NamesOf(Declared(post));
    if Distinct(names) {
      var st2 := Extend(st1, Declared(post));
      EndOfList(args, st2);
      assert ParseFrom(args, |pre| + 1, st1) == Finish(st2, None);
      if m == KeyName {
        assert st2 == ParseState(Declared(pre), Declared(post), true, false, |pre|);
      } else {
        assert st2 == ParseState(Declared(pre) + Declared(post), [], false, true, |pre|);
      }
    }
  }

  /** One marker read: the parse fails where the marker is refused and otherwise goes on. */
  lemma MarkerStep(args: seq<Value>, i: nat, st: ParseState)
    requires i < |args| && args[i].Keyword? && args[i].name != RestName
    ensures var marked := ReadMarker(args, i, st);
      ParseFrom(args, i, st) == if marked.Ok? then ParseFrom(args, i + 1, marked.value) else Err(marked.error)
  {
  }

  /** A `(name default)` pair or name that `Declares` a parameter is read as that parameter. */
  lemma DeclaresRead(v: Value, p: Param)
    requires Declares(v, p)
    ensures ReadParam(v) == Ok(p)
  {
    if !v.Name? {
      assert v.items[0] == Name(p.0);
    }
  }

  lemma {:induction false} DuplicateFrom(args: seq<Value>, i: nat, st: ParseState)
    requires i <= |args| && StateOk(args, i, st)
    ensures DuplicateExplained(args, ParseFrom(args, i, st))
    decreases |args| - i, 1
  {
    if i < |args| && args[i] != Keyword(RestName) {
      if args[i].Keyword? {
        DuplicateAfterMarker(args, i, st);
      } else {
        DuplicateAfterParam(args, i, st);
      }
    }
  }

  /** A parse that fails on a duplicate parameter names one declared twice in `args`. */
  ghost predicate DuplicateExplained(args: seq<Value>, r: Result<ParamSpec, Error>) {
    r.Err? && r.error.Compile? && r.error.err.DuplicateParameter? ==> DeclaredTwice(args, r.error.err.name)
  }

  lemma {:induction false} DuplicateAfterMarker(args: seq<Value>, i: nat, st: ParseState)
    requires i < |args| && StateOk(args, i, st) && args[i].Keyword? && args[i] != Keyword(RestName)
    ensures DuplicateExplained(args, ParseFrom(args, i, st))
    decreases |args| - i, 0
  {
    MarkerStep(args, i, st);
    if ReadMarker(args, i, st).Ok? {
      MarkerOk(args, i, st);
      DuplicateFrom(args, i + 1, ReadMarker(args, i, st).value);
    }
  }

  lemma {:induction false} DuplicateAfterParam(args: seq<Value>, i: nat, st: ParseState)
    requires i < |args| && StateOk(args, i, st) && !args[i].Keyword?
    ensures DuplicateExplained(args, ParseFrom(args, i, st))
    decreases |args| - i, 0
  {
    if ReadParam(args[i]).Ok? {
      var p := ReadParam(args[i]).value;
      ParamStep(args, i, st);
      if Add(st, p).Ok? {
        AddOk(args, i, st, p);
        DuplicateFrom(args, i + 1, Add(st, p).value);
      } else {
        DuplicateHere(args, i, st, p);
      }
    }
  }

  /** A parameter refused as a duplicate repeats a name declared earlier in the list. */
  lemma DuplicateHere(args: seq<Value>, i: nat, st: ParseState, p: Param)
    requires i < |args| && StateOk(args, i, st)
    requires ReadParam(args[i]) == Ok(p) && Add(st, p).Err?
    ensures DeclaredTwice(args, p.0)
  {
    var q: Param;
    if p.0 in NamesOf(st.params) {
      var m :| 0 <= m < |st.params| && NamesOf(st.params)[m] == p.0;
      q := st.params[m];
    } else {
      var m :| 0 <= m < |st.kw| && NamesOf(st.kw)[m] == p.0;
      q := st.kw[m];
    }
    assert q in st.params + st.kw && q.0 == p.0;
    var k :| 0 <= k < i && Declares(args[k], q);
    DeclaresRead(args[k], q);
    assert ReadParam(args[k]).value.0 == p.0;
  }

  /** Two elements of `args` declare parameter name `n`. */
  predicate DeclaredTwice(args: seq<Value>, n: Name) {
    exists j, k :: 0 <= j < k < |args| && ReadParam(args[j]).Ok? && ReadParam(args[k]).Ok? &&
      ReadParam(args[j]).value.0 == n && ReadParam(args[k]).value.0 == n
  }

  /** `make_lambda` reports a duplicate parameter only for a name two elements of the list
    declare. */
  lemma DuplicateDeclared(args: seq<Value>)
    ensures var r := ParseParams(args);
      r.Err? && r.error.Compile? && r.error.err.DuplicateParameter? ==> DeclaredTwice(args, r.error.err.name)
  {
    StartOk(args);
    DuplicateFrom(args, 0, Start);
  }
}
