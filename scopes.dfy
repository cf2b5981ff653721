/** The global scope a compilation writes into (macros, the export list, imported values),
  and the view of another module's scope that `use` imports from.
  scope.rs is not part of this model: a scope is reduced to the three tables the compiler
  touches, and a name counts as exported when the scope declared an export list holding it. */
module Scopes {
  import opened Names
  import opened Wrappers
  import opened Values
  import opened Errors

  /** Another module's scope, as `use` reads it. */
  datatype ScopeView = ScopeView(values: map<Name, Value>, macros: map<Name, Code>, exports: Option<set<Name>>)

  predicate IsExported(exports: Option<set<Name>>, name: Name) {
    exports.Some? && name in exports.value
  }

  /** The scope a compilation runs in. It is shared by the compiler of a whole expression and
    by the compilers of the lambdas nested in it. */
  class GlobalScope {
    var values: map<Name, Value>
    var macros: map<Name, Code>
    var exports: Option<set<Name>>

    constructor ()
      ensures values == map[] && macros == map[] && exports == None
    {
      values := map[];
      macros := map[];
      exports := None;
    }
  }

  /** One item of an import list: `name`, imported under its own name, or the keyword
    `:dest` followed by the name `src`, imported as `dest`. Gives the source name, the
    destination name and how many values the item takes up. */
  function NextImport(items: seq<Value>): (r: Result<(Name, Name, nat), CompileError>)
    requires |items| > 0
    ensures r.Ok? ==> 1 <= r.value.2 <= |items|
    ensures items[0].Name? ==> r == Ok((items[0].name, items[0].name, 1))
    ensures items[0].Keyword? && |items| > 1 && items[1].Name? ==> r == Ok((items[1].name, items[0].name, 2))
    ensures items[0].Keyword? && (|items| == 1 || !items[1].Name?) ==> r == Err(SyntaxError("expected name following keyword"))
    ensures !items[0].Name? && !items[0].Keyword? ==> r == Err(SyntaxError("expected name or keyword"))
  {
    match items[0]
    case Keyword(dest) =>
      if |items| > 1 && items[1].Name? then Ok((items[1].name, dest, 2))
      else Err(SyntaxError("expected name following keyword"))
    case Name(n) => Ok((n, n, 1))
    case _ => Err(SyntaxError("expected name or keyword"))
  }

  /** `each_import` alone: the (source, destination) pairs an import list names. */
  function ImportPairs(items: seq<Value>): (r: Result<seq<(Name, Name)>, CompileError>)
    ensures r.Err? ==> r.error.SyntaxError?
    ensures r.Ok? ==> |r.value| <= |items| && forall p :: p in r.value ==> Name(p.0) in items
    decreases |items|
  {
    if items == [] then Ok([])
    else match NextImport(items)
      case Err(e) => Err(e)
      case Ok((src, dest, used)) =>
        match ImportPairs(items[used..])
        case Err(e) => Err(e)
        case Ok(rest) => Ok([(src, dest)] + rest)
  }

  /** An import list naming `pairs`: a bare name where source and destination agree, and
    `:dest src` otherwise. */
  function ImportItems(pairs: seq<(Name, Name)>): seq<Value> {
    if pairs == [] then []
    else (if pairs[0].0 == pairs[0].1 then [Name(pairs[0].0)] else [Keyword(pairs[0].1), Name(pairs[0].0)])
         + ImportItems(pairs[1..])
  }

  /** Reading back an import list written from a sequence of pairs gives those pairs. */
  lemma {:induction false} ImportPairsRoundTrip(pairs: seq<(Name, Name)>)
    ensures ImportPairs(ImportItems(pairs)) == Ok(pairs)
  {
    if pairs != [] {
      var items := ImportItems(pairs);
      var head := if pairs[0].0 == pairs[0].1 then [Name(pairs[0].0)] else [Keyword(pairs[0].1), Name(pairs[0].0)];
      assert items == head + ImportItems(pairs[1..]);
      assert items[|head|..] == ImportItems(pairs[1..]);
      ImportPairsRoundTrip(pairs[1..]);
      assert [pairs[0]] + pairs[1..] == pairs;
    }
  }

  /** A table after some imports, and the error that stopped them, if any. Imports made before
    an error stay in the table: the source writes them into the scope one by one. */
  datatype Imported<T> = Imported(table: map<Name, T>, outcome: Outcome<CompileError>)

  /** `import_values` and `import_macros`: `each_import` with a callback that copies an entry of
    the module's table into the importing table, failing on a name the module lacks or does not
    export. */
  function Import<T>(modName: Name, into: map<Name, T>, from: map<Name, T>, exports: Option<set<Name>>,
                     items: seq<Value>): (r: Imported<T>)
    ensures into.Keys <= r.table.Keys
    ensures r.outcome.Fail? && r.outcome.error.ImportError? ==>
      r.outcome.error.modName == modName && r.outcome.error.name !in from
    ensures r.outcome.Fail? && r.outcome.error.PrivacyError? ==>
      r.outcome.error.modName == modName && !IsExported(exports, r.outcome.error.name)
    decreases |items|
  {
    if items == [] then Imported(into, Pass)
    else match NextImport(items)
      case Err(e) => Imported(into, Fail(e))
      case Ok((src, dest, used)) =>
        if src !in from then Imported(into, Fail(ImportError(modName, src)))
        else if !IsExported(exports, src) then Imported(into, Fail(PrivacyError(modName, src)))
        else Import(modName, into[dest := from[src]], from, exports, items[used..])
  }

  /** The table after copying the named entries in order. */
  function CopyAll<T>(into: map<Name, T>, from: map<Name, T>, pairs: seq<(Name, Name)>): map<Name, T>
    requires forall p :: p in pairs ==> p.0 in from
    decreases |pairs|
  {
    if pairs == [] then into
    else CopyAll(into[pairs[0].1 := from[pairs[0].0]], from, pairs[1..])
  }

  /** An import list is accepted exactly when it parses and every source name is present in the
    module and exported; the table is then the importing table with those entries copied in
    order. A rejected list never adds a name it does not name. */
  lemma {:induction false} ImportMeaning<T>(modName: Name, into: map<Name, T>, from: map<Name, T>,
                                            exports: Option<set<Name>>, items: seq<Value>)
    ensures var r := Import(modName, into, from, exports, items);
      && (r.outcome.Pass? <==>
            ImportPairs(items).Ok? &&
            forall p :: p in ImportPairs(items).value ==> p.0 in from && IsExported(exports, p.0))
      && (r.outcome.Pass? ==> r.table == CopyAll(into, from, ImportPairs(items).value))
      && (forall k :: k in r.table ==> k in into || exists j :: 0 <= j < |items| && (items[j] == Name(k) || items[j] == Keyword(k)))
    decreases |items|
  {
    if items != [] {
      match NextImport(items)
      case Err(e) =>
      case Ok((src, dest, used)) =>
        if src in from && IsExported(exports, src) {
          var into' := into[dest := from[src]];
          ImportMeaning(modName, into', from, exports, items[used..]);
          var r := Import(modName, into', from, exports, items[used..]);
          forall k | k in r.table
            ensures k in into || exists j :: 0 <= j < |items| && (items[j] == Name(k) || items[j] == Keyword(k))
          {
            if k !in into' {
              var j :| 0 <= j < |items[used..]| && (items[used..][j] == Name(k) || items[used..][j] == Keyword(k));
              assert items[used + j] == items[used..][j];
            } else if k == dest {
              assert items[0] == Name(k) || items[0] == Keyword(k);
            }
          }
          if ImportPairs(items[used..]).Ok? {
            var rest := ImportPairs(items[used..]).value;
            assert ImportPairs(items).value == [(src, dest)] + rest;
            assert ([(src, dest)] + rest)[1..] == rest;
          }
        }
    }
  }

  /** `import_all_values` and `import_all_macros`: every exported entry of the module's table. */
  function ImportAll<T>(into: map<Name, T>, from: map<Name, T>, exports: Option<set<Name>>): (r: map<Name, T>)
    ensures forall k :: k in r <==> k in into || (k in from && IsExported(exports, k))
    ensures forall k :: k in from && IsExported(exports, k) ==> r[k] == from[k]
    ensures forall k :: k in into && !(k in from && IsExported(exports, k)) ==> r[k] == into[k]
  {
    map k | k in into.Keys + from.Keys && (k in into || IsExported(exports, k)) ::
      if k in from && IsExported(exports, k) then from[k] else into[k]
  }
}
