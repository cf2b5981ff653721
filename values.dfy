/** The runtime values the compiler reads (parsed expressions) and writes (constants).
  Only the variants the compiler distinguishes are kept; value.rs is not part of this model. */
module Values {
  import opened Names
  import opened Wrappers
  import Bytecode

  /** Quote, quasiquote and comma counts are never zero. */
  type Pos = n: nat | n >= 1 witness 1

  datatype Value =
    | Unit
    | Bool(b: bool)
    | Float(bits: nat)               // the IEEE-754 bit pattern; no arithmetic is modelled
    | Integer(i: int)
    | Ratio(num: int, den: nat)
    | Char(c: char)
    | Str(s: string)
    | Name(name: Name)
    | Keyword(name: Name)
    | List(items: seq<Value>)
    | Quote(v: Value, n: Pos)
    | Quasiquote(v: Value, n: Pos)
    | Comma(v: Value, n: Pos)
    | CommaAt(v: Value, n: Pos)
    | StructDef(sname: Name, fields: map<Name, Name>)
    | Lambda(code: Code)

  /** A compiled code object: laid-out blocks (jump targets are code offsets), constants and
    the parameter description. */
  datatype Code = Code(
    name: Option<Name>,
    code: seq<Bytecode.CodeBlock>,
    consts: seq<Value>,
    kwParams: seq<Name>,
    nParams: nat,
    reqParams: nat,
    flags: Bytecode.CodeFlags)

  /** Bit patterns of the two float constants the compiler inlines. */
  const InfinityBits: nat := 0x7FF0_0000_0000_0000
  const NanBits: nat := 0x7FF8_0000_0000_0000

  /** The argument counts a function or operator accepts. */
  datatype Arity = Exact(n: nat) | Min(n: nat) | Range(lo: nat, hi: nat) {
    predicate Accepts(k: nat) {
      match this
      case Exact(n) => k == n
      case Min(n) => k >= n
      case Range(lo, hi) => lo <= k <= hi
    }
  }

  /** Lists are never empty (the empty list is `Unit`); this holds of every value the parser
    or the interpreter produces. */
  predicate WellFormed(v: Value) {
    if v.List? then |v.items| > 0 && forall k :: 0 <= k < |v.items| ==> WellFormed(v.items[k])
    else if v.Quote? || v.Quasiquote? || v.Comma? || v.CommaAt? then WellFormed(v.v)
    else true
  }

  predicate AllWellFormed(s: seq<Value>) {
    forall k :: 0 <= k < |s| ==> WellFormed(s[k])
  }

  /** Structural size, used to show that compilation of nested expressions terminates. */
  function Size(v: Value): (r: nat)
    ensures r >= 1
  {
    if v.List? then 1 + ListSize(v.items)
    else if v.Quote? || v.Quasiquote? || v.Comma? || v.CommaAt? then 1 + Size(v.v)
    else 1
  }

  function ListSize(s: seq<Value>): (r: nat)
    ensures r >= 1
  {
    if |s| == 0 then 1 else Size(s[0]) + ListSize(s[1..])
  }

  /** Every element of a list is smaller than the list. */
  lemma {:induction false} ElementSmaller(s: seq<Value>, k: nat)
    requires k < |s|
    ensures Size(s[k]) < ListSize(s)
  {
    if k > 0 {
      ElementSmaller(s[1..], k - 1);
    }
  }

  /** A suffix of a list is no larger than the list. */
  lemma {:induction false} SuffixSmaller(s: seq<Value>, k: nat)
    requires k <= |s|
    ensures ListSize(s[k..]) <= ListSize(s)
    ensures k > 0 ==> ListSize(s[k..]) < ListSize(s)
  {
    if k > 0 {
      SuffixSmaller(s[1..], k - 1);
      assert s[1..][k - 1..] == s[k..];
    }
  }

  /** An element of a list is smaller than the list, and well formed when the list is. */
  lemma ItemOf(v: Value, k: nat)
    requires v.List? && k < |v.items|
    ensures Size(v.items[k]) < Size(v)
    ensures WellFormed(v) ==> WellFormed(v.items[k])
  {
    ElementSmaller(v.items, k);
  }

  /** The first two elements of a list together are smaller than the list. */
  lemma PairSmaller(s: seq<Value>)
    requires |s| >= 2
    ensures Size(s[0]) + Size(s[1]) < ListSize(s)
  {
    assert s[1..][0] == s[1];
    assert ListSize(s[1..]) == Size(s[1]) + ListSize(s[1..][1..]);
  }

  /** `is_constant`: values that evaluate to themselves (after one level of unquoting). */
  predicate IsConstant(v: Value)
    ensures !IsConstant(v) <==>
      v.Name? || v.List? || v.Quasiquote? || v.Comma? || v.CommaAt? || v.StructDef? || v.Lambda?
  {
    v.Unit? || v.Bool? || v.Float? || v.Integer? || v.Ratio? || v.Keyword? ||
    v.Char? || v.Str? || v.Quote?
  }

  /** The value a constant stands for: a quote loses one level. */
  function Unquoted(v: Value): (r: Value)
    ensures !v.Quote? ==> r == v
    ensures v.Quote? ==> QuoteLevels(r) + 1 == QuoteLevels(v)
  {
    match v
    case Quote(x, n) => if n == 1 then x else Quote(x, n - 1)
    case _ => v
  }

  /** How many quote levels wrap a value. */
  function QuoteLevels(v: Value): nat {
    if v.Quote? then v.n + QuoteLevels(v.v) else 0
  }

  /** The value quoted once more: a quote of a quote counts its levels. */
  function QuoteOnce(v: Value): (r: Value)
    ensures r.Quote? && IsConstant(r) && Unquoted(r) == v && QuoteLevels(r) == QuoteLevels(v) + 1
  {
    if v.Quote? then Quote(v.v, v.n + 1) else Quote(v, 1)
  }

  /** `type_name` of a value, as reported in an invalid call expression. */
  function TypeName(v: Value): (r: string)
    ensures r == "object" <==> v.Quote? || v.Quasiquote? || v.Comma? || v.CommaAt?
  {
    match v
    case Unit => "unit"
    case Bool(_) => "bool"
    case Float(_) => "float"
    case Integer(_) => "integer"
    case Ratio(_, _) => "ratio"
    case Char(_) => "char"
    case Str(_) => "string"
    case Name(_) => "name"
    case Keyword(_) => "keyword"
    case List(_) => "list"
    case Quote(_, _) => "object"
    case Quasiquote(_, _) => "object"
    case Comma(_, _) => "object"
    case CommaAt(_, _) => "object"
    case StructDef(_, _) => "struct-def"
    case Lambda(_) => "lambda"
  }
}
