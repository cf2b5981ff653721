/** Interned names.
  A name is the integer the interpreter's name store handed out for a piece of text.
  The standard names are interned before any user code runs; their numbering belongs
  to name.rs, which is not part of this model, so the numbers below are the model's own.
  What the compiler relies on, and what is kept here, is that the fourteen system
  operators occupy one contiguous range of names, in the order of the operator table. */
module Names {

  type Name = nat

  /** First name of the system-operator range and its length. */
  const SystemOperatorsBegin: Name := 0
  const NumSystemOperators: nat := 14

  // System operators, in the order of the operator table.
  const ApplyName: Name := 0
  const DoName: Name := 1
  const LetName: Name := 2
  const DefineName: Name := 3
  const MacroName: Name := 4
  const StructName: Name := 5
  const IfName: Name := 6
  const AndName: Name := 7
  const OrName: Name := 8
  const CaseName: Name := 9
  const CondName: Name := 10
  const LambdaName: Name := 11
  const ExportName: Name := 12
  const UseName: Name := 13

  // Other standard names the compiler recognises.
  const ElseName: Name := 14
  const KeyName: Name := 15
  const OptionalName: Name := 16
  const RestName: Name := 17
  const AllName: Name := 18
  const ConcatName: Name := 19
  const NullName: Name := 20
  const EqName: Name := 21
  const NotEqName: Name := 22
  const NotName: Name := 23
  const InfName: Name := 24
  const NanName: Name := 25
  const AppendName: Name := 26
  const FirstName: Name := 27
  const TailName: Name := 28
  const InitName: Name := 29
  const LastName: Name := 30
  const ListName: Name := 31
  const IdName: Name := 32
  /** The placeholder name given to parameter slots before their real names are known. */
  const DummyName: Name := 33

  /** `is_system_operator`: the name lies in the system-operator range. */
  predicate IsSystemOperator(name: Name)
    ensures IsSystemOperator(name) <==>
      name in {ApplyName, DoName, LetName, DefineName, MacroName, StructName, IfName, AndName,
               OrName, CaseName, CondName, LambdaName, ExportName, UseName}
  {
    SystemOperatorsBegin <= name < SystemOperatorsBegin + NumSystemOperators
  }

  /** The names of a sequence of named entries (parameters, stack slots), in order. */
  function NamesOf<T>(ps: seq<(Name, T)>): (r: seq<Name>)
    ensures |r| == |ps| && forall k :: 0 <= k < |ps| ==> r[k] == ps[k].0
  {
    seq(|ps|, k requires 0 <= k < |ps| => ps[k].0)
  }
}
