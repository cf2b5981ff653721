/** The bytecode compiler of compile.rs.
  A `Compiler` compiles one expression or one lambda body: it writes instructions into basic
  blocks, pools the constants they refer to, tracks the named values on the stack and the
  running stack depth, and records which names of enclosing lambdas it captures. A nested
  lambda gets a compiler of its own that sees the enclosing ones as frames. */
module Compile {
  import opened Names
  import opened Wrappers
  import opened Values
  import opened Bytecode
  import opened Errors
  import opened Params
  import opened Scopes
  import opened Frames
  import Layout

  /** `MAX_MACRO_RECURSION`: how deeply macro expansions may nest. */
  const MaxMacroRecursion: nat := 100

  /** `execute_lambda` run on a macro: the expansion or the error it raised. Values the
    interpreter builds are well formed. */
  type MacroRunner = f: (Code, seq<Value>) -> Result<Value, Error> |
    forall c, a :: f(c, a).Ok? ==> WellFormed(f(c, a).value)
    witness (c: Code, a: seq<Value>) => Err(Exec(0))

  /** What the compiler consults outside compile.rs. */
  datatype Env = Env(
    sysFns: map<Name, Arity>,                     // `get_system_fn`: the system functions and their arities
    canDefine: Name -> bool,                      // `MasterScope::can_define`
    runMacro: MacroRunner,
    getModule: Name -> Result<ScopeView, Error>,  // the module registry reached from the scope
    enc: Layout.Encoding)                         // block sizes, for laying out the code

  /** The arities of the operator table, in its order. */
  const OperatorArities: seq<Arity> := [
    Min(2), Min(1), Exact(2), Exact(2), Exact(2), Exact(2), Range(2, 3),
    Min(1), Min(1), Min(2), Min(1), Exact(2), Exact(1), Min(2)]

  /** `get_system_operator(name).arity`. */
  function OperatorArity(name: Name): (r: Arity)
    requires IsSystemOperator(name)
    ensures !r.Accepts(0)
  {
    OperatorArities[name - SystemOperatorsBegin]
  }

  /** The stack slot of the innermost binding of `name`. */
  function LastSlot(stack: seq<(Name, nat)>, name: Name): Option<nat>
    decreases |stack|
  {
    if stack == [] then None
    else if stack[|stack| - 1].0 == name then Some(stack[|stack| - 1].1)
    else LastSlot(stack[..|stack| - 1], name)
  }

  /** The search finds the slot of the last entry with the name, and finds one exactly when
    the name is on the stack. */
  lemma {:induction false} LastSlotMeaning(stack: seq<(Name, nat)>, name: Name)
    ensures LastSlot(stack, name).Some? <==> name in NamesOf(stack)
    ensures LastSlot(stack, name).Some? ==>
      exists k :: 0 <= k < |stack| && stack[k] == (name, LastSlot(stack, name).value) &&
        forall j :: k < j < |stack| ==> stack[j].0 != name
    decreases |stack|
  {
    if stack != [] {
      var n := |stack| - 1;
      var init := stack[..n];
      LastSlotMeaning(init, name);
      assert forall k :: 0 <= k < n ==> init[k] == stack[k];
      if stack[n].0 != name {
        if name in NamesOf(stack) {
          var k :| 0 <= k < |stack| && NamesOf(stack)[k] == name;
          assert NamesOf(init)[k] == name;
        }
        if name in NamesOf(init) {
          var k :| 0 <= k < n && NamesOf(init)[k] == name;
          assert NamesOf(stack)[k] == name;
        }
      } else {
        assert NamesOf(stack)[n] == name;
      }
    }
  }

  /** `n` placeholder entries, one per parameter slot. */
  function Placeholders(n: nat): (r: seq<(Name, nat)>)
    ensures |r| == n && forall k :: 0 <= k < n ==> r[k] == (DummyName, k)
  {
    seq(n, k requires 0 <= k < n => (DummyName, k))
  }

  /** The values `compile_quasiquote_list` has on the stack after collecting `nItems` plain
    items and building `nLists` lists: every item is pushed, and every list but a first one
    still waiting in the value register. */
  function Pending(nItems: nat, nLists: nat): nat {
    nItems + nLists - (if nItems == 0 && nLists == 1 then 1 else 0)
  }

  /** `v` is a `let` binding `(name value)` of `name`. */
  predicate Binds(v: Value, name: Name) {
    v.List? && |v.items| == 2 && v.items[0] == Name(name)
  }

  /** The stack with slots `base` onwards named after the parameters `ps`, in order. */
  function Renamed(stack: seq<(Name, nat)>, base: nat, ps: seq<Param>): (r: seq<(Name, nat)>)
    requires base + |ps| <= |stack|
    ensures |r| == |stack|
    ensures forall k :: 0 <= k < |stack| ==>
      r[k] == if base <= k < base + |ps| then (ps[k - base].0, stack[k].1) else stack[k]
  {
    seq(|stack|, k requires 0 <= k < |stack| =>
      if base <= k < base + |ps| then (ps[k - base].0, stack[k].1) else stack[k])
  }

  /** Naming one more slot extends the renaming by one parameter. */
  lemma RenamedStep(stack: seq<(Name, nat)>, base: nat, ps: seq<Param>, i: nat)
    requires i < |ps| && base + |ps| <= |stack|
    ensures Renamed(stack, base, ps[..i])[base + i := (ps[i].0, stack[base + i].1)] == Renamed(stack, base, ps[..i + 1])
  {
    assert ps[..i + 1] == ps[..i] + [ps[i]];
  }

  class Compiler {
    const scope: GlobalScope
    const env: Env
    /** The compilers of the enclosing lambdas, innermost last. */
    const outer: seq<Frame>
    /** The name of the lambda being compiled, if it has one. */
    const selfName: Option<Name>

    var consts: seq<Value>
    var blocks: seq<CodeBlock>
    var curBlock: nat
    /** Named stack values and their slots. */
    var stack: seq<(Name, nat)>
    /** The number of values on the stack, named or not. */
    var stackOffset: nat
    /** The names of enclosing lambdas this lambda encloses, in first-use order. */
    var captures: seq<Name>
    var macroRecursion: nat

    /** The current block exists, every instruction and jump refers to an existing block,
      constant and captured value, and the captures are distinct names visible from here. */
    ghost predicate Valid()
      reads this`blocks, this`curBlock, this`consts, this`captures
    {
      && 0 < |blocks| && curBlock < |blocks|
      && BlocksOk(blocks, |consts|, |captures|)
      && Distinct(captures)
      && (forall k :: 0 <= k < |captures| ==> Visible(outer, captures[k]))
    }

    /** What a lambda nested here sees of this compiler. */
    function OwnFrame(): Frame
      reads this`stack
    {
      Frame(NamesOf(stack), selfName)
    }

    /** The constant pool, the blocks and the captures never shrink. */
    twostate predicate Grew()
      reads this`consts, this`blocks, this`captures
    {
      old(|consts|) <= |consts| && old(|blocks|) <= |blocks| && old(|captures|) <= |captures|
    }

    /** The stack is as it was: what was pushed was consumed. */
    twostate predicate Balanced()
      reads this`stack, this`stackOffset, this`macroRecursion
    {
      stack == old(stack) && stackOffset == old(stackOffset) && macroRecursion == old(macroRecursion)
    }

    /** `Compiler::with_outer`. */
    constructor (scope: GlobalScope, env: Env, outer: seq<Frame>, selfName: Option<Name>)
      ensures Valid()
      ensures this.scope == scope && this.env == env && this.outer == outer && this.selfName == selfName
      ensures consts == [] && blocks == [EmptyBlock] && curBlock == 0
      ensures stack == [] && stackOffset == 0 && captures == [] && macroRecursion == 0
    {
      this.scope := scope;
      this.env := env;
      this.outer := outer;
      this.selfName := selfName;
      consts := [];
      blocks := [EmptyBlock];
      curBlock := 0;
      stack := [];
      stackOffset := 0;
      captures := [];
      macroRecursion := 0;
    }

    /** `push_instruction`: writes `i` at the end of the current block and adjusts the stack
      depth by the instruction's effect. */
    method PushInstruction(i: Instruction)
      requires Valid() && InstrRefsOk(i, |consts|, |captures|)
      requires stackOffset + StackEffect(i) >= 0
      modifies this
      ensures Valid()
      ensures blocks == Appended(old(blocks), old(curBlock), i)
      ensures stackOffset == old(stackOffset) + StackEffect(i)
      ensures consts == old(consts) && captures == old(captures) && stack == old(stack)
      ensures curBlock == old(curBlock) && macroRecursion == old(macroRecursion)
    {
      AppendedOk(blocks, curBlock, i, |consts|, |captures|);
      stackOffset := stackOffset + StackEffect(i);
      blocks := Appended(blocks, curBlock, i);
    }

    /** `push_var`: names the slot the next `Push` fills. */
    method PushVar(name: Name)
      modifies this
      ensures stack == old(stack) + [(name, stackOffset)]
      ensures stackOffset == old(stackOffset) && consts == old(consts) && blocks == old(blocks)
      ensures curBlock == old(curBlock) && captures == old(captures) && macroRecursion == old(macroRecursion)
    {
      stack := stack + [(name, stackOffset)];
    }

    /** `pop_vars`: forgets the `n` innermost names. */
    method PopVars(n: nat)
      requires n <= |stack|
      modifies this
      ensures stack == old(stack)[..|old(stack)| - n]
      ensures stackOffset == old(stackOffset) && consts == old(consts) && blocks == old(blocks)
      ensures curBlock == old(curBlock) && captures == old(captures) && macroRecursion == old(macroRecursion)
    {
      stack := stack[..|stack| - n];
    }

    /** `new_block`: a new empty block, not yet current. */
    method NewBlock() returns (b: nat)
      requires Valid()
      modifies this
      ensures Valid()
      ensures blocks == old(blocks) + [EmptyBlock] && b == |old(blocks)|
      ensures stackOffset == old(stackOffset) && consts == old(consts) && stack == old(stack)
      ensures curBlock == old(curBlock) && captures == old(captures) && macroRecursion == old(macroRecursion)
    {
      NewBlockOk(blocks, |consts|, |captures|);
      b := |blocks|;
      blocks := blocks + [EmptyBlock];
    }

    /** `use_block`. */
    method UseBlock(b: nat)
      requires Valid() && b < |blocks|
      modifies this
      ensures Valid() && curBlock == b
      ensures stackOffset == old(stackOffset) && consts == old(consts) && stack == old(stack)
      ensures blocks == old(blocks) && captures == old(captures) && macroRecursion == old(macroRecursion)
    {
      curBlock := b;
    }

    /** `set_next` on the current block. */
    method SetNext(b: nat)
      requires Valid() && b < |blocks|
      modifies this
      ensures Valid()
      ensures blocks == old(blocks)[old(curBlock) := old(blocks[curBlock]).(next := Some(b))]
      ensures stackOffset == old(stackOffset) && consts == old(consts) && stack == old(stack)
      ensures curBlock == old(curBlock) && captures == old(captures) && macroRecursion == old(macroRecursion)
    {
      var nb := blocks[curBlock].(next := Some(b));
      RelinkOk(blocks, curBlock, nb, |consts|, |captures|);
      blocks := blocks[curBlock := nb];
    }

    /** `use_next`: the current block continues into `b`, which becomes current. */
    method UseNext(b: nat)
      requires Valid() && b < |blocks|
      modifies this
      ensures Valid() && curBlock == b
      ensures blocks == old(blocks)[old(curBlock) := old(blocks[curBlock]).(next := Some(b))]
      ensures stackOffset == old(stackOffset) && consts == old(consts) && stack == old(stack)
      ensures captures == old(captures) && macroRecursion == old(macroRecursion)
    {
      SetNext(b);
      curBlock := b;
    }

    /** `jump_to` on the current block: it ends with a jump of kind `kind` to block `b`. */
    method JumpTo(kind: JumpInstruction, b: nat)
      requires Valid() && b < |blocks| && (kind.JumpIfEqConst? ==> kind.c < |consts|)
      modifies this
      ensures Valid()
      ensures blocks == old(blocks)[old(curBlock) := old(blocks[curBlock]).(jump := Some(Bytecode.JumpTo(kind, b)))]
      ensures stackOffset == old(stackOffset) && consts == old(consts) && stack == old(stack)
      ensures curBlock == old(curBlock) && captures == old(captures) && macroRecursion == old(macroRecursion)
    {
      var nb := blocks[curBlock].(jump := Some(Bytecode.JumpTo(kind, b)));
      RelinkOk(blocks, curBlock, nb, |consts|, |captures|);
      blocks := blocks[curBlock := nb];
    }

    /** `add_const`: the index of the first pooled constant equal to `v`, which is pooled at the
      end if it is new. Pooled constants never change. */
    method AddConst(v: Value) returns (c: nat)
      requires Valid()
      modifies this
      ensures Valid()
      ensures c < |consts| && consts[c] == v
      ensures v in old(consts) ==> consts == old(consts) && forall k :: 0 <= k < c ==> consts[k] != v
      ensures v !in old(consts) ==> consts == old(consts) + [v] && c == |old(consts)|
      ensures stackOffset == old(stackOffset) && blocks == old(blocks) && stack == old(stack)
      ensures curBlock == old(curBlock) && captures == old(captures) && macroRecursion == old(macroRecursion)
    {
      var k := 0;
      while k < |consts|
        invariant k <= |consts| && forall j :: 0 <= j < k ==> consts[j] != v
      {
        if consts[k] == v {
          return k;
        }
        k := k + 1;
      }
      BlocksOkGrows(blocks, |consts|, |captures|, |consts| + 1, |captures|);
      c := |consts|;
      consts := consts + [v];
    }

    /** `add_const_value`: pools the value a constant expression stands for. */
    method AddConstValue(v: Value) returns (c: nat)
      requires Valid()
      modifies this
      ensures Valid() && Grew()
      ensures c < |consts| && consts[c] == Unquoted(v)
      ensures stackOffset == old(stackOffset) && blocks == old(blocks) && stack == old(stack)
      ensures curBlock == old(curBlock) && captures == old(captures) && macroRecursion == old(macroRecursion)
    {
      if v.Quote? && v.n == 1 {
        c := AddConst(v.v);
      } else if v.Quote? {
        c := AddConst(Value.Quote(v.v, v.n - 1));
      } else {
        c := AddConst(v);
      }
    }

    /** The slot of the innermost binding of `name` on the stack, searched from the top. */
    method FindOnStack(name: Name) returns (slot: Option<nat>)
      ensures slot == LastSlot(stack, name)
    {
      var k := |stack|;
      assert stack[..k] == stack;
      while k > 0
        invariant 0 <= k <= |stack| && LastSlot(stack, name) == LastSlot(stack[..k], name)
      {
        assert stack[..k][..k - 1] == stack[..k - 1];
        if stack[k - 1].0 == name {
          return Some(stack[k - 1].1);
        }
        k := k - 1;
      }
      slot := None;
    }

    /** The search of the enclosing compilers, innermost first, stopping at one whose own
      name `name` is (see Frames.Visible). */
    method SearchOuter(name: Name) returns (found: bool)
      ensures found == Visible(outer, name)
    {
      var k := |outer|;
      while k > 0
        invariant 0 <= k <= |outer| && Visible(outer, name) == VisibleWithin(outer, k, name)
      {
        var f := outer[k - 1];
        if name in f.names {
          return true;
        }
        if f.selfName == Some(name) {
          return false;
        }
        k := k - 1;
      }
      found := false;
    }

    /** `closure_value`: the closure index of `name`, capturing it on first use when an
      enclosing compiler has it. Captures stay distinct and the index of a new one is the
      old number of captures. */
    method ClosureValue(name: Name) returns (r: Option<nat>)
      requires Valid()
      modifies this
      ensures Valid() && Grew()
      ensures r.Some? <==> name in old(captures) || Visible(outer, name)
      ensures r.Some? ==> r.value < |captures| && captures[r.value] == name
      ensures name in old(captures) || !Visible(outer, name) ==> captures == old(captures)
      ensures name !in old(captures) && Visible(outer, name) ==>
        captures == old(captures) + [name] && r == Some(|old(captures)|)
      ensures stackOffset == old(stackOffset) && consts == old(consts) && stack == old(stack)
      ensures blocks == old(blocks) && curBlock == old(curBlock) && macroRecursion == old(macroRecursion)
    {
      var k := 0;
      while k < |captures|
        invariant k <= |captures| && forall j :: 0 <= j < k ==> captures[j] != name
      {
        if captures[k] == name {
          return Some(k);
        }
        k := k + 1;
      }
      var found := SearchOuter(name);
      if found {
        BlocksOkGrows(blocks, |consts|, |captures|, |consts|, |captures| + 1);
        DistinctSnoc(captures, name);
        r := Some(|captures|);
        captures := captures + [name];
      } else {
        r := None;
      }
    }

    /** `load_local_name`: loads the innermost stack binding of `name`; failing that, unless
      `name` is this lambda's own name, its closure value. Answers whether it loaded. */
    method LoadLocalName(name: Name) returns (loaded: bool)
      requires Valid()
      modifies this
      ensures Valid() && Grew()
      ensures loaded == Loads(old(OwnFrame()), old(captures), outer, name)
      ensures LastSlot(stack, name).Some? ==>
        blocks == Appended(old(blocks), old(curBlock), Load(LastSlot(stack, name).value)) && captures == old(captures)
      ensures LastSlot(stack, name).None? && loaded ==>
        exists k :: 0 <= k < |captures| && captures[k] == name && blocks == Appended(old(blocks), old(curBlock), LoadC(k))
      ensures !loaded ==> blocks == old(blocks) && captures == old(captures)
      ensures stackOffset == old(stackOffset) && consts == old(consts) && stack == old(stack)
      ensures curBlock == old(curBlock) && macroRecursion == old(macroRecursion)
    {
      LastSlotMeaning(stack, name);
      var slot := FindOnStack(name);
      if slot.Some? {
        PushInstruction(Load(slot.value));
        return true;
      }
      if selfName == Some(name) {
        return false;
      }
      var index := ClosureValue(name);
      if index.Some? {
        PushInstruction(LoadC(index.value));
        loaded := true;
      } else {
        loaded := false;
      }
    }

    /** `load_quoted_value`: unit and booleans have instructions of their own; anything else
      is loaded from the constant pool. */
    method LoadQuotedValue(v: Value)
      requires Valid()
      modifies this
      ensures Valid() && Grew() && Balanced()
      ensures v.Unit? ==> blocks == Appended(old(blocks), old(curBlock), Instruction.Unit) && consts == old(consts)
      ensures v == Bool(true) ==> blocks == Appended(old(blocks), old(curBlock), True) && consts == old(consts)
      ensures v == Bool(false) ==> blocks == Appended(old(blocks), old(curBlock), False) && consts == old(consts)
      ensures !v.Unit? && !v.Bool? ==>
        exists c :: 0 <= c < |consts| && consts[c] == v && blocks == Appended(old(blocks), old(curBlock), Const(c))
      ensures curBlock == old(curBlock) && captures == old(captures)
    {
      if v.Unit? {
        PushInstruction(Instruction.Unit);
      } else if v.Bool? {
        PushInstruction(if v.b then True else False);
      } else {
        var c := AddConst(v);
        PushInstruction(Const(c));
      }
    }

    /** `load_const_value`: a quoted value loses one level of quotation; the value it then
      stands for is loaded by the instruction of its own for unit and booleans, and otherwise
      from the constant pool. */
    method LoadConstValue(v: Value)
      requires Valid()
      modifies this
      ensures Valid() && Grew() && Balanced()
      ensures Unquoted(v).Unit? ==> blocks == Appended(old(blocks), old(curBlock), Instruction.Unit) && consts == old(consts)
      ensures Unquoted(v) == Bool(true) ==> blocks == Appended(old(blocks), old(curBlock), True) && consts == old(consts)
      ensures Unquoted(v) == Bool(false) ==> blocks == Appended(old(blocks), old(curBlock), False) && consts == old(consts)
      ensures !Unquoted(v).Unit? && !Unquoted(v).Bool? ==>
        exists c :: 0 <= c < |consts| && consts[c] == Unquoted(v) && blocks == Appended(old(blocks), old(curBlock), Const(c))
      ensures curBlock == old(curBlock) && captures == old(captures)
    {
      if v.Unit? {
        PushInstruction(Instruction.Unit);
      } else if v.Bool? {
        PushInstruction(if v.b then True else False);
      } else if v.Quote? && v.n == 1 {
        LoadQuotedValue(v.v);
      } else if v.Quote? {
        LoadQuotedValue(Value.Quote(v.v, v.n - 1));
      } else {
        var c := AddConst(v);
        PushInstruction(Const(c));
      }
    }

    /** `write_call_sys`: a system function of exact arity takes its `n` arguments off the
      stack without saying how many there are. */
    method WriteCallSys(name: Name, arity: Arity, n: nat)
      requires Valid() && arity.Accepts(n) && stackOffset >= n
      modifies this
      ensures Valid() && Grew()
      ensures stackOffset == old(stackOffset) - n
      ensures arity.Exact? ==> blocks == Appended(old(blocks), old(curBlock), CallSys(name))
      ensures !arity.Exact? ==> blocks == Appended(old(blocks), old(curBlock), CallSysArgs(name, n))
      ensures stack == old(stack) && curBlock == old(curBlock) && macroRecursion == old(macroRecursion)
    {
      match arity
      case Exact(k) =>
        stackOffset := stackOffset - k;
        PushInstruction(CallSys(name));
      case _ =>
        PushInstruction(CallSysArgs(name, n));
    }

    /** `load_lambda`: a lambda without captures is a constant; otherwise each captured value
      is loaded and pushed and a closure is built over them. Each load succeeds, as the source
      asserts, because every capture of a lambda nested here is visible through this compiler. */
    method LoadLambda(c: nat, caps: seq<Name>)
      requires Valid() && c < |consts|
      requires forall k :: 0 <= k < |caps| ==> Visible(outer + [OwnFrame()], caps[k])
      modifies this
      ensures Valid() && Grew() && Balanced()
    {
      if caps == [] {
        PushInstruction(Const(c));
      } else {
        var k := 0;
        while k < |caps|
          invariant k <= |caps| && Valid() && Grew()
          invariant stack == old(stack) && stackOffset == old(stackOffset) + k
          invariant macroRecursion == old(macroRecursion)
        {
          VisibleLoadable(outer, OwnFrame(), captures, caps[k]);
          var loaded := LoadLocalName(caps[k]);
          assert loaded;
          PushInstruction(Push);
          k := k + 1;
        }
        PushInstruction(BuildClosure(c, |caps|));
      }
    }

    /** `expand_macro`: runs the macro on the unevaluated arguments, unless expansions are
      already nested as deeply as allowed. */
    function ExpandMacro(name: Name, args: seq<Value>): (r: Result<Value, Error>)
      requires name in scope.macros
      reads this, scope
      ensures macroRecursion >= MaxMacroRecursion ==> r == Err(Compile(MacroRecursionExceeded))
      ensures macroRecursion < MaxMacroRecursion ==> r == env.runMacro(scope.macros[name], args)
      ensures r.Ok? ==> WellFormed(r.value)
    {
      if macroRecursion >= MaxMacroRecursion then Err(Compile(MacroRecursionExceeded))
      else env.runMacro(scope.macros[name], args)
    }

    /** `compile_value`: emits code that leaves the value of `v` in the value register and the
      stack as it found it. A comma outside any quasiquote is an error. */
    method CompileValue(v: Value, fuel: nat) returns (r: Outcome<Error>)
      requires Valid() && WellFormed(v)
      modifies this, scope
      ensures Valid() && Grew()
      ensures r.Pass? ==> Balanced()
      ensures v.Comma? || v.CommaAt? ==> r == Fail(Compile(UnbalancedComma))
      decreases fuel, Size(v), 4
    {
      if v.Name? {
        var loaded := LoadLocalName(v.name);
        if !loaded {
          var c := AddConst(v);
          PushInstruction(GetDef(c));
        }
        r := Pass;
      } else if v.List? {
        r := CompileCall(v.items, fuel);
      } else if v.Comma? || v.CommaAt? {
        r := Fail(Compile(UnbalancedComma));
      } else if v.Quasiquote? {
        // the whole value, at depth 0, so that nested quasiquotes are counted
        r := CompileQuasiquote(v, 0, fuel);
      } else {
        LoadConstValue(v);
        r := Pass;
      }
    }

    /** The list branch of `compile_value`: a call. The head is a local value, this lambda's own
      name, a macro, an operator, an inlined function, a nested expression or a global; the
      arguments are pushed and the call matching the head is emitted. A head that is neither a
      name nor a list is refused. */
    method CompileCall(li: seq<Value>, fuel: nat) returns (r: Outcome<Error>)
      requires Valid() && WellFormed(Value.List(li))
      modifies this, scope
      ensures Valid() && Grew()
      ensures r.Pass? ==> Balanced()
      ensures !li[0].Name? && !li[0].List? ==> r == Fail(Compile(InvalidCallExpression(TypeName(li[0]))))
      decreases fuel, Size(Value.List(li)), 3
    {
      var pushedFn, done;
      r, pushedFn, done := CallHead(li, fuel);
      if r.Fail? || done {
        return;
      }
      var args := li[1..];
      SuffixSmaller(li, 1);
      r := PushAll(args, |args|, fuel);
      if r.Fail? {
        return;
      }
      if pushedFn {
        PushInstruction(Call(|args|));
      } else {
        r := CallNamed(li[0].name, |args|);
      }
    }

    /** The head of a call. Answers whether it was pushed as a function value, and whether the
      whole call was compiled already (a macro, an operator or an inlined function). */
    method CallHead(li: seq<Value>, fuel: nat) returns (r: Outcome<Error>, pushedFn: bool, done: bool)
      requires Valid() && WellFormed(Value.List(li))
      modifies this, scope
      ensures Valid() && Grew()
      ensures r.Pass? && done ==> Balanced()
      ensures r.Pass? && !done ==>
        stack == old(stack) && macroRecursion == old(macroRecursion) &&
        stackOffset == old(stackOffset) + (if pushedFn then 1 else 0)
      ensures r.Pass? && !done && !pushedFn ==> li[0].Name?
      ensures !li[0].Name? && !li[0].List? ==> r == Fail(Compile(InvalidCallExpression(TypeName(li[0]))))
      decreases fuel, Size(Value.List(li)), 2
    {
      var fnV := li[0];
      var args := li[1..];
      SuffixSmaller(li, 1);
      pushedFn, done := false, false;
      match fnV {
        case Name(name) =>
          r, pushedFn, done := CallHeadName(name, args, fuel);
          return;
        case List(_) =>
          ElementSmaller(li, 0);
          r := CompileValue(fnV, fuel);
          if r.Fail? {
            return;
          }
          PushInstruction(Push);
          pushedFn := true;
        case _ =>
          return Fail(Compile(InvalidCallExpression(TypeName(fnV)))), false, true;
      }
      r := Pass;
    }

    /** A call whose head is a name: a local value is loaded and pushed; a call of this
      lambda itself waits for its arguments; a macro, an operator or an inlined system
      function compiles the whole call. */
    method CallHeadName(name: Name, args: seq<Value>, fuel: nat) returns (r: Outcome<Error>, pushedFn: bool, done: bool)
      requires Valid() && AllWellFormed(args)
      modifies this, scope
      ensures Valid() && Grew()
      ensures r.Pass? && done ==> Balanced()
      ensures r.Pass? && !done ==>
        stack == old(stack) && macroRecursion == old(macroRecursion) &&
        stackOffset == old(stackOffset) + (if pushedFn then 1 else 0)
      decreases fuel, ListSize(args), 3
    {
      pushedFn, done := false, false;
      var loaded := LoadLocalName(name);
      if loaded {
        PushInstruction(Push);
        pushedFn := true;
      } else if selfName == Some(name) {
        // a call of this lambda itself, emitted once the arguments are pushed
      } else if name in scope.macros {
        r := CompileMacroCall(name, args, fuel);
        return r, false, true;
      } else if IsSystemOperator(name) {
        r := CompileOperator(name, args, fuel);
        return r, false, true;
      } else {
        var inlined := InlineCall(name, args, fuel);
        if inlined.Err? {
          return Fail(inlined.error), false, true;
        }
        done := inlined.value;
      }
      r := Pass;
    }

    /** The end of a call whose head is a name not bound locally, its `n` arguments pushed: a
      call of this lambda itself, of a system function (refused when its arity does not accept
      `n` arguments), or of a global looked up by name. */
    method CallNamed(name: Name, n: nat) returns (r: Outcome<Error>)
      requires Valid() && stackOffset >= n
      modifies this
      ensures Valid() && Grew()
      ensures r.Pass? ==> stack == old(stack) && stackOffset == old(stackOffset) - n && macroRecursion == old(macroRecursion)
      ensures selfName == Some(name) ==> r.Pass? && blocks == Appended(old(blocks), old(curBlock), CallSelf(n))
      ensures selfName != Some(name) && name in env.sysFns && !env.sysFns[name].Accepts(n) ==>
        r == Fail(Compile(ArityError(name, env.sysFns[name], n)))
      ensures selfName != Some(name) && name !in env.sysFns ==>
        r.Pass? && (exists c :: 0 <= c < |consts| && consts[c] == Value.Name(name) &&
                               blocks == Appended(old(blocks), old(curBlock), CallConst(c, n)))
    {
      if selfName == Some(name) {
        PushInstruction(CallSelf(n));
      } else if name in env.sysFns {
        var arity := env.sysFns[name];
        if !arity.Accepts(n) {
          return Fail(Compile(ArityError(name, arity, n)));
        }
        WriteCallSys(name, arity, n);
      } else {
        var c := AddConst(Value.Name(name));
        PushInstruction(CallConst(c, n));
      }
      r := Pass;
    }

    /** The macro branch of `compile_value`: the expansion is compiled one level of macro
      nesting deeper. Each expansion also spends one unit of the model's fuel. */
    method CompileMacroCall(name: Name, args: seq<Value>, fuel: nat) returns (r: Outcome<Error>)
      requires Valid() && name in scope.macros && AllWellFormed(args)
      modifies this, scope
      ensures Valid() && Grew()
      ensures r.Pass? ==> Balanced()
      ensures old(macroRecursion) + 1 >= MaxMacroRecursion ==> r == Fail(Compile(MacroRecursionExceeded))
      decreases fuel, ListSize(args), 2
    {
      macroRecursion := macroRecursion + 1;
      var expanded := ExpandMacro(name, args);
      if expanded.Err? {
        return Fail(expanded.error);
      }
      if fuel == 0 {
        return Fail(OutOfFuel);
      }
      r := CompileValue(expanded.value, fuel - 1);
      if r.Fail? {
        return;
      }
      macroRecursion := macroRecursion - 1;
    }

    /** `compile_operator`: an operator called with an argument count its arity refuses fails
      before anything is emitted; otherwise the operator's own compilation runs. */
    method CompileOperator(name: Name, args: seq<Value>, fuel: nat) returns (r: Outcome<Error>)
      requires Valid() && IsSystemOperator(name) && AllWellFormed(args)
      modifies this, scope
      ensures Valid() && Grew()
      ensures r.Pass? ==> Balanced()
      ensures !OperatorArity(name).Accepts(|args|) ==>
        r == Fail(Compile(ArityError(name, OperatorArity(name), |args|))) && unchanged(this) && unchanged(scope)
      decreases fuel, ListSize(args), 2
    {
      var arity := OperatorArity(name);
      if !arity.Accepts(|args|) {
        return Fail(Compile(ArityError(name, arity, |args|)));
      }
      if name == ApplyName {
        r := OpApply(args, fuel);
      } else if name == DoName {
        r := OpDo(args, fuel);
      } else if name == LetName {
        r := OpLet(args, fuel);
      } else if name == DefineName {
        r := OpDefine(args, fuel);
      } else if name == MacroName {
        r := OpMacro(args, fuel);
      } else if name == StructName {
        r := OpStruct(args);
      } else if name == IfName {
        r := OpIf(args, fuel);
      } else if name == AndName {
        r := ShortCircuit(args, JumpIfNot, fuel);
      } else if name == OrName {
        r := ShortCircuit(args, JumpIf, fuel);
      } else if name == CaseName {
        r := OpCase(args, fuel);
      } else if name == CondName {
        r := OpCond(args, fuel);
      } else if name == LambdaName {
        r := OpLambda(args, fuel);
      } else if name == ExportName {
        r := OpExport(args);
      } else {
        r := OpUse(args);
      }
    }

    /** `compile_quasiquote`: inside `depth` quasiquotes, a comma of the same depth is evaluated,
      a deeper comma is unbalanced, a `,@` of the same depth outside a list is invalid, and
      everything else is rebuilt as data. */
    method CompileQuasiquote(v: Value, depth: nat, fuel: nat) returns (r: Outcome<Error>)
      requires Valid() && WellFormed(v)
      modifies this, scope
      ensures Valid() && Grew()
      ensures r.Pass? ==> Balanced()
      ensures v.Comma? && v.n > depth ==> r == Fail(Compile(UnbalancedComma))
      ensures v.CommaAt? && v.n > depth ==> r == Fail(Compile(UnbalancedComma))
      ensures v.CommaAt? && v.n == depth ==> r == Fail(Compile(InvalidCommaAt))
      decreases fuel, Size(v), 3
    {
      if v.Comma? && v.n == depth {
        r := CompileValue(v.v, fuel);
      } else if (v.Comma? || v.CommaAt?) && v.n > depth {
        r := Fail(Compile(UnbalancedComma));
      } else if v.CommaAt? && v.n == depth {
        r := Fail(Compile(InvalidCommaAt));
      } else if v.List? {
        r := CompileQuasiquoteList(v.items, depth, fuel);
      } else if v.Comma? || v.Quote? || v.Quasiquote? {
        r := QuasiquoteNested(v, depth, fuel);
      } else {
        // a deeper `,@` included: it is data at this depth
        LoadQuotedValue(v);
        r := Pass;
      }
    }

    /** The quoting forms inside a quasiquote: a shallower comma, a quote and a nested
      quasiquote are rebuilt around their quasiquoted contents (see `Rewrap`). */
    method QuasiquoteNested(v: Value, depth: nat, fuel: nat) returns (r: Outcome<Error>)
      requires Valid() && WellFormed(v)
      requires (v.Comma? && v.n < depth) || v.Quote? || v.Quasiquote?
      modifies this, scope
      ensures Valid() && Grew()
      ensures r.Pass? ==> Balanced()
      decreases fuel, Size(v), 2
    {
      var inner := if v.Comma? then depth - v.n else if v.Quote? then depth else depth + v.n;
      var wrap := Rewrap(v, depth);
      r := CompileQuasiquote(v.v, inner, fuel);
      if r.Pass? && wrap.Some? {
        PushInstruction(wrap.value);
      }
    }

    /** `compile_quasiquote_list`: runs of plain items are collected into lists, each `,@` of
      the current depth contributes its value as a list, and more than one such list is
      concatenated. The count of values pushed is kept exact throughout, so the stack ends as
      it began. */
    method CompileQuasiquoteList(li: seq<Value>, depth: nat, fuel: nat) returns (r: Outcome<Error>)
      requires Valid() && AllWellFormed(li)
      modifies this, scope
      ensures Valid() && Grew()
      ensures r.Pass? ==> Balanced()
      decreases fuel, ListSize(li), 3
    {
      var nItems: nat := 0;
      var nLists: nat := 0;
      var k := 0;
      while k < |li|
        invariant k <= |li| && Valid() && Grew()
        invariant stack == old(stack) && macroRecursion == old(macroRecursion)
        invariant stackOffset == old(stackOffset) + Pending(nItems, nLists)
      {
        ElementSmaller(li, k);
        r, nItems, nLists := QuasiquoteItem(li[k], depth, nItems, nLists, fuel);
        if r.Fail? {
          return;
        }
        k := k + 1;
      }
      if nItems != 0 {
        PushInstruction(Instruction.List(nItems));
        if nLists != 0 {
          PushInstruction(Push);
          nLists := nLists + 1;
        }
      }
      if nLists > 1 {
        PushInstruction(CallSysArgs(ConcatName, nLists));
      }
      r := Pass;
    }

    /** One element of `compile_quasiquote_list`, given the number of plain items collected
      so far and the number of lists built so far. The values on the stack are counted by
      Pending before and after. */
    method QuasiquoteItem(v: Value, depth: nat, nItems: nat, nLists: nat, fuel: nat)
      returns (r: Outcome<Error>, nItems': nat, nLists': nat)
      requires Valid() && WellFormed(v) && stackOffset >= Pending(nItems, nLists)
      modifies this, scope
      ensures Valid() && Grew()
      ensures r.Pass? ==>
        && stack == old(stack) && macroRecursion == old(macroRecursion)
        && stackOffset - Pending(nItems', nLists') == old(stackOffset) - Pending(nItems, nLists)
      ensures v.CommaAt? && v.n > depth ==> r == Fail(Compile(UnbalancedComma))
      ensures r.Pass? && v.CommaAt? && v.n == depth ==> nItems' == 0 && nLists' == nLists + (if nItems != 0 then 2 else 1)
      ensures r.Pass? && !(v.CommaAt? && v.n == depth) ==> nItems' == nItems + 1 && nLists' == nLists
      decreases fuel, Size(v), 5
    {
      nItems', nLists' := nItems, nLists;
      if nItems == 0 && nLists == 1 {
        // the first list, left in the value register, goes onto the stack
        PushInstruction(Push);
      }
      if v.CommaAt? && v.n == depth {
        r, nLists' := Splice(v.v, nItems, nLists, fuel);
        nItems' := 0;
        return;
      }
      if v.CommaAt? && v.n > depth {
        return Fail(Compile(UnbalancedComma)), nItems', nLists';
      }
      nItems' := nItems' + 1;
      r := QuasiquotePlain(v, depth, fuel);
    }

    /** One plain item of a quasiquoted list, pushed for the list being collected; a deeper
      `,@` is rebuilt around its contents. */
    method QuasiquotePlain(v: Value, depth: nat, fuel: nat) returns (r: Outcome<Error>)
      requires Valid() && WellFormed(v) && !(v.CommaAt? && v.n >= depth)
      modifies this, scope
      ensures Valid() && Grew()
      ensures r.Pass? ==>
        && stack == old(stack) && macroRecursion == old(macroRecursion)
        && stackOffset == old(stackOffset) + 1
      decreases fuel, Size(v), 4
    {
      if v.CommaAt? {
        r := CompileQuasiquote(v.v, depth - v.n, fuel);
        if r.Pass? {
          PushInstruction(Instruction.CommaAt(depth - v.n));
        }
      } else {
        r := CompileQuasiquote(v, depth, fuel);
      }
      if r.Pass? {
        PushInstruction(Push);
      }
    }

    /** A `,@` of the current depth in `compile_quasiquote_list`: the plain items collected so
      far become a list of their own, and the spliced value is the next list. */
    method Splice(x: Value, nItems: nat, nLists: nat, fuel: nat) returns (r: Outcome<Error>, nLists': nat)
      requires Valid() && WellFormed(x)
      requires stackOffset >= Pending(nItems, nLists) + (if nItems == 0 && nLists == 1 then 1 else 0)
      modifies this, scope
      ensures Valid() && Grew()
      ensures r.Pass? ==>
        && stack == old(stack) && macroRecursion == old(macroRecursion)
        && nLists' == nLists + (if nItems != 0 then 2 else 1)
        && stackOffset - Pending(0, nLists') ==
             old(stackOffset) - Pending(nItems, nLists) - (if nItems == 0 && nLists == 1 then 1 else 0)
      decreases fuel, Size(x), 5
    {
      nLists' := nLists;
      if nItems != 0 {
        PushInstruction(Instruction.List(nItems));
        PushInstruction(Push);
        nLists' := nLists' + 1;
      }
      r := CompileValue(x, fuel);
      if r.Fail? {
        return;
      }
      if nLists' != 0 {
        PushInstruction(Push);
      }
      nLists' := nLists' + 1;
    }

    /** `inline_call`: the standard functions compiled to instructions of their own. Answers
      false, having emitted nothing, for any other name or argument count. */
    method InlineCall(name: Name, args: seq<Value>, fuel: nat) returns (r: Result<bool, Error>)
      requires Valid() && AllWellFormed(args)
      modifies this, scope
      ensures Valid() && Grew()
      ensures r == Ok(true) ==> Balanced()
      ensures !Inlines(name, |args|) ==> r == Ok(false) && unchanged(this) && unchanged(scope)
      ensures Inlines(name, |args|) ==> r != Ok(false)
      decreases fuel, ListSize(args), 2
    {
      var o: Outcome<Error>;
      var unary := UnaryInstruction(name);
      if unary.Some? && |args| == 1 {
        o := CompileUnary(args, unary.value, fuel);
      } else if name == EqName && |args| == 2 {
        o := CompileEquality(args, false, fuel);
      } else if name == NotEqName && |args| == 2 {
        o := CompileEquality(args, true, fuel);
      } else if name == InfName && |args| == 0 {
        LoadConstValue(Float(InfinityBits));
        o := Pass;
      } else if name == NanName && |args| == 0 {
        LoadConstValue(Float(NanBits));
        o := Pass;
      } else if name == AppendName && |args| == 2 {
        o := CompileAppend(args, fuel);
      } else if name == ListName {
        o := CompileList(args, fuel);
      } else if name == IdName && |args| == 1 {
        ElementSmaller(args, 0);
        o := CompileValue(args[0], fuel);
      } else {
        return Ok(false);
      }
      if o.Fail? {
        return Err(o.error);
      }
      r := Ok(true);
    }

    /** Inlined `append` of two lists: the first pushed, the second evaluated, then `Append`,
      which consumes the pushed operand. */
    method CompileAppend(args: seq<Value>, fuel: nat) returns (r: Outcome<Error>)
      requires Valid() && |args| == 2 && AllWellFormed(args)
      modifies this, scope
      ensures Valid() && Grew()
      ensures r.Pass? ==> Balanced()
      decreases fuel, ListSize(args), 1
    {
      r := CompileBinary(args, Append, fuel);
    }

    /** The two operands of an inlined binary operator: the first evaluated and pushed, the
      second evaluated, then `op`, which consumes the pushed operand. */
    method CompileBinary(args: seq<Value>, op: Instruction, fuel: nat) returns (r: Outcome<Error>)
      requires Valid() && |args| == 2 && AllWellFormed(args) && op in {Append, Eq, NotEq}
      modifies this, scope
      ensures Valid() && Grew()
      ensures r.Pass? ==> Balanced()
      decreases fuel, ListSize(args), 0
    {
      ElementSmaller(args, 0);
      ElementSmaller(args, 1);
      r := CompileValue(args[0], fuel);
      if r.Fail? {
        return;
      }
      PushInstruction(Push);
      r := CompileOperand(args[1], op, fuel);
    }

    /** The second operand, then `op` consuming the first. */
    method CompileOperand(v: Value, op: Instruction, fuel: nat) returns (r: Outcome<Error>)
      requires Valid() && WellFormed(v) && op in {Append, Eq, NotEq} && stackOffset >= 1
      modifies this, scope
      ensures Valid() && Grew()
      ensures r.Pass? ==>
        stack == old(stack) && stackOffset == old(stackOffset) - 1 && macroRecursion == old(macroRecursion)
      decreases fuel, Size(v), 5
    {
      r := CompileValue(v, fuel);
      if r.Pass? {
        PushInstruction(op);
      }
    }

    /** Inlined `list`: unit for no arguments, otherwise every argument pushed and `List`
      collecting them. */
    method CompileList(args: seq<Value>, fuel: nat) returns (r: Outcome<Error>)
      requires Valid() && AllWellFormed(args)
      modifies this, scope
      ensures Valid() && Grew()
      ensures r.Pass? ==> Balanced()
      decreases fuel, ListSize(args), 1
    {
      if args == [] {
        PushInstruction(Instruction.Unit);
        r := Pass;
      } else {
        r := PushAll(args, |args|, fuel);
        if r.Pass? {
          PushInstruction(Instruction.List(|args|));
        }
      }
    }

    /** The one-argument inlined functions: the argument, then the instruction. */
    method CompileUnary(args: seq<Value>, i: Instruction, fuel: nat) returns (r: Outcome<Error>)
      requires Valid() && |args| == 1 && AllWellFormed(args)
      requires StackEffect(i) == 0 && InstrRefsOk(i, 0, 0)
      modifies this, scope
      ensures Valid() && Grew()
      ensures r.Pass? ==> Balanced()
      decreases fuel, ListSize(args), 0
    {
      ElementSmaller(args, 0);
      r := CompileValue(args[0], fuel);
      if r.Pass? {
        PushInstruction(i);
      }
    }

    /** Inlined `=` and `/=`: a constant operand is compared from the constant pool, otherwise
      both operands are evaluated and compared. */
    method CompileEquality(args: seq<Value>, negate: bool, fuel: nat) returns (r: Outcome<Error>)
      requires Valid() && |args| == 2 && AllWellFormed(args)
      modifies this, scope
      ensures Valid() && Grew()
      ensures r.Pass? ==> Balanced()
      decreases fuel, ListSize(args), 1
    {
      var lhs := args[0];
      var rhs := args[1];
      ElementSmaller(args, 0);
      ElementSmaller(args, 1);
      if IsConstant(rhs) {
        r := CompareWithConst(lhs, rhs, false, negate, fuel);
      } else if IsConstant(lhs) {
        r := CompareWithConst(rhs, lhs, true, negate, fuel);
      } else {
        r := CompileBinary(args, if negate then NotEq else Eq, fuel);
      }
    }

    /** `x` compared with the constant expression `k`, pooled before or after `x` is compiled. */
    method CompareWithConst(x: Value, k: Value, constFirst: bool, negate: bool, fuel: nat) returns (r: Outcome<Error>)
      requires Valid() && WellFormed(x)
      modifies this, scope
      ensures Valid() && Grew()
      ensures r.Pass? ==> Balanced()
      decreases fuel, Size(x), 5
    {
      var c: nat;
      if constFirst {
        c := AddConstValue(k);
        r := CompileValue(x, fuel);
      } else {
        r := CompileValue(x, fuel);
        if r.Fail? {
          return;
        }
        c := AddConstValue(k);
      }
      if r.Fail? {
        return;
      }
      PushInstruction(if negate then NotEqConst(c) else EqConst(c));
    }

    /** Evaluates each of the first `n` values and pushes it: the stack grows by one per value. */
    method PushAll(args: seq<Value>, n: nat, fuel: nat) returns (r: Outcome<Error>)
      requires Valid() && AllWellFormed(args) && n <= |args|
      modifies this, scope
      ensures Valid() && Grew()
      ensures r.Pass? ==>
        stack == old(stack) && stackOffset == old(stackOffset) + n && macroRecursion == old(macroRecursion)
      decreases fuel, ListSize(args), 0
    {
      var k := 0;
      while k < n
        invariant k <= n && Valid() && Grew()
        invariant stack == old(stack) && stackOffset == old(stackOffset) + k && macroRecursion == old(macroRecursion)
      {
        ElementSmaller(args, k);
        r := CompileValue(args[k], fuel);
        if r.Fail? {
          return;
        }
        PushInstruction(Push);
        k := k + 1;
      }
      r := Pass;
    }

    /** `op_apply`: every argument but the last is pushed; the last is the list of the rest. */
    method OpApply(args: seq<Value>, fuel: nat) returns (r: Outcome<Error>)
      requires Valid() && |args| >= 2 && AllWellFormed(args)
      modifies this, scope
      ensures Valid() && Grew()
      ensures r.Pass? ==> Balanced()
      decreases fuel, ListSize(args), 1
    {
      var last := |args| - 1;
      r := PushAll(args, last, fuel);
      if r.Fail? {
        return;
      }
      ElementSmaller(args, last);
      r := CompileValue(args[last], fuel);
      if r.Fail? {
        return;
      }
      PushInstruction(Apply(last - 1));
    }

    /** `op_do`: each expression in turn; the value is the last one's. */
    method OpDo(args: seq<Value>, fuel: nat) returns (r: Outcome<Error>)
      requires Valid() && AllWellFormed(args)
      modifies this, scope
      ensures Valid() && Grew()
      ensures r.Pass? ==> Balanced()
      decreases fuel, ListSize(args), 1
    {
      var k := 0;
      while k < |args|
        invariant k <= |args| && Valid() && Grew() && Balanced()
      {
        ElementSmaller(args, k);
        r := CompileValue(args[k], fuel);
        if r.Fail? {
          return;
        }
        k := k + 1;
      }
      r := Pass;
    }

    /** `op_let`: each binding's value is pushed under its name; the body follows, in a new block
      the bindings are skipped, and the names are forgotten. */
    method OpLet(args: seq<Value>, fuel: nat) returns (r: Outcome<Error>)
      requires Valid() && |args| == 2 && AllWellFormed(args)
      modifies this, scope
      ensures Valid() && Grew()
      ensures r.Pass? ==> Balanced()
      ensures !args[0].Unit? && !args[0].List? ==> r == Fail(Syntax("expected list"))
      decreases fuel, ListSize(args), 1
    {
      var nVars := 0;
      ElementSmaller(args, 0);
      if args[0].List? {
        nVars := |args[0].items|;
        r := BindAll(args[0].items, fuel);
        if r.Fail? {
          return;
        }
      } else if !args[0].Unit? {
        return Fail(Syntax("expected list"));
      }
      ElementSmaller(args, 1);
      r := LetBody(args[1], nVars, fuel);
    }

    /** The body of `op_let` with `nVars` bindings on the stack: its value is computed, then in
      a new block the bindings are skipped and their names forgotten. */
    method LetBody(body: Value, nVars: nat, fuel: nat) returns (r: Outcome<Error>)
      requires Valid() && WellFormed(body) && nVars <= |stack| && nVars <= stackOffset
      modifies this, scope
      ensures Valid() && Grew()
      ensures r.Pass? ==>
        && stack == old(stack)[..|old(stack)| - nVars] && stackOffset == old(stackOffset) - nVars
        && macroRecursion == old(macroRecursion)
      decreases fuel, Size(body), 5
    {
      r := CompileValue(body, fuel);
      if r.Fail? {
        return;
      }
      var next := NewBlock();
      UseNext(next);
      PushInstruction(Skip(nVars));
      PopVars(nVars);
    }

    /** The bindings of `op_let`: each must be a `(name value)` pair; its value is pushed into the
      next stack slot, which then carries the name. */
    method BindAll(li: seq<Value>, fuel: nat) returns (r: Outcome<Error>)
      requires Valid() && AllWellFormed(li)
      modifies this, scope
      ensures Valid() && Grew()
      ensures r.Pass? ==>
        && |stack| == |old(stack)| + |li| && stack[..|old(stack)|] == old(stack)
        && stackOffset == old(stackOffset) + |li| && macroRecursion == old(macroRecursion)
        && forall k :: 0 <= k < |li| ==> Binds(li[k], stack[|old(stack)| + k].0) && stack[|old(stack)| + k].1 == old(stackOffset) + k
      decreases fuel, ListSize(li), 0
    {
      var k := 0;
      while k < |li|
        invariant k <= |li| && Valid() && Grew()
        invariant |stack| == |old(stack)| + k && stack[..|old(stack)|] == old(stack)
        invariant stackOffset == old(stackOffset) + k && macroRecursion == old(macroRecursion)
        invariant forall j :: 0 <= j < k ==> Binds(li[j], stack[|old(stack)| + j].0) && stack[|old(stack)| + j].1 == old(stackOffset) + j
      {
        ElementSmaller(li, k);
        r := BindOne(li[k], fuel);
        if r.Fail? {
          return;
        }
        k := k + 1;
      }
      r := Pass;
    }

    /** One binding of `op_let`: its value, pushed into the next slot, which takes its name. */
    method BindOne(binding: Value, fuel: nat) returns (r: Outcome<Error>)
      requires Valid() && WellFormed(binding)
      modifies this, scope
      ensures Valid() && Grew()
      ensures r.Pass? ==>
        && |stack| == |old(stack)| + 1 && stack[..|old(stack)|] == old(stack)
        && Binds(binding, stack[|old(stack)|].0) && stack[|old(stack)|].1 == old(stackOffset)
        && stackOffset == old(stackOffset) + 1 && macroRecursion == old(macroRecursion)
      ensures !(binding.List? && |binding.items| == 2) ==> r == Fail(Syntax("expected list of 2 elements"))
      decreases fuel, Size(binding), 5
    {
      if !(binding.List? && |binding.items| == 2) {
        return Fail(Syntax("expected list of 2 elements"));
      }
      var name := GetName(binding.items[0]);
      if name.Err? {
        return Fail(Compile(name.error));
      }
      ItemOf(binding, 1);
      r := CompileValue(binding.items[1], fuel);
      if r.Fail? {
        return;
      }
      PushVar(name.value);
      PushInstruction(Push);
    }

    /** `op_define`: `(define name value)` stores a value, `(define (name params...) body)` a
      function, under a name that may be defined. */
    method OpDefine(args: seq<Value>, fuel: nat) returns (r: Outcome<Error>)
      requires Valid() && |args| == 2 && AllWellFormed(args)
      modifies this, scope
      ensures Valid() && Grew()
      ensures r.Pass? ==> Balanced()
      ensures args[0].Name? && !env.canDefine(args[0].name) ==> r == Fail(Compile(CannotDefine(args[0].name)))
      decreases fuel, ListSize(args), 1
    {
      PairSmaller(args);
      if args[0].Name? {
        var name := args[0].name;
        if !env.canDefine(name) {
          return Fail(Compile(CannotDefine(name)));
        }
        r := CompileValue(args[1], fuel);
        if r.Fail? {
          return;
        }
        var c := AddConst(args[0]);
        PushInstruction(SetDef(c));
      } else if args[0].List? {
        r := DefineFunction(args[0].items, args[1], fuel);
        return;
      } else {
        return Fail(Syntax("expected name or list"));
      }
      r := Pass;
    }

    /** The function form of `op_define`, `(define (name params...) body)`: the lambda is
      compiled and stored under its name. */
    method DefineFunction(li: seq<Value>, body: Value, fuel: nat) returns (r: Outcome<Error>)
      requires Valid() && WellFormed(Value.List(li)) && WellFormed(body)
      modifies this, scope
      ensures Valid() && Grew()
      ensures r.Pass? ==> Balanced()
      ensures li[0].Name? && !env.canDefine(li[0].name) ==> r == Fail(Compile(CannotDefine(li[0].name)))
      decreases fuel, ListSize(li) + Size(body), 3
    {
      var name := GetName(li[0]);
      if name.Err? {
        return Fail(Compile(name.error));
      }
      if !env.canDefine(name.value) {
        return Fail(Compile(CannotDefine(name.value)));
      }
      var c := AddConst(Value.Name(name.value));
      SuffixSmaller(li, 1);
      r := LoadNewLambda(Some(name.value), li[1..], body, fuel);
      if r.Pass? {
        PushInstruction(SetDef(c));
      }
    }

    /** `op_macro`: `(macro (name params...) body)` compiles a lambda that encloses nothing and
      adds it to the scope's macros. */
    method OpMacro(args: seq<Value>, fuel: nat) returns (r: Outcome<Error>)
      requires Valid() && |args| == 2 && AllWellFormed(args)
      modifies this, scope
      ensures Valid() && Grew()
      ensures r.Pass? ==> Balanced()
      ensures r.Pass? ==> args[0].List? && args[0].items[0].Name? && args[0].items[0].name in scope.macros
      ensures !args[0].List? ==> r == Fail(Syntax("expected list"))
      decreases fuel, ListSize(args), 1
    {
      if !args[0].List? {
        return Fail(Syntax("expected list"));
      }
      var li := args[0].items;
      var name := GetName(li[0]);
      if name.Err? {
        return Fail(Compile(name.error));
      }
      if !env.canDefine(name.value) {
        return Fail(Compile(CannotDefine(name.value)));
      }
      PairSmaller(args);
      SuffixSmaller(li, 1);
      r := AddMacro(name.value, li[1..], args[1], fuel);
      if r.Fail? {
        return;
      }
      var c := AddConst(Value.Name(name.value));
      PushInstruction(Const(c));
    }

    /** The macro lambda of `op_macro`, added to the scope's macros; refused when it would
      enclose values. */
    method AddMacro(name: Name, params: seq<Value>, body: Value, fuel: nat) returns (r: Outcome<Error>)
      requires Valid() && AllWellFormed(params) && WellFormed(body)
      modifies scope
      ensures r.Pass? ==> name in scope.macros
      decreases fuel, ListSize(params) + Size(body), 2
    {
      var made := MakeLambda(Some(name), params, body, fuel);
      if made.Err? {
        return Fail(made.error);
      }
      if made.value.1 != [] {
        return Fail(Syntax("macro lambda cannot enclose values"));
      }
      scope.macros := scope.macros[name := made.value.0];
      r := Pass;
    }

    /** `op_struct`: `(struct Name ((field type)...))` stores a struct definition. */
    method OpStruct(args: seq<Value>) returns (r: Outcome<Error>)
      requires Valid() && |args| == 2
      modifies this
      ensures Valid() && Grew()
      ensures r.Pass? ==> Balanced()
      ensures r.Pass? ==>
        args[0].Name? && StructSpec(args[1]).Ok? && StructDef(args[0].name, StructSpec(args[1]).value) in consts
    {
      var name := GetName(args[0]);
      if name.Err? {
        return Fail(Compile(name.error));
      }
      if !env.canDefine(name.value) {
        return Fail(Compile(CannotDefine(name.value)));
      }
      var read := ReadStructSpec(args[1]);
      if read.Err? {
        return Fail(Compile(read.error));
      }
      var fields := read.value;
      var nameC := AddConst(Value.Name(name.value));
      var c := AddConst(StructDef(name.value, fields));
      PushInstruction(Const(c));
      PushInstruction(SetDef(nameC));
      r := Pass;
    }

    /** `op_if`: the condition, a jump to the else block when it is false, the then block
      jumping past the else block, and the else block (unit when absent). */
    method OpIf(args: seq<Value>, fuel: nat) returns (r: Outcome<Error>)
      requires Valid() && 2 <= |args| <= 3 && AllWellFormed(args)
      modifies this, scope
      ensures Valid() && Grew()
      ensures r.Pass? ==> Balanced()
      decreases fuel, ListSize(args), 1
    {
      var thenB := NewBlock();
      var elseB := NewBlock();
      var finalB := NewBlock();
      ElementSmaller(args, 0);
      r := CompileValue(args[0], fuel);
      if r.Fail? {
        return;
      }
      JumpTo(JumpIfNot, elseB);
      UseNext(thenB);
      r := IfBranches(args, elseB, finalB, fuel);
    }

    /** The then block of `op_if`, compiled in the current block and jumping to `finalB`, then
      the else block `elseB` falling through to `finalB`. */
    method IfBranches(args: seq<Value>, elseB: nat, finalB: nat, fuel: nat) returns (r: Outcome<Error>)
      requires Valid() && 2 <= |args| <= 3 && AllWellFormed(args) && elseB < |blocks| && finalB < |blocks|
      modifies this, scope
      ensures Valid() && Grew()
      ensures r.Pass? ==> Balanced()
      decreases fuel, ListSize(args), 0
    {
      ElementSmaller(args, 1);
      r := CompileValue(args[1], fuel);
      if r.Fail? {
        return;
      }
      JumpTo(Jump, finalB);
      UseNext(elseB);
      if |args| == 3 {
        ElementSmaller(args, 2);
        r := CompileElse(Some(args[2]), fuel);
      } else {
        r := CompileElse(None, fuel);
      }
      if r.Fail? {
        return;
      }
      UseNext(finalB);
    }

    /** The else expression of `op_if`, or unit when there is none. */
    method CompileElse(e: Option<Value>, fuel: nat) returns (r: Outcome<Error>)
      requires Valid() && (e.Some? ==> WellFormed(e.value))
      modifies this, scope
      ensures Valid() && Grew()
      ensures r.Pass? ==> Balanced()
      ensures e.None? ==> r.Pass?
      decreases fuel, if e.Some? then Size(e.value) else 0, 5
    {
      if e.Some? {
        r := CompileValue(e.value, fuel);
      } else {
        PushInstruction(Instruction.Unit);
        r := Pass;
      }
    }

    /** `op_and` (`kind` is `JumpIfNot`) and `op_or` (`kind` is `JumpIf`): after each expression
      but the last, a jump to the end when its value decides the result. */
    method ShortCircuit(args: seq<Value>, kind: JumpInstruction, fuel: nat) returns (r: Outcome<Error>)
      requires Valid() && |args| >= 1 && AllWellFormed(args) && kind in {JumpIfNot, JumpIf}
      modifies this, scope
      ensures Valid() && Grew()
      ensures r.Pass? ==> Balanced()
      decreases fuel, ListSize(args), 1
    {
      var lastB := NewBlock();
      var k := 0;
      while k < |args| - 1
        invariant k <= |args| - 1 && Valid() && Grew() && Balanced() && lastB < |blocks|
      {
        ElementSmaller(args, k);
        r := CompileValue(args[k], fuel);
        if r.Fail? {
          return;
        }
        JumpTo(kind, lastB);
        var b := NewBlock();
        UseNext(b);
        k := k + 1;
      }
      ElementSmaller(args, |args| - 1);
      r := CompileValue(args[|args| - 1], fuel);
      if r.Fail? {
        return;
      }
      UseNext(lastB);
    }

    /** One branch of `case` or `cond`: its code is compiled in block `begin` and jumps to
      `final`; compilation resumes in a new block following the one current before. */
    method Branch(begin: nat, code: Value, final: nat, fuel: nat) returns (r: Outcome<Error>, end: nat)
      requires Valid() && begin < |blocks| && final < |blocks| && WellFormed(code)
      modifies this, scope
      ensures Valid() && Grew() && end < |blocks|
      ensures r.Pass? ==> Balanced()
      decreases fuel, Size(code), 5
    {
      var prev := curBlock;
      UseBlock(begin);
      r := CompileValue(code, fuel);
      end := curBlock;
      if r.Fail? {
        return;
      }
      JumpTo(Jump, final);
      end := curBlock;
      var b := NewBlock();
      UseBlock(prev);
      UseNext(b);
    }

    /** The end of `case` and `cond`: the branches' blocks are chained in order after the
      current block, and the final block follows the last of them. */
    method ChainBranches(branches: seq<(nat, nat)>, final: nat)
      requires Valid() && final < |blocks|
      requires forall j :: 0 <= j < |branches| ==> branches[j].0 < |blocks| && branches[j].1 < |blocks|
      modifies this
      ensures Valid() && Grew() && Balanced() && curBlock == final
    {
      var j := 0;
      while j < |branches|
        invariant j <= |branches| && Valid() && Grew() && Balanced() && |blocks| == old(|blocks|)
      {
        SetNext(branches[j].0);
        UseBlock(branches[j].1);
        j := j + 1;
      }
      UseNext(final);
    }

    /** `op_case`: the value is compared against each branch's constants in turn, jumping to
      the branch on a match; an `else` branch must come last, and without one the value of
      an unmatched `case` is unit. */
    method OpCase(args: seq<Value>, fuel: nat) returns (r: Outcome<Error>)
      requires Valid() && |args| >= 2 && AllWellFormed(args)
      modifies this, scope
      ensures Valid() && Grew()
      ensures r.Pass? ==> Balanced()
      decreases fuel, ListSize(args), 1
    {
      var finalB := NewBlock();
      var branches: seq<(nat, nat)> := [];
      var elseCase := false;
      ElementSmaller(args, 0);
      r := CompileValue(args[0], fuel);
      if r.Fail? {
        return;
      }
      var k := 1;
      while k < |args|
        invariant 1 <= k <= |args| && Valid() && Grew() && Balanced() && finalB < |blocks|
        invariant forall j :: 0 <= j < |branches| ==> branches[j].0 < |blocks| && branches[j].1 < |blocks|
      {
        if elseCase {
          return Fail(Syntax("unreachable case"));
        }
        ElementSmaller(args, k);
        var begin, end;
        r, elseCase, begin, end := CaseBranch(args[k], finalB, fuel);
        if r.Fail? {
          return;
        }
        branches := branches + [(begin, end)];
        k := k + 1;
      }
      EndBranches(branches, finalB, elseCase);
      r := Pass;
    }

    /** One branch of `op_case`: `(patterns code)`, the patterns a list of constants or `else`.
      Answers whether it was the `else` branch and the blocks where its code begins and ends. */
    method CaseBranch(branch: Value, finalB: nat, fuel: nat) returns (r: Outcome<Error>, isElse: bool, begin: nat, end: nat)
      requires Valid() && WellFormed(branch) && finalB < |blocks|
      modifies this, scope
      ensures Valid() && Grew() && begin < |blocks| && end < |blocks|
      ensures r.Pass? ==> Balanced()
      ensures !(branch.List? && |branch.items| == 2) ==> r == Fail(Syntax("expected list of 2 elements"))
      ensures r.Pass? ==> (isElse <==> branch.items[0] == Value.Name(ElseName))
      decreases fuel, Size(branch), 0
    {
      isElse := false;
      begin, end := 0, 0;
      if !(branch.List? && |branch.items| == 2) {
        r := Fail(Syntax("expected list of 2 elements"));
        return;
      }
      var pat := branch.items[0];
      begin := NewBlock();
      if pat.List? {
        JumpOnPatterns(pat.items, begin);
      } else if pat == Value.Name(ElseName) {
        isElse := true;
        JumpTo(Jump, begin);
      } else {
        r := Fail(Syntax("expected list or `else`"));
        return;
      }
      ItemOf(branch, 1);
      r, end := Branch(begin, branch.items[1], finalB, fuel);
    }

    /** The end of `op_case` and `op_cond`: without an `else` branch, unit and a jump to the
      final block; then the branches chained after the current block. */
    method EndBranches(branches: seq<(nat, nat)>, finalB: nat, elseCase: bool)
      requires Valid() && finalB < |blocks|
      requires forall j :: 0 <= j < |branches| ==> branches[j].0 < |blocks| && branches[j].1 < |blocks|
      modifies this
      ensures Valid() && Grew() && Balanced() && curBlock == finalB
    {
      if !elseCase {
        PushInstruction(Instruction.Unit);
        JumpTo(Jump, finalB);
      }
      ChainBranches(branches, finalB);
    }

    /** The tests of one `case` branch: for each constant, a jump to the branch when the value
      matches it, each test in a block of its own. */
    method JumpOnPatterns(pats: seq<Value>, begin: nat)
      requires Valid() && begin < |blocks|
      modifies this
      ensures Valid() && Grew() && Balanced()
    {
      var j := 0;
      while j < |pats|
        invariant j <= |pats| && Valid() && Grew() && Balanced()
      {
        if pats[j].Unit? {
          JumpTo(JumpIfNull, begin);
        } else if pats[j].Bool? {
          JumpTo(if pats[j].b then JumpIf else JumpIfNot, begin);
        } else {
          var c := AddConst(pats[j]);
          JumpTo(JumpIfEqConst(c), begin);
        }
        var b := NewBlock();
        UseNext(b);
        j := j + 1;
      }
    }

    /** `op_cond`: each condition in turn, jumping to its branch when true; an `else` branch
      must come last, and without one the value of a `cond` with no true condition is unit. */
    method OpCond(args: seq<Value>, fuel: nat) returns (r: Outcome<Error>)
      requires Valid() && |args| >= 1 && AllWellFormed(args)
      modifies this, scope
      ensures Valid() && Grew()
      ensures r.Pass? ==> Balanced()
      decreases fuel, ListSize(args), 1
    {
      var finalB := NewBlock();
      var branches: seq<(nat, nat)> := [];
      var elseCase := false;
      var k := 0;
      while k < |args|
        invariant k <= |args| && Valid() && Grew() && Balanced() && finalB < |blocks|
        invariant forall j :: 0 <= j < |branches| ==> branches[j].0 < |blocks| && branches[j].1 < |blocks|
      {
        if elseCase {
          return Fail(Syntax("unreachable condition"));
        }
        ElementSmaller(args, k);
        var begin, end;
        r, elseCase, begin, end := CondBranch(args[k], finalB, fuel);
        if r.Fail? {
          return;
        }
        branches := branches + [(begin, end)];
        k := k + 1;
      }
      EndBranches(branches, finalB, elseCase);
      r := Pass;
    }

    /** One branch of `op_cond`: `(condition code)`, the condition an expression or `else`.
      Answers whether it was the `else` branch and the blocks where its code begins and ends. */
    method CondBranch(branch: Value, finalB: nat, fuel: nat) returns (r: Outcome<Error>, isElse: bool, begin: nat, end: nat)
      requires Valid() && WellFormed(branch) && finalB < |blocks|
      modifies this, scope
      ensures Valid() && Grew() && begin < |blocks| && end < |blocks|
      ensures r.Pass? ==> Balanced()
      ensures !(branch.List? && |branch.items| == 2) ==> r == Fail(Syntax("expected list of 2 elements"))
      ensures r.Pass? ==> (isElse <==> branch.items[0] == Value.Name(ElseName))
      decreases fuel, Size(branch), 0
    {
      isElse := false;
      begin, end := 0, 0;
      if !(branch.List? && |branch.items| == 2) {
        r := Fail(Syntax("expected list of 2 elements"));
        return;
      }
      ItemOf(branch, 0);
      ItemOf(branch, 1);
      var cond := branch.items[0];
      begin := NewBlock();
      if cond == Value.Name(ElseName) {
        isElse := true;
        JumpTo(Jump, begin);
      } else {
        r := CompileValue(cond, fuel);
        if r.Fail? {
          return;
        }
        JumpTo(JumpIf, begin);
      }
      r, end := Branch(begin, branch.items[1], finalB, fuel);
    }

    /** `op_lambda`: `(lambda (params...) body)` compiles a nested lambda and loads it. */
    method OpLambda(args: seq<Value>, fuel: nat) returns (r: Outcome<Error>)
      requires Valid() && |args| == 2 && AllWellFormed(args)
      modifies this, scope
      ensures Valid() && Grew()
      ensures r.Pass? ==> Balanced()
      decreases fuel, ListSize(args), 1
    {
      var params: seq<Value>;
      if args[0].Unit? {
        params := [];
      } else if args[0].List? {
        params := args[0].items;
      } else {
        return Fail(Syntax("expected list"));
      }
      PairSmaller(args);
      r := LoadNewLambda(None, params, args[1], fuel);
    }

    /** A nested lambda compiled by `make_lambda`, added to the constants and loaded by
      `load_lambda`. */
    method LoadNewLambda(name: Option<Name>, params: seq<Value>, body: Value, fuel: nat) returns (r: Outcome<Error>)
      requires Valid() && AllWellFormed(params) && WellFormed(body)
      modifies this, scope
      ensures Valid() && Grew()
      ensures r.Pass? ==> Balanced()
      decreases fuel, ListSize(params) + Size(body), 2
    {
      var made := MakeLambda(name, params, body, fuel);
      if made.Err? {
        return Fail(made.error);
      }
      var c := AddConst(Lambda(made.value.0));
      LoadLambda(c, made.value.1);
      r := Pass;
    }

    /** `op_export`: declares, once, the names the module exports. */
    method OpExport(args: seq<Value>) returns (r: Outcome<Error>)
      requires Valid() && |args| == 1
      modifies this, scope
      ensures Valid() && Grew()
      ensures r.Pass? ==> Balanced()
      ensures old(scope.exports).Some? ==> r == Fail(Compile(DuplicateExports))
      ensures r.Pass? ==>
        && old(scope.exports).None? && scope.exports.Some?
        && forall n :: n in scope.exports.value <==> args[0].List? && Value.Name(n) in args[0].items
    {
      if scope.exports.Some? {
        return Fail(Compile(DuplicateExports));
      }
      var li: seq<Value>;
      if args[0].Unit? {
        li := [];
      } else if args[0].List? {
        li := args[0].items;
      } else {
        return Fail(Syntax("expected list of names in `export`"));
      }
      var names: set<Name> := {};
      var k := 0;
      while k < |li|
        invariant k <= |li| && forall n :: n in names <==> Value.Name(n) in li[..k]
      {
        var name := GetName(li[k]);
        if name.Err? {
          return Fail(Compile(name.error));
        }
        assert li[..k + 1] == li[..k] + [li[k]];
        names := names + {name.value};
        k := k + 1;
      }
      assert li[..k] == li;
      scope.exports := Some(names);
      PushInstruction(Instruction.Unit);
      r := Pass;
    }

    /** The `:macro names` pairs after the values of `op_use`, each importing macros. */
    method UseMacros(modName: Name, m: ScopeView, args: seq<Value>) returns (r: Outcome<Error>)
      requires |args| >= 2
      modifies scope
      ensures |args| > 2 && args[2] != Keyword(MacroName) ==> r == Fail(Syntax("expected keyword `:macro`"))
      ensures |args| == 3 && args[2] == Keyword(MacroName) ==>
        r == Fail(Syntax("expected `:all` or list of names after keyword"))
    {
      var i := 2;
      while i < |args|
        invariant 2 <= i <= |args| && (i > 2 ==> i >= 4 && args[2] == Keyword(MacroName))
        modifies scope
      {
        var arg := args[i];
        i := i + 1;
        if arg != Keyword(MacroName) {
          return Fail(Syntax("expected keyword `:macro`"));
        }
        if i == |args| {
          return Fail(Syntax("expected `:all` or list of names after keyword"));
        }
        var imported := ImportSpec(modName, scope.macros, m.macros, m.exports, args[i],
                                   "expected `:all` or list of names after keyword");
        i := i + 1;
        scope.macros := imported.table;
        if imported.outcome.Fail? {
          return Fail(Compile(imported.outcome.error));
        }
      }
      r := Pass;
    }

    /** `op_use`: `(use module names [:macro names])` imports values, and then macros, from a
      module; `:all` imports everything it exports. */
    method OpUse(args: seq<Value>) returns (r: Outcome<Error>)
      requires Valid() && |args| >= 2
      modifies this, scope
      ensures Valid() && Grew()
      ensures r.Pass? ==> Balanced()
      ensures !args[0].Name? ==> r == Fail(Compile(SyntaxError("expected name")))
    {
      var modName := GetName(args[0]);
      if modName.Err? {
        return Fail(Compile(modName.error));
      }
      var got := env.getModule(modName.value);
      if got.Err? {
        return Fail(got.error);
      }
      var m := got.value;
      var imported := ImportSpec(modName.value, scope.values, m.values, m.exports, args[1],
                                 "expected list of names or `:all`");
      scope.values := imported.table;
      if imported.outcome.Fail? {
        return Fail(Compile(imported.outcome.error));
      }
      r := UseMacros(modName.value, m, args);
      if r.Fail? {
        return;
      }
      PushInstruction(Instruction.Unit);
      r := Pass;
    }

    /** `branch_if_unbound`: the code for a parameter's default runs only when the parameter
      slot `pos` was left unbound by the caller, and stores its value there. */
    method BranchIfUnbound(pos: nat, v: Value, fuel: nat) returns (r: Outcome<Error>)
      requires Valid() && WellFormed(v)
      modifies this, scope
      ensures Valid() && Grew()
      ensures r.Pass? ==> Balanced()
      decreases fuel, Size(v), 5
    {
      var bindB := NewBlock();
      var finalB := NewBlock();
      JumpTo(JumpIfBound(pos), finalB);
      UseNext(bindB);
      r := CompileValue(v, fuel);
      if r.Fail? {
        return;
      }
      PushInstruction(Store(pos));
      UseNext(finalB);
    }

    /** `make_lambda`: reads the parameter list and compiles the body with a compiler of its
      own, nested in this one. Parameter-list errors are reported as the parser finds them;
      every name the lambda captures is visible from this compiler. */
    method MakeLambda(name: Option<Name>, params: seq<Value>, body: Value, fuel: nat)
      returns (r: Result<(Code, seq<Name>), Error>)
      requires Valid() && AllWellFormed(params) && WellFormed(body)
      modifies scope
      ensures ParseParams(params).Err? ==> r == Err(ParseParams(params).error)
      ensures r.Ok? ==> ParseParams(params).Ok?
      ensures r.Ok? ==> forall k :: 0 <= k < |r.value.1| ==> Visible(outer + [OwnFrame()], r.value.1[k])
      decreases fuel, ListSize(params) + Size(body), 1
    {
      var spec := ReadParams(params);
      if spec.Err? {
        return Err(spec.error);
      }
      ParseParamsOk(params);
      var inner := new Compiler(scope, env, outer + [OwnFrame()], name);
      r := inner.CompileLambda(name, spec.value, params, body, fuel);
    }

    /** `compile_lambda` on a fresh compiler: the parameters occupy the first stack slots
      (placeholders until each is named, so that defaults see only earlier parameters), the
      defaults of optional and keyword parameters are compiled, then the body, and the code
      object records the parameter counts and flags. */
    method CompileLambda(name: Option<Name>, spec: ParamSpec, ghost paramArgs: seq<Value>, body: Value, fuel: nat)
      returns (r: Result<(Code, seq<Name>), Error>)
      requires Valid() && stack == [] && selfName == name
      requires SpecOk(paramArgs, spec) && AllWellFormed(paramArgs) && WellFormed(body)
      modifies this, scope
      ensures r.Ok? ==> Distinct(r.value.1) && forall k :: 0 <= k < |r.value.1| ==> Visible(outer, r.value.1[k])
      ensures r.Ok? ==>
        && r.value.0.name == name
        && r.value.0.nParams == |spec.params| && r.value.0.reqParams == spec.reqParams
        && r.value.0.kwParams == NamesOf(spec.kwParams)
        && r.value.0.flags == CodeFlags(name.Some?, |spec.kwParams| > 0, spec.rest.Some?)
      decreases fuel, ListSize(paramArgs) + Size(body), 0
    {
      var nParams := |spec.params|;
      var total := nParams + |spec.kwParams| + if spec.rest.Some? then 1 else 0;
      stack := Placeholders(total);
      stackOffset := total;
      // keyword and rest parameters exclude each other
      assert |spec.kwParams| == 0 || spec.rest.None?;
      var flags := CodeFlags(name.Some?, |spec.kwParams| > 0, |spec.kwParams| == 0 && spec.rest.Some?);
      SpecDefaults(paramArgs, spec);
      var o, _ := BindParams(spec.params, 0, spec.reqParams, paramArgs, fuel);
      if o.Fail? {
        return Err(o.error);
      }
      var kwNames;
      o, kwNames := BindParams(spec.kwParams, nParams, 0, paramArgs, fuel);
      if o.Fail? {
        return Err(o.error);
      }
      if spec.rest.Some? {
        stack := stack[total - 1 := (spec.rest.value, stack[total - 1].1)];
      }
      o := CompileValue(body, fuel);
      if o.Fail? {
        return Err(o.error);
      }
      var code := AssembleCode();
      if code.Err? {
        return Err(code.error);
      }
      r := Ok((Code(name, code.value, consts, kwNames, nParams, spec.reqParams, flags), captures));
    }

    /** The parameter loops of `compile_lambda`: parameter `k` of `ps` lives in stack slot
      `base + k`; from the `firstOptional`-th on, its default is stored there when the caller
      left it unbound (unit without a default), and the slot then takes its name. Answers the
      names in order. */
    method BindParams(ps: seq<Param>, base: nat, firstOptional: nat,
                      ghost paramArgs: seq<Value>, fuel: nat) returns (r: Outcome<Error>, names: seq<Name>)
      requires Valid() && base + |ps| <= |stack|
      requires DefaultsWithin(paramArgs, ps) && AllWellFormed(paramArgs)
      modifies this, scope
      ensures Valid() && Grew()
      ensures r.Pass? ==>
        && names == NamesOf(ps) && stack == Renamed(old(stack), base, ps)
        && stackOffset == old(stackOffset) && macroRecursion == old(macroRecursion)
      decreases fuel, ListSize(paramArgs), 2
    {
      names := [];
      var i := 0;
      assert ps[..0] == [];
      while i < |ps|
        invariant i <= |ps| && Valid() && Grew()
        invariant stack == Renamed(old(stack), base, ps[..i])
        invariant |names| == i && forall k :: 0 <= k < i ==> names[k] == ps[k].0
        invariant stackOffset == old(stackOffset) && macroRecursion == old(macroRecursion)
      {
        r := BindNext(ps, base, i, firstOptional, old(stack), paramArgs, fuel);
        if r.Fail? {
          return;
        }
        names := names + [ps[i].0];
        i := i + 1;
      }
      assert ps[..i] == ps;
      r := Pass;
    }

    /** Parameter `i` of `ps`, with the ones before it already bound. */
    method BindNext(ps: seq<Param>, base: nat, i: nat, firstOptional: nat, ghost s0: seq<(Name, nat)>,
                    ghost paramArgs: seq<Value>, fuel: nat) returns (r: Outcome<Error>)
      requires Valid() && i < |ps| && base + |ps| <= |s0| && stack == Renamed(s0, base, ps[..i])
      requires DefaultsWithin(paramArgs, ps) && AllWellFormed(paramArgs)
      modifies this, scope
      ensures Valid() && Grew()
      ensures r.Pass? ==>
        && stack == Renamed(s0, base, ps[..i + 1])
        && stackOffset == old(stackOffset) && macroRecursion == old(macroRecursion)
      decreases fuel, ListSize(paramArgs), 1
    {
      RenamedStep(s0, base, ps, i);
      assert ps[i] in ps;
      r := BindParam(base + i, ps[i], i >= firstOptional, paramArgs, fuel);
    }

    /** One parameter in slot `pos`: if it is optional and the caller left it unbound, its
      default is stored there, or unit when it has none; then the slot takes its name. */
    method BindParam(pos: nat, p: Param, optional: bool, ghost paramArgs: seq<Value>, fuel: nat)
      returns (r: Outcome<Error>)
      requires Valid() && pos < |stack|
      requires p.1.Some? ==> Size(p.1.value) < ListSize(paramArgs) && WellFormed(p.1.value)
      modifies this, scope
      ensures Valid() && Grew()
      ensures r.Pass? ==>
        && stack == old(stack)[pos := (p.0, old(stack)[pos].1)]
        && stackOffset == old(stackOffset) && macroRecursion == old(macroRecursion)
      ensures optional && p.1.None? ==> r.Pass? && blocks == Appended(old(blocks), old(curBlock), UnboundToUnit(pos))
      ensures !optional ==> r.Pass? && blocks == old(blocks)
      decreases fuel, ListSize(paramArgs), 0
    {
      if optional && p.1.Some? {
        r := BranchIfUnbound(pos, p.1.value, fuel);
        if r.Fail? {
          return;
        }
      } else if optional {
        PushInstruction(UnboundToUnit(pos));
      }
      stack := stack[pos := (p.0, stack[pos].1)];
      r := Pass;
    }

    /** `assemble_code`: lays out the blocks (`write_jumps`). The byte encoding of the laid-out
      blocks belongs to bytecode.rs and is not modelled: the result is the blocks themselves. */
    method AssembleCode() returns (r: Result<seq<CodeBlock>, Error>)
      requires Valid()
      ensures r.Err? ==> r.error == Panic("jump to dead block")
    {
      BlocksOkTargets(blocks, |consts|, |captures|);
      var laid;
      ghost var trace;
      var offsets, short;
      laid, trace, offsets, short := Layout.WriteJumps(blocks, env.enc);
      match laid {
        case Ok(v) => r := Ok(v.0);
        case Err(e) => r := Err(e);
      }
    }
  }

  /** `compile`: a whole expression, compiled at the top level, outside any lambda. */
  method CompileExpression(scope: GlobalScope, env: Env, v: Value, fuel: nat) returns (r: Result<Code, Error>)
    requires WellFormed(v)
    modifies scope
    ensures r.Ok? ==> r.value.name == None && r.value.kwParams == [] && r.value.nParams == 0 &&
                      r.value.reqParams == 0 && r.value.flags == CodeFlags(false, false, false)
  {
    var compiler := new Compiler(scope, env, [], None);
    var o := compiler.CompileValue(v, fuel);
    if o.Fail? {
      return Err(o.error);
    }
    var code := compiler.AssembleCode();
    if code.Err? {
      return Err(code.error);
    }
    r := Ok(Code(None, code.value, compiler.consts, [], 0, 0, CodeFlags(false, false, false)));
  }

  /** What `op_use` imports for one table: `:all` every exported entry, a list the entries it
    names, unit nothing; anything else is refused with `msg`. */
  function ImportSpec<T>(modName: Name, into: map<Name, T>, from: map<Name, T>, exports: Option<set<Name>>,
                         spec: Value, msg: string): (r: Imported<T>)
    ensures spec == Keyword(AllName) ==> r == Imported(ImportAll(into, from, exports), Pass)
    ensures spec.Unit? ==> r == Imported(into, Pass)
    ensures spec.List? ==> r == Import(modName, into, from, exports, spec.items)
    ensures !(spec == Keyword(AllName) || spec.Unit? || spec.List?) ==> r == Imported(into, Fail(SyntaxError(msg)))
  {
    if spec == Keyword(AllName) then Imported(ImportAll(into, from, exports), Pass)
    else if spec.Unit? then Imported(into, Pass)
    else if spec.List? then Import(modName, into, from, exports, spec.items)
    else Imported(into, Fail(SyntaxError(msg)))
  }

  /** The instruction that rebuilds a quoting form around its quasiquoted contents at
    quasiquote depth `depth`: the form itself, except that the outermost quasiquote drops its
    own level and a single one leaves nothing to rebuild. It takes one value and gives one. */
  function Rewrap(v: Value, depth: nat): (r: Option<Instruction>)
    requires v.Comma? || v.Quote? || v.Quasiquote?
    ensures r.Some? ==> StackEffect(r.value) == 0 && InstrRefsOk(r.value, 0, 0)
    ensures r.None? <==> v.Quasiquote? && depth == 0 && v.n == 1
  {
    if v.Comma? then Some(Instruction.Comma(v.n))
    else if v.Quote? then Some(Instruction.Quote(v.n))
    else if depth == 0 && v.n == 1 then None
    else if depth == 0 then Some(Instruction.Quasiquote(v.n - 1))
    else Some(Instruction.Quasiquote(v.n))
  }

  /** The functions `inline_call` compiles to instructions of their own, with the argument
    counts it inlines them at. */
  predicate Inlines(name: Name, n: nat) {
    || ((UnaryInstruction(name).Some? || name == IdName) && n == 1)
    || ((name == EqName || name == NotEqName || name == AppendName) && n == 2)
    || ((name == InfName || name == NanName) && n == 0)
    || name == ListName
  }

  /** The one-argument functions `inline_call` compiles to their argument followed by an
    instruction of their own: an instruction without operands that leaves the stack depth as
    it was. */
  function UnaryInstruction(name: Name): (r: Option<Instruction>)
    ensures r.Some? ==> StackEffect(r.value) == 0 && InstrRefsOk(r.value, 0, 0)
    ensures r.Some? <==> name in {NullName, NotName, FirstName, TailName, InitName, LastName}
  {
    if name == NullName then Some(Null)
    else if name == NotName then Some(Not)
    else if name == FirstName then Some(First)
    else if name == TailName then Some(Tail)
    else if name == InitName then Some(Init)
    else if name == LastName then Some(Last)
    else None
  }

  /** An element of a struct's field list: `(field type)`. */
  predicate FieldDecl(v: Value) {
    v.List? && |v.items| == 2 && v.items[0].Name? && v.items[1].Name?
  }

  /** The field map of `op_struct`, read element by element: a later field of the same name
    replaces an earlier one. */
  function StructFields(li: seq<Value>): (r: Result<map<Name, Name>, CompileError>)
    ensures r.Err? ==> r.error == SyntaxError("expected list of 2 elements") || r.error == SyntaxError("expected name")
    decreases |li|
  {
    if li == [] then Ok(map[])
    else match StructFields(li[..|li| - 1])
      case Err(e) => Err(e)
      case Ok(fields) =>
        var v := li[|li| - 1];
        if !(v.List? && |v.items| == 2) then Err(SyntaxError("expected list of 2 elements"))
        else if !v.items[0].Name? || !v.items[1].Name? then Err(SyntaxError("expected name"))
        else Ok(fields[v.items[0].name := v.items[1].name])
  }

  /** A field list is accepted exactly when every element is a `(field type)` pair of names. */
  lemma {:induction false} StructFieldsAccepts(li: seq<Value>)
    ensures StructFields(li).Ok? <==> forall k :: 0 <= k < |li| ==> FieldDecl(li[k])
    decreases |li|
  {
    if li != [] {
      var n := |li| - 1;
      StructFieldsAccepts(li[..n]);
      assert forall k :: 0 <= k < n ==> li[..n][k] == li[k];
    }
  }

  /** An accepted field list declares exactly the names it lists. */
  lemma {:induction false} StructFieldsNames(li: seq<Value>)
    requires StructFields(li).Ok?
    ensures forall k :: 0 <= k < |li| ==> FieldDecl(li[k])
    ensures forall n :: n in StructFields(li).value <==>
      exists k :: 0 <= k < |li| && FieldDecl(li[k]) && li[k].items[0].name == n
    decreases |li|
  {
    StructFieldsAccepts(li);
    if li != [] {
      var n := |li| - 1;
      var init := li[..n];
      StructFieldsNames(init);
      assert forall k :: 0 <= k < n ==> init[k] == li[k];
      forall m | m in StructFields(init).value
        ensures exists k :: 0 <= k < |li| && FieldDecl(li[k]) && li[k].items[0].name == m
      {
        var k :| 0 <= k < n && FieldDecl(init[k]) && init[k].items[0].name == m;
        assert li[k] == init[k];
      }
    }
  }

  /** Element `k` of a field list declares a field that no later element declares again. */
  predicate LastDecl(li: seq<Value>, k: nat)
    requires k < |li|
  {
    FieldDecl(li[k]) && forall j :: k < j < |li| && FieldDecl(li[j]) ==> li[j].items[0].name != li[k].items[0].name
  }

  /** Each field of an accepted list has the type of its last declaration (every declared
    field is in the map, by `StructFieldsNames`). */
  lemma {:induction false} StructFieldsTypes(li: seq<Value>)
    requires StructFields(li).Ok?
    ensures forall k :: 0 <= k < |li| && LastDecl(li, k) && li[k].items[0].name in StructFields(li).value ==>
              StructFields(li).value[li[k].items[0].name] == li[k].items[1].name
    decreases |li|
  {
    if li != [] {
      var n := |li| - 1;
      var init := li[..n];
      StructFieldsNames(init);
      StructFieldsTypes(init);
      var fields := StructFields(init).value;
      assert StructFields(li).value == fields[li[n].items[0].name := li[n].items[1].name];
      forall k | 0 <= k < n && LastDecl(li, k)
        ensures StructFields(li).value[li[k].items[0].name] == li[k].items[1].name
      {
        LastDeclPrefix(li, k);
      }
    }
  }

  /** The last declaration in a list is the last one in the list without its final element,
    and names a different field from that element. */
  lemma LastDeclPrefix(li: seq<Value>, k: nat)
    requires k < |li| - 1 && LastDecl(li, k)
    ensures LastDecl(li[..|li| - 1], k)
    ensures FieldDecl(li[|li| - 1]) ==> li[|li| - 1].items[0].name != li[k].items[0].name
  {
    var init := li[..|li| - 1];
    assert init[k] == li[k];
    forall j | k < j < |init| && FieldDecl(init[j]) ensures init[j].items[0].name != init[k].items[0].name {
      assert init[j] == li[j];
    }
  }

  /** One more element of the field list, read after the ones before it. */
  lemma StructFieldsStep(li: seq<Value>, k: nat)
    requires k < |li|
    ensures var v := li[k];
      StructFields(li[..k + 1]) ==
        match StructFields(li[..k])
        case Err(e) => Err(e)
        case Ok(fields) =>
          if !(v.List? && |v.items| == 2) then Err(SyntaxError("expected list of 2 elements"))
          else if !v.items[0].Name? || !v.items[1].Name? then Err(SyntaxError("expected name"))
          else Ok(fields[v.items[0].name := v.items[1].name])
  {
    assert li[..k + 1][..k] == li[..k];
    assert li[..k + 1][k] == li[k];
  }

  /** Once a prefix of the field list is refused, the whole list is, with the same error. */
  lemma {:induction false} StructFieldsStops(li: seq<Value>, j: nat)
    requires j <= |li| && StructFields(li[..j]).Err?
    ensures StructFields(li) == StructFields(li[..j])
    decreases |li| - j
  {
    if j == |li| {
      assert li[..j] == li;
    } else {
      assert li[..j + 1][..j] == li[..j];
      StructFieldsStops(li, j + 1);
    }
  }

  /** The field part of `op_struct`: unit for no fields, or a list of `(field type)` pairs. */
  function StructSpec(v: Value): (r: Result<map<Name, Name>, CompileError>)
    ensures v.Unit? ==> r == Ok(map[])
    ensures r.Ok? && !v.Unit? ==> v.List? && forall k :: 0 <= k < |v.items| ==> FieldDecl(v.items[k])
    ensures v.List? && (forall k :: 0 <= k < |v.items| ==> FieldDecl(v.items[k])) ==> r.Ok?
    ensures !v.Unit? && !v.List? ==> r == Err(SyntaxError("expected list"))
  {
    if v.Unit? then Ok(map[])
    else if v.List? then StructFieldsAccepts(v.items); StructFields(v.items)
    else Err(SyntaxError("expected list"))
  }

  method ReadStructSpec(v: Value) returns (r: Result<map<Name, Name>, CompileError>)
    ensures r == StructSpec(v)
  {
    if v.List? {
      r := ReadFields(v.items);
    } else if v.Unit? {
      r := Ok(map[]);
    } else {
      r := Err(SyntaxError("expected list"));
    }
  }

  /** The field-reading loop of `op_struct`. */
  method ReadFields(li: seq<Value>) returns (r: Result<map<Name, Name>, CompileError>)
    ensures r == StructFields(li)
  {
    var fields: map<Name, Name> := map[];
    var k := 0;
    while k < |li|
      invariant k <= |li| && StructFields(li[..k]) == Ok(fields)
    {
      StructFieldsStep(li, k);
      var v := li[k];
      if !(v.List? && |v.items| == 2) {
        StructFieldsStops(li, k + 1);
        return Err(SyntaxError("expected list of 2 elements"));
      }
      var fname := GetName(v.items[0]);
      if fname.Err? {
        StructFieldsStops(li, k + 1);
        return Err(fname.error);
      }
      var ftype := GetName(v.items[1]);
      if ftype.Err? {
        StructFieldsStops(li, k + 1);
        return Err(ftype.error);
      }
      fields := fields[fname.value := ftype.value];
      k := k + 1;
    }
    assert li[..k] == li;
    r := Ok(fields);
  }
}
