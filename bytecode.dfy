/** The instructions the compiler emits and the basic blocks it writes them into.
  Only the variants the compiler produces are listed; their byte encoding, the choice
  between short and long operands and the peephole merging done inside a block belong
  to bytecode.rs, which is not part of this model. */
module Bytecode {
  import opened Names
  import opened Wrappers

  datatype Instruction =
    | Load(pos: nat)              // stack slot
    | LoadC(index: nat)           // closure value
    | GetDef(c: nat)              // global named by a constant
    | SetDef(c: nat)
    | Const(c: nat)
    | Store(pos: nat)
    | UnboundToUnit(pos: nat)
    | Unit
    | True
    | False
    | Push
    | Skip(n: nat)
    | List(n: nat)
    | BuildClosure(c: nat, n: nat)
    | Call(n: nat)
    | CallSelf(n: nat)
    | CallSys(sys: Name)
    | CallSysArgs(sys: Name, n: nat)
    | CallConst(c: nat, n: nat)
    | Apply(n: nat)
    | Eq
    | NotEq
    | EqConst(c: nat)
    | NotEqConst(c: nat)
    | Null
    | Not
    | Append
    | First
    | Tail
    | Init
    | Last
    | Quote(n: nat)
    | Quasiquote(n: nat)
    | Comma(n: nat)
    | CommaAt(n: nat)
    | Return

  /** The instruction that ends a block by jumping. */
  datatype JumpInstruction =
    | Jump
    | JumpIf
    | JumpIfNot
    | JumpIfNull
    | JumpIfBound(pos: nat)
    | JumpIfEqConst(c: nat)

  /** A jump and its destination: a block number while compiling, a code offset once laid out. */
  datatype JumpTo = JumpTo(kind: JumpInstruction, target: nat)

  /** A basic block: its instructions, the jump that ends it and the block that follows it. */
  datatype CodeBlock = CodeBlock(instrs: seq<Instruction>, jump: Option<JumpTo>, next: Option<nat>)

  /** `CodeBlock::new` and `CodeBlock::empty`. */
  const EmptyBlock := CodeBlock([], None, None)

  /** The flags recorded in a compiled code object. */
  datatype CodeFlags = CodeFlags(hasName: bool, hasKwParams: bool, hasRestParams: bool)

  /** How much an instruction changes the compiler's count of values on the stack.
    `CallSys` is absent: its adjustment is made where it is emitted. `Append`, like `Eq`,
    takes its first operand off the stack. */
  function StackEffect(i: Instruction): (r: int)
    ensures r > 0 <==> i == Push
    ensures r <= 1
    ensures i == Append || i == Eq || i == NotEq ==> r == -1
  {
    if i.Push? then 1
    else if i.BuildClosure? || i.List? || i.Skip? || i.CallSysArgs? || i.CallSelf? || i.CallConst? then -(i.n as int)
    else if i.Call? || i.Apply? then -(i.n as int + 1)
    else if i.Eq? || i.NotEq? || i.Append? then -1
    else 0
  }

  /** The adjustment as `push_instruction` makes it: the same, except that `Append` is left
    out. */
  function StackEffectAsWritten(i: Instruction): (r: int)
    ensures i != Append ==> r == StackEffect(i)
    ensures i == Append ==> r == StackEffect(i) + 1
  {
    if i == Append then 0 else StackEffect(i)
  }

  /** With the adjustments as written, the inlined `(append a b)` (the first operand pushed,
    then `Append`) leaves the count one higher than it found it, while `(= a b)` leaves it
    as it was; with `Append` counted, both are balanced. In `(let ((v (append a b))) v)`
    the binding is recorded at the count reached after the value, so `v` is given slot 1,
    while the `Push` of the `let` puts the value at slot 0, the first free one. */
  lemma AppendDrift()
    ensures StackEffectAsWritten(Push) + StackEffectAsWritten(Append) == 1
    ensures StackEffectAsWritten(Push) + StackEffectAsWritten(Eq) == 0
    ensures NetEffect([Push, Append]) == 0
    ensures NetEffectAsWritten([Push, Append]) == 1
  {
    assert [Push, Append][..1] == [Push];
    assert [Push][..0] == [];
  }

  /** Net change of a whole instruction sequence as `push_instruction` counts it. */
  function NetEffectAsWritten(s: seq<Instruction>): int {
    if s == [] then 0 else NetEffectAsWritten(s[..|s| - 1]) + StackEffectAsWritten(s[|s| - 1])
  }

  /** Net change of a whole instruction sequence. */
  function NetEffect(s: seq<Instruction>): int {
    if s == [] then 0 else NetEffect(s[..|s| - 1]) + StackEffect(s[|s| - 1])
  }

  /** `op_let` on a binding whose value compiles to `code` from a depth of `d`: `push_var`
    names the slot at the count reached after `code`, with the adjustments as written. */
  function LetSlotAsWritten(d: int, code: seq<Instruction>): int {
    d + NetEffectAsWritten(code)
  }

  /** The slot the `Push` after `code` really fills: the depth once `code` has run. */
  function LetSlot(d: int, code: seq<Instruction>): int {
    d + NetEffect(code)
  }

  /** In `(let ((v (append a b))) v)` at depth `d`, with `a` and `b` loaded from slots, the
    binding `v` is named at slot `d + 1` while its value is pushed into slot `d`. */
  lemma {:induction false} AppendLetSlot(d: int, a: nat, b: nat)
    ensures LetSlotAsWritten(d, [Load(a), Push, Load(b), Append]) == d + 1
    ensures LetSlot(d, [Load(a), Push, Load(b), Append]) == d
  {
    var c1, c2, c3, c4 := [Load(a)], [Load(a), Push], [Load(a), Push, Load(b)], [Load(a), Push, Load(b), Append];
    assert c4[..3] == c3 && c3[..2] == c2 && c2[..1] == c1 && c1[..0] == [];
    assert NetEffect(c1) == 0 && NetEffectAsWritten(c1) == 0;
    assert NetEffect(c2) == 1 && NetEffectAsWritten(c2) == 1;
    assert NetEffect(c3) == 1 && NetEffectAsWritten(c3) == 1;
  }

  /** `n` copies of `Push`. */
  function Pushes(n: nat): (r: seq<Instruction>)
    ensures |r| == n && forall k :: 0 <= k < n ==> r[k] == Push
  {
    if n == 0 then [] else Pushes(n - 1) + [Push]
  }

  lemma {:induction false} NetEffectAppend(s: seq<Instruction>, t: seq<Instruction>)
    ensures NetEffect(s + t) == NetEffect(s) + NetEffect(t)
    decreases |t|
  {
    if t == [] {
      assert s + t == s;
    } else {
      var t' := t[..|t| - 1];
      assert (s + t)[..|s + t| - 1] == s + t';
      NetEffectAppend(s, t');
      assert NetEffect(t) == NetEffect(t') + StackEffect(t[|t| - 1]);
    }
  }

  lemma PushesSplit(n: nat)
    requires n > 0
    ensures Pushes(n)[..n - 1] == Pushes(n - 1) && Pushes(n)[n - 1] == Push
  {
    assert Pushes(n) == Pushes(n - 1) + [Push];
  }

  lemma {:induction false} PushesEffect(n: nat)
    ensures NetEffect(Pushes(n)) == n
  {
    if n > 0 {
      PushesEffect(n - 1);
      PushesSplit(n);
    }
  }

  /** The call sequence the compiler emits for a pushed function and `n` arguments leaves
    the stack as it found it: one push for the function, one per argument, then `Call(n)`. */
  lemma CallSequenceBalanced(n: nat)
    ensures NetEffect(Pushes(n + 1) + [Call(n)]) == 0
  {
    var s := Pushes(n + 1) + [Call(n)];
    assert s[..|s| - 1] == Pushes(n + 1);
    PushesEffect(n + 1);
  }

  /** Every constant index of an instruction lies below `nConsts`, every closure index below `nCaptures`. */
  predicate InstrRefsOk(i: Instruction, nConsts: nat, nCaptures: nat) {
    if i.LoadC? then i.index < nCaptures
    else if i.GetDef? || i.SetDef? || i.Const? || i.EqConst? || i.NotEqConst? || i.BuildClosure? || i.CallConst? then
      i.c < nConsts
    else true
  }

  predicate JumpOk(j: JumpTo, nBlocks: nat, nConsts: nat) {
    j.target < nBlocks && (j.kind.JumpIfEqConst? ==> j.kind.c < nConsts)
  }

  /** A block refers only to existing blocks, constants and closure values. */
  predicate BlockOk(b: CodeBlock, nBlocks: nat, nConsts: nat, nCaptures: nat) {
    && (forall k :: 0 <= k < |b.instrs| ==> InstrRefsOk(b.instrs[k], nConsts, nCaptures))
    && (b.jump.Some? ==> JumpOk(b.jump.value, nBlocks, nConsts))
    && (b.next.Some? ==> b.next.value < nBlocks)
  }

  predicate BlocksOk(blocks: seq<CodeBlock>, nConsts: nat, nCaptures: nat) {
    forall k :: 0 <= k < |blocks| ==> BlockOk(blocks[k], |blocks|, nConsts, nCaptures)
  }

  /** The jumps and next links of all blocks stay within the block list. */
  predicate TargetsIn(blocks: seq<CodeBlock>) {
    forall k :: 0 <= k < |blocks| ==>
      (blocks[k].jump.Some? ==> blocks[k].jump.value.target < |blocks|) &&
      (blocks[k].next.Some? ==> blocks[k].next.value < |blocks|)
  }

  lemma BlockOkGrows(b: CodeBlock, n: nat, c: nat, k: nat, n': nat, c': nat, k': nat)
    requires BlockOk(b, n, c, k) && n <= n' && c <= c' && k <= k'
    ensures BlockOk(b, n', c', k')
  {
    forall j | 0 <= j < |b.instrs| ensures InstrRefsOk(b.instrs[j], c', k') {
      assert InstrRefsOk(b.instrs[j], c, k);
    }
  }

  lemma BlocksOkTargets(blocks: seq<CodeBlock>, c: nat, k: nat)
    requires BlocksOk(blocks, c, k)
    ensures TargetsIn(blocks)
  {
    forall j | 0 <= j < |blocks|
      ensures (blocks[j].jump.Some? ==> blocks[j].jump.value.target < |blocks|)
      ensures (blocks[j].next.Some? ==> blocks[j].next.value < |blocks|)
    {
      assert BlockOk(blocks[j], |blocks|, c, k);
    }
  }

  lemma BlocksOkGrows(blocks: seq<CodeBlock>, c: nat, k: nat, c': nat, k': nat)
    requires BlocksOk(blocks, c, k) && c <= c' && k <= k'
    ensures BlocksOk(blocks, c', k')
  {
    forall j | 0 <= j < |blocks| ensures BlockOk(blocks[j], |blocks|, c', k') {
      BlockOkGrows(blocks[j], |blocks|, c, k, |blocks|, c', k');
    }
  }

  /** The blocks with instruction `i` written at the end of block `cur`. */
  function Appended(blocks: seq<CodeBlock>, cur: nat, i: Instruction): seq<CodeBlock>
    requires cur < |blocks|
  {
    blocks[cur := blocks[cur].(instrs := blocks[cur].instrs + [i])]
  }

  lemma AppendedOk(blocks: seq<CodeBlock>, cur: nat, i: Instruction, c: nat, k: nat)
    requires cur < |blocks| && BlocksOk(blocks, c, k) && InstrRefsOk(i, c, k)
    ensures BlocksOk(Appended(blocks, cur, i), c, k)
  {
    var b := blocks[cur];
    var b' := b.(instrs := b.instrs + [i]);
    assert BlockOk(b, |blocks|, c, k);
    forall j | 0 <= j < |b'.instrs| ensures InstrRefsOk(b'.instrs[j], c, k) {
      if j < |b.instrs| {
        assert b'.instrs[j] == b.instrs[j];
      }
    }
  }

  /** A new empty block at the end keeps every reference in range. */
  lemma NewBlockOk(blocks: seq<CodeBlock>, c: nat, k: nat)
    requires BlocksOk(blocks, c, k)
    ensures BlocksOk(blocks + [EmptyBlock], c, k)
  {
    var bs := blocks + [EmptyBlock];
    forall j | 0 <= j < |bs| ensures BlockOk(bs[j], |bs|, c, k) {
      if j < |blocks| {
        BlockOkGrows(blocks[j], |blocks|, c, k, |bs|, c, k);
      }
    }
  }

  /** Replacing the jump or the successor of a block by one in range keeps every reference in range. */
  lemma RelinkOk(blocks: seq<CodeBlock>, cur: nat, b: CodeBlock, c: nat, k: nat)
    requires cur < |blocks| && BlocksOk(blocks, c, k) && b.instrs == blocks[cur].instrs
    requires b.jump.Some? ==> JumpOk(b.jump.value, |blocks|, c)
    requires b.next.Some? ==> b.next.value < |blocks|
    ensures BlocksOk(blocks[cur := b], c, k)
  {
    assert BlockOk(blocks[cur], |blocks|, c, k);
  }
}
