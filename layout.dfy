/** Laying out the basic blocks of one code object (`write_jumps` and its helpers).
  Blocks are laid out by following `next` links from block 0; a block whose control flow
  reaches the end of the function without doing any work may be dropped, and every jump
  is rewritten from a block number to a code offset. */
module Layout {
  import opened Wrappers
  import opened Bytecode
  import opened Errors

  /** What the encoder of bytecode.rs decides and the layout only consults: the encoded size of a
    block (with short or long jump operands), whether a block is "mostly empty", and the
    largest short operand. */
  datatype Encoding = Encoding(
    size: (CodeBlock, bool) -> nat,
    mostlyEmpty: CodeBlock -> bool,
    maxShortOperand: nat)

  /** Sum of the encoded sizes of a run of blocks. */
  function SumSizes(bs: seq<CodeBlock>, enc: Encoding, short: bool): nat {
    if bs == [] then 0 else SumSizes(bs[..|bs| - 1], enc, short) + enc.size(bs[|bs| - 1], short)
  }

  lemma {:induction false} SumSizesAppend(bs: seq<CodeBlock>, cs: seq<CodeBlock>, enc: Encoding, short: bool)
    ensures SumSizes(bs + cs, enc, short) == SumSizes(bs, enc, short) + SumSizes(cs, enc, short)
    decreases |cs|
  {
    if cs == [] {
      assert bs + cs == bs;
    } else {
      var cs' := cs[..|cs| - 1];
      assert (bs + cs)[..|bs + cs| - 1] == bs + cs';
      SumSizesAppend(bs, cs', enc, short);
    }
  }

  lemma SumSizesSnoc(bs: seq<CodeBlock>, b: CodeBlock, enc: Encoding, short: bool)
    ensures SumSizes(bs + [b], enc, short) == SumSizes(bs, enc, short) + enc.size(b, short)
  {
    assert (bs + [b])[..|bs|] == bs;
  }

  /** `estimate_size`: every block at its long size, plus one for the final `Return`; it
    exceeds the long size of every single block. */
  function EstimateSize(blocks: seq<CodeBlock>, enc: Encoding): (r: nat)
    ensures r > 0 && forall k :: 0 <= k < |blocks| ==> enc.size(blocks[k], false) < r
  {
    forall k | 0 <= k < |blocks| ensures enc.size(blocks[k], false) <= SumSizes(blocks, enc, false) {
      BlockWithinSum(blocks, enc, k);
    }
    SumSizes(blocks, enc, false) + 1
  }

  /** The sum of the long sizes bounds the long size of every single block. */
  lemma {:induction false} BlockWithinSum(blocks: seq<CodeBlock>, enc: Encoding, k: nat)
    requires k < |blocks|
    ensures enc.size(blocks[k], false) <= SumSizes(blocks, enc, false)
  {
    SumSizesAppend(blocks[..k], blocks[k..], enc, false);
    assert blocks[..k] + blocks[k..] == blocks;
    SumSizesAppend([blocks[k]], blocks[k + 1..], enc, false);
    assert [blocks[k]] + blocks[k + 1..] == blocks[k..];
    assert SumSizes([blocks[k]], enc, false) == enc.size(blocks[k], false) by {
      assert [blocks[k]][..0] == [];
    }
  }

  predicate BlockTargetsIn(b: CodeBlock, n: nat) {
    (b.jump.Some? ==> b.jump.value.target < n) && (b.next.Some? ==> b.next.value < n)
  }

  /** `block_returns`: control leaving `b` reaches the end of the code without executing an
    instruction, passing only through mostly-empty blocks. An unconditional jump to a
    mostly-empty block is followed first; otherwise the `next` link is followed if it leads
    to a mostly-empty block. The source loops until it finds an answer and relies on the
    compiler never linking blocks in a cycle; the model follows at most `fuel` links. */
  function BlockReturns(b: CodeBlock, blocks: seq<CodeBlock>, enc: Encoding, fuel: nat): (r: bool)
    requires BlockTargetsIn(b, |blocks|) && TargetsIn(blocks)
    decreases fuel
  {
    if b.next.None? then true
    else if fuel == 0 then false
    else if b.jump.Some? && b.jump.value.kind.Jump? && enc.mostlyEmpty(blocks[b.jump.value.target]) then
      BlockReturns(blocks[b.jump.value.target], blocks, enc, fuel - 1)
    else if enc.mostlyEmpty(blocks[b.next.value]) then
      BlockReturns(blocks[b.next.value], blocks, enc, fuel - 1)
    else false
  }

  /** Following more links never turns a returning block into a non-returning one. */
  lemma {:induction false} BlockReturnsMonotone(b: CodeBlock, blocks: seq<CodeBlock>, enc: Encoding, fuel: nat, more: nat)
    requires BlockTargetsIn(b, |blocks|) && TargetsIn(blocks)
    requires fuel <= more && BlockReturns(b, blocks, enc, fuel)
    ensures BlockReturns(b, blocks, enc, more)
    decreases fuel
  {
    if b.next.Some? {
      if b.jump.Some? && b.jump.value.kind.Jump? && enc.mostlyEmpty(blocks[b.jump.value.target]) {
        BlockReturnsMonotone(blocks[b.jump.value.target], blocks, enc, fuel - 1, more - 1);
      } else {
        BlockReturnsMonotone(blocks[b.next.value], blocks, enc, fuel - 1, more - 1);
      }
    }
  }

  /** A block that returns passes control only to mostly-empty blocks: if the block it falls
    into does work, it does not return. */
  lemma BusySuccessorDoesNotReturn(b: CodeBlock, blocks: seq<CodeBlock>, enc: Encoding, fuel: nat)
    requires BlockTargetsIn(b, |blocks|) && TargetsIn(blocks)
    requires b.next.Some? && !enc.mostlyEmpty(blocks[b.next.value])
    requires b.jump.None? || !b.jump.value.kind.Jump? || !enc.mostlyEmpty(blocks[b.jump.value.target])
    ensures !BlockReturns(b, blocks, enc, fuel)
  {
  }

  /** The blocks the loop of `block_returns` moves through from `b`, following at most `fuel`
    links. */
  function Walk(b: CodeBlock, blocks: seq<CodeBlock>, enc: Encoding, fuel: nat): (r: seq<nat>)
    requires BlockTargetsIn(b, |blocks|) && TargetsIn(blocks)
    ensures |r| <= fuel && forall k :: 0 <= k < |r| ==> r[k] < |blocks|
    decreases fuel
  {
    if b.next.None? || fuel == 0 then []
    else if b.jump.Some? && b.jump.value.kind.Jump? && enc.mostlyEmpty(blocks[b.jump.value.target]) then
      [b.jump.value.target] + Walk(blocks[b.jump.value.target], blocks, enc, fuel - 1)
    else if enc.mostlyEmpty(blocks[b.next.value]) then
      [b.next.value] + Walk(blocks[b.next.value], blocks, enc, fuel - 1)
    else []
  }

  /** Control leaving `b` passes through the blocks `path`, each mostly empty and each entered
    from the one before by an unconditional jump or by falling through, and the last of them
    (or `b` itself, for an empty path) has no block after it. */
  ghost predicate ReturnChain(b: CodeBlock, blocks: seq<CodeBlock>, enc: Encoding, path: seq<nat>)
    decreases |path|
  {
    if path == [] then b.next.None?
    else
      && path[0] < |blocks|
      && enc.mostlyEmpty(blocks[path[0]])
      && (b.next == Some(path[0]) || b.jump == Some(JumpTo(Jump, path[0])))
      && ReturnChain(blocks[path[0]], blocks, enc, path[1..])
  }

  /** `block_returns` answers yes exactly when the blocks its loop moves through form a chain
    of mostly-empty blocks that ends in a block with nothing after it. */
  lemma {:induction false} BlockReturnsChain(b: CodeBlock, blocks: seq<CodeBlock>, enc: Encoding, fuel: nat)
    requires BlockTargetsIn(b, |blocks|) && TargetsIn(blocks)
    ensures BlockReturns(b, blocks, enc, fuel) <==> ReturnChain(b, blocks, enc, Walk(b, blocks, enc, fuel))
    decreases fuel
  {
    var w := Walk(b, blocks, enc, fuel);
    if w != [] {
      var t := w[0];
      assert w == [t] + Walk(blocks[t], blocks, enc, fuel - 1);
      assert w[1..] == Walk(blocks[t], blocks, enc, fuel - 1);
      BlockReturnsChain(blocks[t], blocks, enc, fuel - 1);
    }
  }

  /** A walk that returns needs no more links than it follows. */
  lemma {:induction false} WalkLength(b: CodeBlock, blocks: seq<CodeBlock>, enc: Encoding, fuel: nat)
    requires BlockTargetsIn(b, |blocks|) && TargetsIn(blocks) && BlockReturns(b, blocks, enc, fuel)
    ensures BlockReturns(b, blocks, enc, |Walk(b, blocks, enc, fuel)|)
    decreases fuel
  {
    var w := Walk(b, blocks, enc, fuel);
    if w != [] {
      var t := w[0];
      assert w == [t] + Walk(blocks[t], blocks, enc, fuel - 1);
      WalkLength(blocks[t], blocks, enc, fuel - 1);
    }
  }

  /** Once a walk returns, more fuel does not change it. */
  lemma {:induction false} WalkStable(b: CodeBlock, blocks: seq<CodeBlock>, enc: Encoding, fuel: nat, more: nat)
    requires BlockTargetsIn(b, |blocks|) && TargetsIn(blocks)
    requires fuel <= more && BlockReturns(b, blocks, enc, fuel)
    ensures Walk(b, blocks, enc, fuel) == Walk(b, blocks, enc, more)
    decreases fuel
  {
    if b.next.Some? {
      if b.jump.Some? && b.jump.value.kind.Jump? && enc.mostlyEmpty(blocks[b.jump.value.target]) {
        WalkStable(blocks[b.jump.value.target], blocks, enc, fuel - 1, more - 1);
      } else {
        WalkStable(blocks[b.next.value], blocks, enc, fuel - 1, more - 1);
      }
    }
  }

  /** After `p + 1` links the walk goes on from the block it reached. */
  lemma {:induction false} WalkSuffix(b: CodeBlock, blocks: seq<CodeBlock>, enc: Encoding, fuel: nat, p: nat)
    requires BlockTargetsIn(b, |blocks|) && TargetsIn(blocks)
    requires p < |Walk(b, blocks, enc, fuel)|
    ensures var w := Walk(b, blocks, enc, fuel);
      && p + 1 <= fuel
      && w[p + 1..] == Walk(blocks[w[p]], blocks, enc, fuel - p - 1)
    decreases p
  {
    var w := Walk(b, blocks, enc, fuel);
    var t := w[0];
    WalkStep(b, blocks, enc, fuel);
    var rest := Walk(blocks[t], blocks, enc, fuel - 1);
    if p > 0 {
      WalkSuffix(blocks[t], blocks, enc, fuel - 1, p - 1);
      assert w[p] == rest[p - 1];
      assert w[p + 1..] == rest[p..];
    }
  }

  /** A walk that moves on goes on from the first block it reaches. */
  lemma WalkStep(b: CodeBlock, blocks: seq<CodeBlock>, enc: Encoding, fuel: nat)
    requires BlockTargetsIn(b, |blocks|) && TargetsIn(blocks)
    requires Walk(b, blocks, enc, fuel) != []
    ensures var w := Walk(b, blocks, enc, fuel);
      fuel >= 1 && w == [w[0]] + Walk(blocks[w[0]], blocks, enc, fuel - 1)
  {
  }

  /** A walk that returns still returns from each block it reaches, with the links left. */
  lemma {:induction false} ReturnsSuffix(b: CodeBlock, blocks: seq<CodeBlock>, enc: Encoding, fuel: nat, p: nat)
    requires BlockTargetsIn(b, |blocks|) && TargetsIn(blocks) && BlockReturns(b, blocks, enc, fuel)
    requires p < |Walk(b, blocks, enc, fuel)|
    ensures p + 1 <= fuel && BlockReturns(blocks[Walk(b, blocks, enc, fuel)[p]], blocks, enc, fuel - p - 1)
    decreases p
  {
    var w := Walk(b, blocks, enc, fuel);
    var t := w[0];
    assert w == [t] + Walk(blocks[t], blocks, enc, fuel - 1);
    if p > 0 {
      ReturnsSuffix(blocks[t], blocks, enc, fuel - 1, p - 1);
      assert w[p] == Walk(blocks[t], blocks, enc, fuel - 1)[p - 1];
    }
  }

  predicate NoRepeats(s: seq<nat>) {
    forall i, j :: 0 <= i < j < |s| ==> s[i] != s[j]
  }

  /** A walk that returns never comes back to a block it has left: from the same block the
    walk is the same, and so is its length. */
  lemma WalkNoRepeats(b: CodeBlock, blocks: seq<CodeBlock>, enc: Encoding, fuel: nat)
    requires BlockTargetsIn(b, |blocks|) && TargetsIn(blocks) && BlockReturns(b, blocks, enc, fuel)
    ensures NoRepeats(Walk(b, blocks, enc, fuel))
  {
    var w := Walk(b, blocks, enc, fuel);
    forall i, j | 0 <= i < j < |w| ensures w[i] != w[j] {
      WalkSuffix(b, blocks, enc, fuel, i);
      WalkSuffix(b, blocks, enc, fuel, j);
      ReturnsSuffix(b, blocks, enc, fuel, j);
      if w[i] == w[j] {
        WalkStable(blocks[w[i]], blocks, enc, fuel - j - 1, fuel - i - 1);
        assert false;
      }
    }
  }

  function Elements(s: seq<nat>): set<nat> {
    if s == [] then {} else {s[0]} + Elements(s[1..])
  }

  lemma {:induction false} ElementsCount(s: seq<nat>, n: nat)
    requires NoRepeats(s) && forall k :: 0 <= k < |s| ==> s[k] < n
    ensures |Elements(s)| == |s| && forall x :: x in Elements(s) ==> x < n
  {
    if s != [] {
      ElementsCount(s[1..], n);
      assert s[0] !in Elements(s[1..]) by {
        ElementsIn(s[1..]);
        assert forall k :: 0 <= k < |s[1..]| ==> s[1..][k] == s[k + 1];
      }
    }
  }

  lemma {:induction false} ElementsIn(s: seq<nat>)
    ensures forall x :: x in Elements(s) ==> exists k :: 0 <= k < |s| && s[k] == x
  {
    if s != [] {
      ElementsIn(s[1..]);
      forall x | x in Elements(s) ensures exists k :: 0 <= k < |s| && s[k] == x {
        if x != s[0] {
          assert x in Elements(s[1..]);
          var k :| 0 <= k < |s[1..]| && s[1..][k] == x;
          assert s[k + 1] == x;
        }
      }
    }
  }

  /** `block_returns` follows no more links than there are blocks: the `|blocks|` links the
    layout allows it decide every block whose walk returns at all. Only on linked cycles,
    where the source loops for ever, does the model answer no. */
  lemma BlockReturnsEnough(b: CodeBlock, blocks: seq<CodeBlock>, enc: Encoding, fuel: nat)
    requires BlockTargetsIn(b, |blocks|) && TargetsIn(blocks) && BlockReturns(b, blocks, enc, fuel)
    ensures BlockReturns(b, blocks, enc, |blocks|)
  {
    var w := Walk(b, blocks, enc, fuel);
    WalkLength(b, blocks, enc, fuel);
    WalkNoRepeats(b, blocks, enc, fuel);
    ElementsCount(w, |blocks|);
    CardBelow(Elements(w), |blocks|);
    BlockReturnsMonotone(b, blocks, enc, |w|, |blocks|);
  }

  /** One turn of the layout loop: which block was visited, as what block (a block visited a
    second time has already been emptied), whether it returns and whether it was kept. */
  datatype Visit = Visit(index: nat, taken: CodeBlock, ends: bool, kept: bool)

  /** The block numbers a walk has visited. */
  function Indices(trace: seq<Visit>): set<nat> {
    if trace == [] then {} else Indices(trace[..|trace| - 1]) + {trace[|trace| - 1].index}
  }

  /** The block a conditional jump ending `b` leads to, if `b` ends in one. */
  function CondTarget(b: CodeBlock): set<nat> {
    if b.jump.Some? && !b.jump.value.kind.Jump? then {b.jump.value.target} else {}
  }

  /** The blocks that some visited block jumps to conditionally (the source's `must_live`). */
  function CondTargets(trace: seq<Visit>): set<nat> {
    if trace == [] then {} else CondTargets(trace[..|trace| - 1]) + CondTarget(trace[|trace| - 1].taken)
  }

  /** `b` ends in a conditional jump to block `i`. */
  predicate CondJumpTo(b: CodeBlock, i: nat) {
    b.jump.Some? && !b.jump.value.kind.Jump? && b.jump.value.target == i
  }

  lemma {:induction false} IndicesMeaning(trace: seq<Visit>, k: nat)
    ensures k in Indices(trace) <==> exists p :: 0 <= p < |trace| && trace[p].index == k
  {
    if trace != [] {
      var init := trace[..|trace| - 1];
      IndicesMeaning(init, k);
      if k in Indices(init) {
        var p :| 0 <= p < |init| && init[p].index == k;
        assert trace[p].index == k;
      }
      if exists p :: 0 <= p < |trace| && trace[p].index == k {
        var p :| 0 <= p < |trace| && trace[p].index == k;
        if p < |init| {
          assert init[p].index == k;
        }
      }
    }
  }

  lemma {:induction false} CondTargetsMeaning(trace: seq<Visit>, k: nat)
    ensures k in CondTargets(trace) <==> exists q :: 0 <= q < |trace| && CondJumpTo(trace[q].taken, k)
  {
    if trace != [] {
      var init := trace[..|trace| - 1];
      CondTargetsMeaning(init, k);
      if k in CondTargets(init) {
        var q :| 0 <= q < |init| && CondJumpTo(init[q].taken, k);
        assert trace[q] == init[q];
      }
      if exists q :: 0 <= q < |trace| && CondJumpTo(trace[q].taken, k) {
        var q :| 0 <= q < |trace| && CondJumpTo(trace[q].taken, k);
        if q < |init| {
          assert init[q] == trace[q];
        }
      }
    }
  }

  /** The block list with every block in `gone` replaced by an empty block. */
  function Erased(blocks: seq<CodeBlock>, gone: set<nat>): (r: seq<CodeBlock>)
    ensures |r| == |blocks|
    ensures forall k :: 0 <= k < |blocks| ==> r[k] == (if k in gone then EmptyBlock else blocks[k])
    ensures TargetsIn(blocks) ==> TargetsIn(r)
  {
    seq(|blocks|, k requires 0 <= k < |blocks| => if k in gone then EmptyBlock else blocks[k])
  }

  lemma ErasedIs(work: seq<CodeBlock>, blocks: seq<CodeBlock>, gone: set<nat>)
    requires |work| == |blocks|
    requires forall k :: 0 <= k < |blocks| ==> work[k] == (if k in gone then EmptyBlock else blocks[k])
    ensures work == Erased(blocks, gone)
  {
  }

  /** A kept block as it is written: a returning block loses its jump and ends in `Return`. */
  function LaidOut(v: Visit): CodeBlock {
    if v.ends then v.taken.(jump := None, instrs := v.taken.instrs + [Return]) else v.taken
  }

  /** The kept blocks of a walk, in the order they are written. */
  function KeptBlocks(trace: seq<Visit>): seq<CodeBlock> {
    if trace == [] then []
    else KeptBlocks(trace[..|trace| - 1]) + (if trace[|trace| - 1].kept then [LaidOut(trace[|trace| - 1])] else [])
  }

  /** The original block numbers of the kept blocks. */
  function KeptIndices(trace: seq<Visit>): (r: seq<nat>)
    ensures |r| == |KeptBlocks(trace)|
  {
    if trace == [] then []
    else KeptIndices(trace[..|trace| - 1]) + (if trace[|trace| - 1].kept then [trace[|trace| - 1].index] else [])
  }

  /** Visit `p` of a walk over `blocks` does what one turn of the layout loop does: it takes the
    block (already emptied if seen before), decides whether it returns in the list where every
    block seen so far is emptied, and drops it exactly when it returns, is mostly empty, and no
    block visited up to and including it jumps to it conditionally. */
  ghost predicate VisitOk(blocks: seq<CodeBlock>, enc: Encoding, trace: seq<Visit>, p: nat)
    requires TargetsIn(blocks) && p < |trace|
  {
    var v := trace[p];
    var seen := Indices(trace[..p]);
    && v.index < |blocks|
    && v.taken == (if v.index in seen then EmptyBlock else blocks[v.index])
    && v.ends == BlockReturns(v.taken, Erased(blocks, seen + {v.index}), enc, |blocks|)
    && (!v.kept <==> v.ends && enc.mostlyEmpty(v.taken) && v.index !in CondTargets(trace[..p + 1]))
  }

  /** Every visit of the walk is a correct turn of the layout loop. */
  ghost predicate TraceOk(blocks: seq<CodeBlock>, enc: Encoding, trace: seq<Visit>)
    requires TargetsIn(blocks)
  {
    trace == [] || (TraceOk(blocks, enc, trace[..|trace| - 1]) && VisitOk(blocks, enc, trace, |trace| - 1))
  }

  lemma {:induction false} TraceOkEach(blocks: seq<CodeBlock>, enc: Encoding, trace: seq<Visit>, p: nat)
    requires TargetsIn(blocks) && TraceOk(blocks, enc, trace) && p < |trace|
    ensures VisitOk(blocks, enc, trace, p)
  {
    var init := trace[..|trace| - 1];
    if p < |init| {
      TraceOkEach(blocks, enc, init, p);
      assert init[..p] == trace[..p] && init[..p + 1] == trace[..p + 1] && init[p] == trace[p];
    }
  }

  /** Consecutive visits follow `next` links. */
  ghost predicate Linked(trace: seq<Visit>) {
    |trace| <= 1 ||
    (Linked(trace[..|trace| - 1]) && trace[|trace| - 2].taken.next == Some(trace[|trace| - 1].index))
  }

  lemma {:induction false} LinkedEach(trace: seq<Visit>, p: nat)
    requires Linked(trace) && p + 1 < |trace|
    ensures trace[p].taken.next == Some(trace[p + 1].index)
  {
    var init := trace[..|trace| - 1];
    if p + 2 < |trace| {
      LinkedEach(init, p);
      assert init[p] == trace[p] && init[p + 1] == trace[p + 1];
    }
  }

  /** The walk of a layout: starts at block 0, follows each visited block's `next` link and
    ends at a block without one. */
  ghost predicate WalkOk(trace: seq<Visit>) {
    |trace| > 0 && trace[0].index == 0 && Linked(trace) && trace[|trace| - 1].taken.next.None?
  }

  lemma LinkedSnoc(trace: seq<Visit>, v: Visit)
    requires Linked(trace)
    requires |trace| > 0 ==> trace[|trace| - 1].taken.next == Some(v.index)
    ensures Linked(trace + [v]) && (trace + [v])[|trace|] == v
    ensures |trace| > 0 ==> (trace + [v])[0] == trace[0]
  {
    assert (trace + [v])[..|trace|] == trace;
  }

  /** Each kept block that is not laid out again later starts where the kept blocks before it
    end; blocks never kept have no offset. */
  ghost predicate OffsetsOk(offsets: seq<Option<nat>>, trace: seq<Visit>, enc: Encoding, short: bool) {
    var ki := KeptIndices(trace);
    && (forall k :: 0 <= k < |ki| ==> ki[k] < |offsets|)
    && (forall k :: 0 <= k < |ki| && ki[k] !in ki[k + 1..] ==>
          offsets[ki[k]] == Some(SumSizes(KeptBlocks(trace)[..k], enc, short)))
    && (forall i :: 0 <= i < |offsets| && i !in ki ==> offsets[i].None?)
  }

  /** The jump of `b`, if any, leads to a block that has an offset. */
  predicate JumpLive(b: CodeBlock, offsets: seq<Option<nat>>) {
    b.jump.Some? ==> b.jump.value.target < |offsets| && offsets[b.jump.value.target].Some?
  }

  /** A laid-out block with its jump target turned from a block number into a code offset. */
  function Rewritten(b: CodeBlock, offsets: seq<Option<nat>>): CodeBlock
    requires JumpLive(b, offsets)
  {
    if b.jump.None? then b
    else b.(jump := Some(JumpTo(b.jump.value.kind, offsets[b.jump.value.target].value)))
  }

  lemma {:induction false} CardBelow(s: set<nat>, n: nat)
    requires forall x :: x in s ==> x < n
    ensures |s| <= n
  {
    if n > 0 {
      CardBelow(s - {n - 1}, n - 1);
    } else {
      assert s == {};
    }
  }

  lemma CardAddOne(s: set<nat>, x: nat)
    ensures x !in s ==> |s + {x}| == |s| + 1
    ensures x in s ==> s + {x} == s
  {
  }

  lemma AppendPrefixes(trace: seq<Visit>, v: Visit)
    ensures (trace + [v])[..|trace|] == trace && (trace + [v])[..|trace| + 1] == trace + [v]
    ensures Indices(trace + [v]) == Indices(trace) + {v.index}
    ensures CondTargets(trace + [v]) == CondTargets(trace) + CondTarget(v.taken)
    ensures KeptBlocks(trace + [v]) == KeptBlocks(trace) + (if v.kept then [LaidOut(v)] else [])
    ensures KeptIndices(trace + [v]) == KeptIndices(trace) + (if v.kept then [v.index] else [])
  {
    var t := trace + [v];
    assert t[..|trace|] == trace;
    assert t != [] && t[|t| - 1] == v;
  }

  lemma OffsetsExtend(offsets: seq<Option<nat>>, trace: seq<Visit>, enc: Encoding, short: bool,
                      v: Visit, off: nat)
    requires OffsetsOk(offsets, trace, enc, short) && v.index < |offsets|
    requires off == SumSizes(KeptBlocks(trace), enc, short)
    ensures OffsetsOk(if v.kept then offsets[v.index := Some(off)] else offsets, trace + [v], enc, short)
  {
    AppendPrefixes(trace, v);
    var ki := KeptIndices(trace);
    var kb := KeptBlocks(trace);
    var ki' := KeptIndices(trace + [v]);
    var kb' := KeptBlocks(trace + [v]);
    var offsets' := if v.kept then offsets[v.index := Some(off)] else offsets;
    forall k | 0 <= k < |ki'| && ki'[k] !in ki'[k + 1..]
      ensures offsets'[ki'[k]] == Some(SumSizes(kb'[..k], enc, short))
    {
      if k < |ki| {
        assert ki'[k] == ki[k] && kb'[..k] == kb[..k];
        assert ki[k + 1..] <= ki'[k + 1..];
        if v.kept {
          assert ki'[|ki|] == v.index;
          assert ki'[k] != v.index;
        }
      } else {
        assert kb'[..k] == kb;
      }
    }
  }

  /** The offsets table the layout loop builds along a walk over `n` blocks: each kept block
    gets the total size of the kept blocks before it. */
  function OffsetsOf(trace: seq<Visit>, n: nat, enc: Encoding, short: bool): (r: seq<Option<nat>>)
    ensures |r| == n
  {
    if trace == [] then seq(n, _ => None)
    else
      var init := trace[..|trace| - 1];
      var v := trace[|trace| - 1];
      if v.kept && v.index < n then OffsetsOf(init, n, enc, short)[v.index := Some(SumSizes(KeptBlocks(init), enc, short))]
      else OffsetsOf(init, n, enc, short)
  }

  lemma OffsetsOfSnoc(trace: seq<Visit>, v: Visit, n: nat, enc: Encoding, short: bool)
    ensures OffsetsOf(trace + [v], n, enc, short) ==
      if v.kept && v.index < n then OffsetsOf(trace, n, enc, short)[v.index := Some(SumSizes(KeptBlocks(trace), enc, short))]
      else OffsetsOf(trace, n, enc, short)
  {
    var t := trace + [v];
    assert t[..|trace|] == trace && t[|t| - 1] == v;
  }

  /** The table built along a walk gives each kept block the position where it is written. */
  lemma {:induction false} OffsetsOfOk(trace: seq<Visit>, n: nat, enc: Encoding, short: bool)
    requires forall p :: 0 <= p < |trace| ==> trace[p].index < n
    ensures OffsetsOk(OffsetsOf(trace, n, enc, short), trace, enc, short)
  {
    if trace != [] {
      var init := trace[..|trace| - 1];
      var v := trace[|trace| - 1];
      assert init + [v] == trace;
      OffsetsOfOk(init, n, enc, short);
      OffsetsExtend(OffsetsOf(init, n, enc, short), init, enc, short, v, SumSizes(KeptBlocks(init), enc, short));
    } else {
      assert KeptIndices(trace) == [];
    }
  }

  /** One turn of the layout loop extends a correct walk to a correct walk. */
  lemma StepOk(blocks: seq<CodeBlock>, enc: Encoding, trace: seq<Visit>, v: Visit)
    requires TargetsIn(blocks) && TraceOk(blocks, enc, trace)
    requires v.index < |blocks|
    requires v.taken == (if v.index in Indices(trace) then EmptyBlock else blocks[v.index])
    requires v.ends == BlockReturns(v.taken, Erased(blocks, Indices(trace) + {v.index}), enc, |blocks|)
    requires v.kept == !(v.ends && enc.mostlyEmpty(v.taken) && v.index !in CondTargets(trace) + CondTarget(v.taken))
    ensures TraceOk(blocks, enc, trace + [v])
  {
    AppendPrefixes(trace, v);
  }

  /** The bookkeeping of one turn of the layout loop: empties block `i` in the working list,
    records its conditional jump target, decides whether it returns and whether it is kept, and
    gives the block as it will be written. */
  method TakeBlock(work: seq<CodeBlock>, mustLive: seq<bool>, i: nat, enc: Encoding)
    returns (laid: CodeBlock, ends: bool, keep: bool, mustLive': seq<bool>, work': seq<CodeBlock>)
    requires i < |work| == |mustLive| && TargetsIn(work)
    ensures work' == work[i := EmptyBlock] && TargetsIn(work')
    ensures |mustLive'| == |mustLive|
    ensures forall k :: 0 <= k < |mustLive| ==> (mustLive'[k] <==> mustLive[k] || k in CondTarget(work[i]))
    ensures ends == BlockReturns(work[i], work', enc, |work|)
    ensures keep == !(ends && enc.mostlyEmpty(work[i]) && !mustLive'[i])
    ensures keep ==> laid == LaidOut(Visit(i, work[i], ends, keep))
  {
    var b := work[i];
    work' := work[i := EmptyBlock];
    mustLive' := mustLive;
    match b.jump {
      case Some(JumpTo(Jump, _)) =>
      case Some(JumpTo(_, t)) => mustLive' := mustLive[t := true];
      case None =>
    }
    ends := BlockReturns(b, work', enc, |work|);
    keep := true;
    laid := b;
    if ends {
      keep := mustLive'[i] || !enc.mostlyEmpty(b);
      if keep {
        laid := b.(jump := None, instrs := b.instrs + [Return]);
      }
    }
  }

  /** What the layout loop keeps true of its state after the turns recorded in `trace`: the
    working list has every visited block emptied, `must_live` holds the conditional jump targets
    seen so far, and the kept blocks, their offsets and their total size are those of the walk. */
  ghost predicate LayoutInv(blocks: seq<CodeBlock>, enc: Encoding, short: bool,
                            work: seq<CodeBlock>, mustLive: seq<bool>, offsets: seq<Option<nat>>,
                            newBlocks: seq<CodeBlock>, off: nat, trace: seq<Visit>)
    requires TargetsIn(blocks)
  {
    && |work| == |blocks| && |mustLive| == |blocks|
    && work == Erased(blocks, Indices(trace))
    && (forall x :: x in Indices(trace) ==> x < |blocks|)
    && TraceOk(blocks, enc, trace)
    && (forall k :: 0 <= k < |blocks| ==> (mustLive[k] <==> k in CondTargets(trace)))
    && newBlocks == KeptBlocks(trace) && off == SumSizes(newBlocks, enc, short)
    && offsets == OffsetsOf(trace, |blocks|, enc, short)
  }

  lemma LayoutInvInit(blocks: seq<CodeBlock>, enc: Encoding, short: bool)
    requires TargetsIn(blocks)
    ensures LayoutInv(blocks, enc, short, blocks, seq(|blocks|, _ => false), seq(|blocks|, _ => None), [], 0, [])
  {
    assert blocks == Erased(blocks, {});
  }

  /** One turn of the layout loop, as TakeBlock and the bookkeeping after it perform it,
    keeps the loop invariant. */
  lemma TurnOk(blocks: seq<CodeBlock>, enc: Encoding, short: bool,
               work: seq<CodeBlock>, mustLive: seq<bool>, offsets: seq<Option<nat>>,
               newBlocks: seq<CodeBlock>, off: nat, trace: seq<Visit>, i: nat,
               b: CodeBlock, ends: bool, keep: bool, mustLive': seq<bool>, work': seq<CodeBlock>)
    requires TargetsIn(blocks) && i < |blocks|
    requires LayoutInv(blocks, enc, short, work, mustLive, offsets, newBlocks, off, trace)
    requires work' == work[i := EmptyBlock]
    requires |mustLive'| == |mustLive|
    requires forall k :: 0 <= k < |mustLive| ==> (mustLive'[k] <==> mustLive[k] || k in CondTarget(work[i]))
    requires ends == BlockReturns(work[i], work', enc, |work|)
    requires keep == !(ends && enc.mostlyEmpty(work[i]) && !mustLive'[i])
    requires keep ==> b == LaidOut(Visit(i, work[i], ends, keep))
    ensures LayoutInv(blocks, enc, short, work', mustLive',
                      if keep then offsets[i := Some(off)] else offsets,
                      if keep then newBlocks + [b] else newBlocks,
                      if keep then off + enc.size(b, short) else off,
                      trace + [Visit(i, work[i], ends, keep)])
    ensures Indices(trace + [Visit(i, work[i], ends, keep)]) == Indices(trace) + {i}
  {
    var v := Visit(i, work[i], ends, keep);
    var t := trace + [v];
    AppendPrefixes(trace, v);
    assert work' == Erased(blocks, Indices(t)) by {
      ErasedIs(work', blocks, Indices(trace) + {i});
    }
    assert TraceOk(blocks, enc, t) by {
      StepOk(blocks, enc, trace, v);
    }
    assert forall k :: 0 <= k < |blocks| ==> (mustLive'[k] <==> k in CondTargets(t));
    TurnKept(blocks, enc, short, offsets, newBlocks, off, trace, v, b);
  }

  /** The laid-out blocks, the offset reached and the offsets recorded follow the trace. */
  lemma TurnKept(blocks: seq<CodeBlock>, enc: Encoding, short: bool, offsets: seq<Option<nat>>,
                 newBlocks: seq<CodeBlock>, off: nat, trace: seq<Visit>, v: Visit, b: CodeBlock)
    requires v.index < |blocks|
    requires newBlocks == KeptBlocks(trace) && off == SumSizes(newBlocks, enc, short)
    requires offsets == OffsetsOf(trace, |blocks|, enc, short)
    requires v.kept ==> b == LaidOut(v)
    ensures var t := trace + [v];
      && (if v.kept then newBlocks + [b] else newBlocks) == KeptBlocks(t)
      && (if v.kept then off + enc.size(b, short) else off) == SumSizes(KeptBlocks(t), enc, short)
      && (if v.kept then offsets[v.index := Some(off)] else offsets) == OffsetsOf(t, |blocks|, enc, short)
  {
    AppendPrefixes(trace, v);
    if v.kept {
      SumSizesSnoc(newBlocks, b, enc, short);
    }
    OffsetsOfSnoc(trace, v, |blocks|, enc, short);
  }

  /** One turn of the layout loop: takes block `i` out of the working list and, if it is kept,
    appends it to the laid-out blocks at the current offset. */
  method Turn(blocks: seq<CodeBlock>, enc: Encoding, short: bool,
              work: seq<CodeBlock>, mustLive: seq<bool>, offsets: seq<Option<nat>>,
              newBlocks: seq<CodeBlock>, off: nat, ghost trace: seq<Visit>, i: nat)
    returns (work': seq<CodeBlock>, mustLive': seq<bool>, offsets': seq<Option<nat>>,
             newBlocks': seq<CodeBlock>, off': nat, ghost v: Visit)
    requires TargetsIn(blocks) && i < |blocks|
    requires LayoutInv(blocks, enc, short, work, mustLive, offsets, newBlocks, off, trace)
    ensures v.index == i && v.taken == work[i]
    ensures v.taken == (if i in Indices(trace) then EmptyBlock else blocks[i])
    ensures LayoutInv(blocks, enc, short, work', mustLive', offsets', newBlocks', off', trace + [v])
    ensures Indices(trace + [v]) == Indices(trace) + {i}
  {
    var b, ends, keep;
    b, ends, keep, mustLive', work' := TakeBlock(work, mustLive, i, enc);
    offsets', newBlocks', off' := offsets, newBlocks, off;
    if keep {
      offsets' := offsets[i := Some(off)];
      newBlocks' := newBlocks + [b];
      off' := off + enc.size(b, short);
    }
    TurnOk(blocks, enc, short, work, mustLive, offsets, newBlocks, off, trace, i,
           b, ends, keep, mustLive', work');
    v := Visit(i, work[i], ends, keep);
  }

  /** The block-walking loop of `write_jumps`: visits the blocks along their `next` links,
    keeps or drops each one, and records where each kept block starts. */
  method LayOut(blocks: seq<CodeBlock>, enc: Encoding, short: bool)
    returns (newBlocks: seq<CodeBlock>, offsets: seq<Option<nat>>, off: nat, ghost trace: seq<Visit>)
    requires |blocks| > 0 && TargetsIn(blocks)
    ensures WalkOk(trace) && TraceOk(blocks, enc, trace)
    ensures newBlocks == KeptBlocks(trace) && off == SumSizes(newBlocks, enc, short)
    ensures offsets == OffsetsOf(trace, |blocks|, enc, short)
  {
    var n := |blocks|;
    var work := blocks;
    newBlocks := [];
    offsets := seq(n, _ => None);
    var mustLive := seq(n, _ => false);
    off := 0;
    var i := 0;
    var done := false;
    trace := [];
    LayoutInvInit(blocks, enc, short);

    while !done
      invariant LayoutInv(blocks, enc, short, work, mustLive, offsets, newBlocks, off, trace)
      invariant !done ==> i < n
      invariant |trace| == 0 ==> i == 0 && !done
      invariant |trace| > 0 ==>
        trace[0].index == 0 && Linked(trace) &&
        trace[|trace| - 1].taken.next == (if done then None else Some(i))
      decreases n - |Indices(trace)|, if done then 0 else 1
    {
      CardBelow(Indices(trace), n);
      ghost var seen := Indices(trace);
      var next := work[i].next;
      ghost var v;
      work, mustLive, offsets, newBlocks, off, v :=
        Turn(blocks, enc, short, work, mustLive, offsets, newBlocks, off, trace, i);
      LinkedSnoc(trace, v);
      trace := trace + [v];
      CardBelow(Indices(trace), n);
      CardAddOne(seen, i);

      match next {
        case Some(m) => i := m;
        case None => done := true;
      }
    }
  }

  /** The final loop of `write_jumps`: rewrites each jump to the offset of its target block,
    failing on a jump to a block that was dropped. */
  method RewriteJumps(laid: seq<CodeBlock>, offsets: seq<Option<nat>>)
    returns (r: Result<seq<CodeBlock>, Error>)
    ensures r.Ok? <==> forall k :: 0 <= k < |laid| ==> JumpLive(laid[k], offsets)
    ensures r.Err? ==> r.error == Panic("jump to dead block")
    ensures r.Ok? ==> |r.value| == |laid| && forall k :: 0 <= k < |laid| ==> r.value[k] == Rewritten(laid[k], offsets)
  {
    var k := 0;
    var out := laid;
    while k < |out|
      invariant 0 <= k <= |out| == |laid|
      invariant forall j :: 0 <= j < k ==> JumpLive(laid[j], offsets) && out[j] == Rewritten(laid[j], offsets)
      invariant forall j :: k <= j < |out| ==> out[j] == laid[j]
    {
      var b := out[k];
      if b.jump.Some? {
        var dest := b.jump.value.target;
        if dest >= |offsets| || offsets[dest].None? {
          assert !JumpLive(laid[k], offsets);
          return Err(Panic("jump to dead block"));
        }
        out := out[k := b.(jump := Some(JumpTo(b.jump.value.kind, offsets[dest].value)))];
      }
      k := k + 1;
    }
    r := Ok(out);
  }

  /** `write_jumps`: lays the blocks out along their `next` links from block 0, drops
    mostly-empty returning blocks that no block visited so far jumps to conditionally, gives
    each kept block the offset where it starts, and rewrites every jump to the offset of its
    target. A jump to a dropped block trips the source's assertion, reported as a panic. */
  method WriteJumps(blocks: seq<CodeBlock>, enc: Encoding)
    returns (r: Result<(seq<CodeBlock>, nat), Error>,
             ghost trace: seq<Visit>, offsets: seq<Option<nat>>, short: bool)
    requires |blocks| > 0 && TargetsIn(blocks)
    // operand width: short only if the whole estimate fits a short operand
    ensures short == (EstimateSize(blocks, enc) <= enc.maxShortOperand)
    ensures WalkOk(trace) && TraceOk(blocks, enc, trace)
    ensures |offsets| == |blocks| && OffsetsOk(offsets, trace, enc, short)
    // result: the kept blocks with their jumps rewritten, and their total size; or a jump to a dropped block
    ensures r.Ok? <==> forall k :: 0 <= k < |KeptBlocks(trace)| ==> JumpLive(KeptBlocks(trace)[k], offsets)
    ensures r.Err? ==> r.error == Panic("jump to dead block")
    ensures r.Ok? ==>
      && r.value.1 == SumSizes(KeptBlocks(trace), enc, short)
      && |r.value.0| == |KeptBlocks(trace)|
      && forall k :: 0 <= k < |r.value.0| ==> r.value.0[k] == Rewritten(KeptBlocks(trace)[k], offsets)
  {
    short := EstimateSize(blocks, enc) <= enc.maxShortOperand;
    var newBlocks, off;
    newBlocks, offsets, off, trace := LayOut(blocks, enc, short);
    forall p | 0 <= p < |trace| ensures trace[p].index < |blocks| {
      TraceOkEach(blocks, enc, trace, p);
    }
    OffsetsOfOk(trace, |blocks|, enc, short);
    var rewritten := RewriteJumps(newBlocks, offsets);
    match rewritten {
      case Ok(bs) => r := Ok((bs, off));
      case Err(e) => r := Err(e);
    }
  }
}
