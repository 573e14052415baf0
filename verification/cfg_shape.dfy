/**
 * What a control-flow graph built from a linear instruction list looks
 * like (materials/src/ir/optimizer/CFG.java), stated on values: a block
 * is a sequence of instruction ids (positions in the function's list),
 * the label map sends a name to a block position, and a successor or
 * predecessor is a block position.
 *
 * The class `ControlFlow.CFG` builds its blocks in place; its methods are
 * proved to produce exactly what this module describes, and the lemmas
 * here are the properties that description has.
 */
module CfgShape {
  import opened IR

  // ---------------------------------------------------------------------
  // Opcode tests used by the builder

  /** `branchOpCheck`: the five conditional branches. */
  predicate BranchOpCheck(op: OpCode)
  {
    op == BREQ || op == BRNEQ || op == BRLT || op == BRGT || op == BRGEQ
  }

  /** `controlFlowCheck`: the instructions that close a block (GOTO and the branches, not RETURN). */
  predicate ControlFlowCheck(i: Instr)
  {
    BranchOpCheck(i.opCode) || i.opCode == GOTO
  }

  lemma ControlFlowOpcodes(i: Instr)
    ensures ControlFlowCheck(i) <==> i.opCode in {GOTO, BREQ, BRNEQ, BRLT, BRGT, BRGEQ}
    ensures ControlFlowCheck(i) ==> IsCritical(i) && !IsDef(i)
    ensures i.opCode == RETURN ==> !ControlFlowCheck(i)
  {
  }

  /**
   * The operand shapes the builder dereferences without checking: a LABEL
   * has an operand 0 (its name), and a GOTO or branch has a label operand 0
   * (its target). Anything else ends the Java code with an exception.
   */
  predicate WellFormedCode(code: seq<Instr>)
  {
    forall i :: 0 <= i < |code| ==>
      (code[i].opCode == LABEL ==> |code[i].operands| > 0) &&
      (ControlFlowCheck(code[i]) ==> |code[i].operands| > 0 && code[i].operands[0].Label?)
  }

  /** The name a LABEL instruction registers, or None for any other instruction. */
  function LabelOf(i: Instr): Option<string>
  {
    if i.opCode == LABEL && |i.operands| > 0 then Some(Text(i.operands[0])) else None
  }

  // ---------------------------------------------------------------------
  // Sequences of ids

  /** The ids 0, 1, ..., n - 1 in order. */
  function Range(n: nat): (r: seq<nat>)
    ensures |r| == n
    ensures forall j :: 0 <= j < n ==> r[j] == j
  {
    if n == 0 then [] else Range(n - 1) + [n - 1]
  }

  /** The blocks' contents one after another, in list order. */
  function Concat(bs: seq<seq<nat>>): seq<nat>
  {
    if bs == [] then [] else Concat(bs[..|bs| - 1]) + bs[|bs| - 1]
  }

  lemma ConcatAppend(bs: seq<seq<nat>>, b: seq<nat>)
    ensures Concat(bs + [b]) == Concat(bs) + b
  {
    assert (bs + [b])[..|bs|] == bs;
  }

  /** Total number of ids held by the blocks. */
  function TotalSize(bs: seq<seq<nat>>): (n: nat)
    ensures n == |Concat(bs)|
  {
    if bs == [] then 0 else TotalSize(bs[..|bs| - 1]) + |bs[|bs| - 1]|
  }

  function Last(b: seq<nat>): nat
    requires |b| > 0
  {
    b[|b| - 1]
  }

  /** The instructions an id list stands for. */
  function Instrs(code: seq<Instr>, ids: seq<nat>): (r: seq<Instr>)
    requires forall j :: 0 <= j < |ids| ==> ids[j] < |code|
    ensures |r| == |ids|
    ensures forall j :: 0 <= j < |ids| ==> r[j] == code[ids[j]]
  {
    if ids == [] then [] else Instrs(code, ids[..|ids| - 1]) + [code[ids[|ids| - 1]]]
  }

  lemma InstrsAppend(code: seq<Instr>, a: seq<nat>, b: seq<nat>)
    requires IdsIn(code, a) && IdsIn(code, b)
    ensures IdsIn(code, a + b)
    ensures Instrs(code, a + b) == Instrs(code, a) + Instrs(code, b)
  {
  }

  /** Reading one more block extends the flattened instructions by that block's. */
  lemma FlattenStep(code: seq<Instr>, bs: seq<seq<nat>>, k: nat)
    requires k < |bs| && IdsIn(code, Concat(bs[..k])) && IdsIn(code, bs[k])
    ensures IdsIn(code, Concat(bs[..k + 1]))
    ensures Instrs(code, Concat(bs[..k + 1])) == Instrs(code, Concat(bs[..k])) + Instrs(code, bs[k])
  {
    assert bs[..k + 1] == bs[..k] + [bs[k]];
    ConcatAppend(bs[..k], bs[k]);
    InstrsAppend(code, Concat(bs[..k]), bs[k]);
  }

  /** Blocks whose ids are all valid concatenate to valid ids. */
  lemma {:induction false} ConcatIdsIn(code: seq<Instr>, bs: seq<seq<nat>>)
    requires forall k :: 0 <= k < |bs| ==> IdsIn(code, bs[k])
    ensures IdsIn(code, Concat(bs))
  {
    if bs != [] {
      var init := bs[..|bs| - 1];
      ConcatIdsIn(code, init);
      assert IdsIn(code, bs[|bs| - 1]);
    }
  }

  /** Reading the ids 0 .. |code| - 1 back gives the whole list. */
  lemma InstrsOfRange(code: seq<Instr>)
    ensures Instrs(code, Range(|code|)) == code
  {
  }

  // ---------------------------------------------------------------------
  // Block shape

  predicate IdsIn(code: seq<Instr>, b: seq<nat>)
  {
    forall j :: 0 <= j < |b| ==> b[j] < |code|
  }

  /**
   * A block holds at least one instruction, a GOTO or branch only in its
   * last place and a LABEL only in its first.
   */
  predicate BlockShape(code: seq<Instr>, b: seq<nat>)
  {
    && |b| > 0
    && IdsIn(code, b)
    && (forall j :: 0 <= j < |b| && ControlFlowCheck(code[b[j]]) ==> j == |b| - 1)
    && (forall j :: 0 <= j < |b| && code[b[j]].opCode == LABEL ==> j == 0)
  }

  /** Why `next` begins a new block right after `prev`: it opens with a LABEL, or `prev` closed on a jump. */
  predicate Boundary(code: seq<Instr>, prev: seq<nat>, next: seq<nat>)
    requires BlockShape(code, prev) && BlockShape(code, next)
  {
    code[next[0]].opCode == LABEL || ControlFlowCheck(code[Last(prev)])
  }

  /** The boundary between block `k - 1` and block `k` of `bs` has a reason. */
  predicate Seam(code: seq<Instr>, bs: seq<seq<nat>>, k: nat)
    requires 0 < k < |bs| && BlockShape(code, bs[k - 1]) && BlockShape(code, bs[k])
  {
    Boundary(code, bs[k - 1], bs[k])
  }

  /**
   * `bs` partitions the function: read in order the blocks give back every
   * id exactly once in program order, every block is well shaped, and every
   * boundary between neighbours has a reason.
   */
  predicate IsPartition(code: seq<Instr>, bs: seq<seq<nat>>)
  {
    && Concat(bs) == Range(|code|)
    && (forall k :: 0 <= k < |bs| ==> BlockShape(code, bs[k]))
    && (forall k :: 0 < k < |bs| ==> Seam(code, bs, k))
  }

  lemma NoBoundaryWithoutJumpOrLabel(code: seq<Instr>, prev: seq<nat>, next: seq<nat>)
    requires BlockShape(code, prev) && BlockShape(code, next)
    requires forall i :: 0 <= i < |code| ==> code[i].opCode != LABEL && !ControlFlowCheck(code[i])
    ensures !Boundary(code, prev, next)
  {
  }

  /** A LABEL-free, jump-free, non-empty function is a single block. */
  lemma {:induction false} StraightLineIsOneBlock(code: seq<Instr>, bs: seq<seq<nat>>)
    requires IsPartition(code, bs)
    requires |code| > 0
    requires forall i :: 0 <= i < |code| ==> code[i].opCode != LABEL && !ControlFlowCheck(code[i])
    ensures |bs| == 1 && bs[0] == Range(|code|)
  {
    if |bs| > 1 {
      assert Seam(code, bs, 1);
      NoBoundaryWithoutJumpOrLabel(code, bs[0], bs[1]);
    }
    assert |bs| == 1;
    assert bs == [] + [bs[0]];
    assert Concat(bs) == Concat([]) + bs[0];
  }

  /** The name a block's opening LABEL registers, if it opens with one. */
  function BlockLabel(code: seq<Instr>, b: seq<nat>): Option<string>
  {
    if |b| > 0 && b[0] < |code| then LabelOf(code[b[0]]) else None
  }

  /** The `label` field of block k holding ids b: its LABEL's name, "start" for an unlabelled first block, else "". */
  function BlockName(code: seq<Instr>, b: seq<nat>, k: nat): string
  {
    match BlockLabel(code, b)
    case Some(name) => name
    case None => if k == 0 then "start" else ""
  }

  /** The opening-LABEL name of every block, in block order. */
  function LabelsOf(code: seq<Instr>, bs: seq<seq<nat>>): (ls: seq<Option<string>>)
    ensures |ls| == |bs|
    ensures forall k :: 0 <= k < |bs| ==> ls[k] == BlockLabel(code, bs[k])
  {
    seq(|bs|, k requires 0 <= k < |bs| => BlockLabel(code, bs[k]))
  }

  /**
   * A label map over the blocks' label names `ls`: "start" is always a key;
   * a key names the last block that opens with that LABEL, or is "start"
   * sent to block 0 when no block carries that name; and every block's
   * LABEL name is a key.
   */
  predicate LabelMapOk(ls: seq<Option<string>>, m: map<string, nat>)
  {
    && "start" in m
    && (forall name :: name in m ==>
          (m[name] < |ls| && ls[m[name]] == Some(name)) ||
          (name == "start" && m[name] == 0 && Some("start") !in ls))
    && (forall k :: 0 <= k < |ls| && ls[k].Some? ==> ls[k].value in m && k <= m[ls[k].value])
  }

  predicate LabelMapSpec(code: seq<Instr>, bs: seq<seq<nat>>, m: map<string, nat>)
  {
    LabelMapOk(LabelsOf(code, bs), m)
  }

  /** A map that meets the spec sends each name to the LAST block opening with that label. */
  lemma LabelMapPicksLast(ls: seq<Option<string>>, m: map<string, nat>, k: nat, name: string)
    requires LabelMapOk(ls, m)
    requires k < |ls| && ls[k] == Some(name)
    ensures name in m && k <= m[name] < |ls| && ls[m[name]] == Some(name)
    ensures forall k' :: m[name] < k' < |ls| ==> ls[k'] != Some(name)
  {
  }

  // ---------------------------------------------------------------------
  // Edges

  /** The branch target label's block, when the label is in the map. */
  function TargetOf(i: Instr, m: map<string, nat>): seq<nat>
    requires |i.operands| > 0 && i.operands[0].Label?
  {
    var name := i.operands[0].name;
    if name in m then [m[name]] else []
  }

  /** Block k's terminal instruction. */
  function Terminal(code: seq<Instr>, bs: seq<seq<nat>>, k: nat): Instr
    requires k < |bs| && BlockShape(code, bs[k])
  {
    code[Last(bs[k])]
  }

  /**
   * The successors block k receives: GOTO gives its target; a branch its
   * target and then the next block, if any; RETURN none; anything else the
   * next block, if any.
   */
  function Succs(code: seq<Instr>, bs: seq<seq<nat>>, m: map<string, nat>, k: nat): seq<nat>
    requires WellFormedCode(code)
    requires k < |bs| && BlockShape(code, bs[k])
  {
    var last := Terminal(code, bs, k);
    var next := if k + 1 < |bs| then [k + 1] else [];
    if last.opCode == GOTO then TargetOf(last, m)
    else if BranchOpCheck(last.opCode) then TargetOf(last, m) + next
    else if last.opCode == RETURN then []
    else next
  }

  /** The successor lists of blocks 0 .. n - 1, in block order. */
  function SuccRows(code: seq<Instr>, bs: seq<seq<nat>>, m: map<string, nat>, n: nat): (s: seq<seq<nat>>)
    requires WellFormedCode(code) && n <= |bs|
    requires forall k :: 0 <= k < |bs| ==> BlockShape(code, bs[k])
    ensures |s| == n
  {
    if n == 0 then [] else SuccRows(code, bs, m, n - 1) + [Succs(code, bs, m, n - 1)]
  }

  /** The successor lists of all blocks, in block order. */
  function SuccTable(code: seq<Instr>, bs: seq<seq<nat>>, m: map<string, nat>): (s: seq<seq<nat>>)
    requires WellFormedCode(code)
    requires forall k :: 0 <= k < |bs| ==> BlockShape(code, bs[k])
    ensures |s| == |bs|
  {
    SuccRows(code, bs, m, |bs|)
  }

  lemma {:induction false} SuccRowsAt(code: seq<Instr>, bs: seq<seq<nat>>, m: map<string, nat>, n: nat, k: nat)
    requires WellFormedCode(code) && n <= |bs|
    requires forall k :: 0 <= k < |bs| ==> BlockShape(code, bs[k])
    requires k < n
    ensures SuccRows(code, bs, m, n)[k] == Succs(code, bs, m, k)
  {
    if k < n - 1 {
      SuccRowsAt(code, bs, m, n - 1, k);
    }
  }

  /** Row k of the table is block k's successor list. */
  lemma SuccTableAt(code: seq<Instr>, bs: seq<seq<nat>>, m: map<string, nat>, k: nat)
    requires WellFormedCode(code)
    requires forall k :: 0 <= k < |bs| ==> BlockShape(code, bs[k])
    requires k < |bs|
    ensures SuccTable(code, bs, m)[k] == Succs(code, bs, m, k)
  {
    SuccRowsAt(code, bs, m, |bs|, k);
  }

  /** The name block k jumps to when that name is not in the map. */
  function MissingTarget(code: seq<Instr>, bs: seq<seq<nat>>, m: map<string, nat>, k: nat): Option<string>
    requires WellFormedCode(code)
    requires k < |bs| && BlockShape(code, bs[k])
  {
    var last := Terminal(code, bs, k);
    if ControlFlowCheck(last) && last.operands[0].name !in m then Some(last.operands[0].name) else None
  }

  /** The first missing target among blocks from, from + 1, ...: where linking stops. */
  function LinkFault(code: seq<Instr>, bs: seq<seq<nat>>, m: map<string, nat>, from: nat): Option<string>
    requires WellFormedCode(code)
    requires forall k :: 0 <= k < |bs| ==> BlockShape(code, bs[k])
    decreases |bs| - from
  {
    if from >= |bs| then None
    else if MissingTarget(code, bs, m, from).Some? then MissingTarget(code, bs, m, from)
    else LinkFault(code, bs, m, from + 1)
  }

  /** Linking succeeds exactly when no GOTO or branch names a label missing from the map. */
  lemma {:induction false} LinkFaultNone(code: seq<Instr>, bs: seq<seq<nat>>, m: map<string, nat>, from: nat)
    requires WellFormedCode(code)
    requires forall k :: 0 <= k < |bs| ==> BlockShape(code, bs[k])
    ensures LinkFault(code, bs, m, from) == None <==>
      forall k :: from <= k < |bs| ==> MissingTarget(code, bs, m, k) == None
    decreases |bs| - from
  {
    if from < |bs| {
      LinkFaultNone(code, bs, m, from + 1);
    }
  }

  /** One entry `b` for each occurrence of `a` in `succs`. */
  function EdgesTo(b: nat, succs: seq<nat>, a: nat): seq<nat>
  {
    if succs == [] then []
    else EdgesTo(b, succs[..|succs| - 1], a) + (if succs[|succs| - 1] == a then [b] else [])
  }

  /**
   * The predecessor list block a receives when blocks 0 .. n - 1 are linked
   * in order: each block b contributes one entry b per edge b -> a.
   */
  function PredsFrom(s: seq<seq<nat>>, a: nat, n: nat): seq<nat>
    requires n <= |s|
  {
    if n == 0 then [] else PredsFrom(s, a, n - 1) + EdgesTo(n - 1, s[n - 1], a)
  }

  /** Block k's successor list while block `from` is being linked and has received `ts` so far. */
  function SuccSoFar(s: seq<seq<nat>>, from: nat, ts: seq<nat>, k: nat): seq<nat>
    requires k < |s|
  {
    if k < from then s[k] else if k == from then ts else []
  }

  /** Block a's predecessor list while block `from` is being linked and has sent `ts` so far. */
  function PredSoFar(s: seq<seq<nat>>, from: nat, ts: seq<nat>, a: nat): seq<nat>
    requires from <= |s|
  {
    PredsFrom(s, a, from) + EdgesTo(from, ts, a)
  }

  /** One more edge from -> t: one more successor of `from`, one more predecessor of t. */
  lemma LinkOne(s: seq<seq<nat>>, from: nat, ts: seq<nat>, t: nat, a: nat)
    requires from < |s|
    ensures PredSoFar(s, from, ts + [t], a) == PredSoFar(s, from, ts, a) + (if t == a then [from] else [])
  {
    assert (ts + [t])[..|ts|] == ts;
  }

  /** Block `from` fully linked is block `from + 1` not yet started. */
  lemma LinkDone(s: seq<seq<nat>>, from: nat, a: nat)
    requires from < |s|
    ensures PredSoFar(s, from, s[from], a) == PredSoFar(s, from + 1, [], a)
  {
  }

  /** How many times x occurs in s. */
  function Count(s: seq<nat>, x: nat): nat
  {
    if s == [] then 0 else Count(s[..|s| - 1], x) + (if s[|s| - 1] == x then 1 else 0)
  }

  lemma {:induction false} CountAppend(x: seq<nat>, y: seq<nat>, v: nat)
    ensures Count(x + y, v) == Count(x, v) + Count(y, v)
  {
    if y == [] {
      assert x + y == x;
    } else {
      var xy, y0 := x + y, y[..|y| - 1];
      assert xy[..|xy| - 1] == x + y0 && xy[|xy| - 1] == y[|y| - 1];
      CountAppend(x, y0, v);
    }
  }

  lemma {:induction false} EdgesToCount(b: nat, succs: seq<nat>, a: nat, x: nat)
    ensures Count(EdgesTo(b, succs, a), x) == if x == b then Count(succs, a) else 0
  {
    if succs != [] {
      var init, last := succs[..|succs| - 1], succs[|succs| - 1];
      EdgesToCount(b, init, a, x);
      assert succs == init + [last];
      CountAppend(init, [last], a);
      CountAppend(EdgesTo(b, init, a), if last == a then [b] else [], x);
    }
  }

  /**
   * Edge symmetry: a occurs in the successor list of b exactly as often as
   * b occurs in the predecessor list of a (b among the linked blocks).
   */
  lemma {:induction false} EdgeSymmetry(s: seq<seq<nat>>, a: nat, b: nat, n: nat)
    requires n <= |s|
    ensures Count(PredsFrom(s, a, n), b) == if b < n then Count(s[b], a) else 0
  {
    if n > 0 {
      var before, added := PredsFrom(s, a, n - 1), EdgesTo(n - 1, s[n - 1], a);
      assert PredsFrom(s, a, n) == before + added;
      EdgeSymmetry(s, a, b, n - 1);
      EdgesToCount(n - 1, s[n - 1], a, b);
      CountAppend(before, added, b);
    }
  }

  /** A map that meets the spec sends every name to a block, once there is a block. */
  lemma LabelMapInRange(code: seq<Instr>, bs: seq<seq<nat>>, m: map<string, nat>)
    requires LabelMapSpec(code, bs, m)
    ensures forall name :: name in m && |bs| > 0 ==> m[name] < |bs|
  {
  }

  /** Every successor is a block of the graph. */
  lemma SuccsInRange(code: seq<Instr>, bs: seq<seq<nat>>, m: map<string, nat>, k: nat)
    requires WellFormedCode(code)
    requires forall k :: 0 <= k < |bs| ==> BlockShape(code, bs[k])
    requires LabelMapSpec(code, bs, m)
    requires k < |bs|
    ensures forall j :: 0 <= j < |Succs(code, bs, m, k)| ==> Succs(code, bs, m, k)[j] < |bs|
  {
    LabelMapInRange(code, bs, m);
    SuccsBelow(code, bs, m, k);
  }

  lemma SuccsBelow(code: seq<Instr>, bs: seq<seq<nat>>, m: map<string, nat>, k: nat)
    requires WellFormedCode(code)
    requires k < |bs| && BlockShape(code, bs[k])
    requires forall name :: name in m && |bs| > 0 ==> m[name] < |bs|
    ensures forall j :: 0 <= j < |Succs(code, bs, m, k)| ==> Succs(code, bs, m, k)[j] < |bs|
  {
    var last := Terminal(code, bs, k);
    if ControlFlowCheck(last) {
      var t := TargetOf(last, m);
      assert forall j :: 0 <= j < |t| ==> t[j] < |bs|;
    }
  }

  /**
   * The terminal-instruction invariant: a block with two successors ends in
   * a conditional branch, a block ending in GOTO has exactly one successor
   * (its target resolved), a block ending in RETURN none, and any other
   * block falls through to the next block, if one exists.
   */
  lemma SuccsByTerminal(code: seq<Instr>, bs: seq<seq<nat>>, m: map<string, nat>, k: nat)
    requires WellFormedCode(code)
    requires forall k :: 0 <= k < |bs| ==> BlockShape(code, bs[k])
    requires k < |bs| && MissingTarget(code, bs, m, k) == None
    ensures |Succs(code, bs, m, k)| <= 2
    ensures |Succs(code, bs, m, k)| == 2 ==> BranchOpCheck(Terminal(code, bs, k).opCode)
    ensures Terminal(code, bs, k).opCode == GOTO ==>
      Succs(code, bs, m, k) == [m[Terminal(code, bs, k).operands[0].name]]
    ensures BranchOpCheck(Terminal(code, bs, k).opCode) ==>
      Succs(code, bs, m, k) ==
        [m[Terminal(code, bs, k).operands[0].name]] + (if k + 1 < |bs| then [k + 1] else [])
    ensures Terminal(code, bs, k).opCode == RETURN ==> Succs(code, bs, m, k) == []
    ensures !ControlFlowCheck(Terminal(code, bs, k)) && Terminal(code, bs, k).opCode != RETURN ==>
      Succs(code, bs, m, k) == (if k + 1 < |bs| then [k + 1] else [])
  {
  }
}
