/**
 * The partition pass of the CFG builder (materials/src/ir/optimizer/CFG.java,
 * createCFG) as a state machine over values: the closed blocks, the block
 * being filled and the label map. `ControlFlow.CFG.CreateCFG` keeps its
 * heap state equal to this state at every step; the lemmas here show that
 * the state always satisfies `PartialInv`, and that after the last
 * instruction the blocks partition the function and the map meets
 * `LabelMapSpec`.
 */
module CfgBuild {
  import opened IR
  import opened CfgShape

  /** The builder's state: closed blocks, current block, label map. */
  datatype Builder = Builder(done: seq<seq<nat>>, cur: seq<nat>, labels: map<string, nat>)

  /** Before the first instruction: no blocks, an empty block 0, "start" sent to block 0. */
  function Start(): Builder
  {
    Builder([], [], map["start" := 0])
  }

  /** The current block closed onto the list. */
  function Close(st: Builder): Builder
  {
    Builder(st.done + [st.cur], [], st.labels)
  }

  /**
   * A LABEL at i: a non-empty current block is closed, the name is
   * registered for the block about to receive the LABEL, and that block
   * receives it.
   */
  function Opened(code: seq<Instr>, i: nat, st: Builder): Builder
    requires WellFormedCode(code) && i < |code| && code[i].opCode == LABEL
  {
    var st1 := if st.cur == [] then st else Close(st);
    Builder(st1.done, [i], st1.labels[Text(code[i].operands[0]) := |st1.done|])
  }

  /**
   * Instruction i processed: a LABEL opens its block as above, any other
   * instruction is appended to the current block; a GOTO or branch then
   * closes the block.
   */
  function Step(code: seq<Instr>, i: nat, st: Builder): Builder
    requires WellFormedCode(code) && i < |code|
  {
    var added := if code[i].opCode == LABEL then Opened(code, i, st) else st.(cur := st.cur + [i]);
    if ControlFlowCheck(code[i]) then Close(added) else added
  }

  /** The block list once every instruction is processed: a non-empty current block is closed. */
  function Flush(st: Builder): seq<seq<nat>>
  {
    if st.cur == [] then st.done else st.done + [st.cur]
  }

  /** The block being filled: known ids, no jump, a LABEL only first. */
  predicate CurShape(code: seq<Instr>, cur: seq<nat>)
  {
    && IdsIn(code, cur)
    && (forall j :: 0 <= j < |cur| ==> !ControlFlowCheck(code[cur[j]]))
    && (forall j :: 0 <= j < |cur| && code[cur[j]].opCode == LABEL ==> j == 0)
  }

  predicate Shaped(code: seq<Instr>, bs: seq<seq<nat>>)
  {
    forall k :: 0 <= k < |bs| ==> BlockShape(code, bs[k])
  }

  predicate Bounded(code: seq<Instr>, bs: seq<seq<nat>>)
    requires Shaped(code, bs)
  {
    forall k :: 0 < k < |bs| ==> Seam(code, bs, k)
  }

  /** The last closed block ends in a GOTO or branch. */
  predicate ClosedOnJump(code: seq<Instr>, done: seq<seq<nat>>)
    requires Shaped(code, done)
  {
    |done| > 0 && ControlFlowCheck(code[Last(done[|done| - 1])])
  }

  /** The ids 0 .. i - 1 read in order, the closed blocks well formed and bounded, the map right. */
  predicate ReadOk(code: seq<Instr>, i: nat, st: Builder)
  {
    && i <= |code|
    && Concat(st.done) + st.cur == Range(i)
    && Shaped(code, st.done)
    && Bounded(code, st.done)
    && LabelMapSpec(code, st.done + [st.cur], st.labels)
  }

  /** What holds of the builder after instructions 0 .. i - 1. */
  predicate PartialInv(code: seq<Instr>, i: nat, st: Builder)
  {
    && ReadOk(code, i, st)
    && CurShape(code, st.cur)
    && (|st.cur| > 0 && |st.done| > 0 ==>
          code[st.cur[0]].opCode == LABEL || ClosedOnJump(code, st.done))
    && (|st.cur| == 0 && i > 0 ==> ClosedOnJump(code, st.done))
  }

  // ---------------------------------------------------------------------
  // The label map under the builder's moves

  lemma LabelMapAppendNone(ls: seq<Option<string>>, m: map<string, nat>)
    requires LabelMapOk(ls, m)
    ensures LabelMapOk(ls + [None], m)
  {
  }

  lemma LabelMapDropNone(ls: seq<Option<string>>, m: map<string, nat>)
    requires LabelMapOk(ls + [None], m)
    ensures LabelMapOk(ls, m)
  {
    var ls' := ls + [None];
    forall name | name in m
      ensures (m[name] < |ls| && ls[m[name]] == Some(name)) ||
              (name == "start" && m[name] == 0 && Some("start") !in ls)
    {
      if m[name] < |ls'| && ls'[m[name]] == Some(name) {
        assert m[name] != |ls|;
      }
    }
    forall k | 0 <= k < |ls| && ls[k].Some?
      ensures ls[k].value in m && k <= m[ls[k].value]
    {
      assert ls'[k] == ls[k];
    }
  }

  /** Registering a LABEL name for a new last block that replaces an unlabelled one. */
  lemma {:induction false} LabelMapRegister(ls: seq<Option<string>>, m: map<string, nat>, name: string)
    requires LabelMapOk(ls + [None], m)
    ensures LabelMapOk(ls + [Some(name)], m[name := |ls|])
  {
    var before, after, m' := ls + [None], ls + [Some(name)], m[name := |ls|];
    forall n | n in m'
      ensures (m'[n] < |after| && after[m'[n]] == Some(n)) ||
              (n == "start" && m'[n] == 0 && Some("start") !in after)
    {
      if n != name {
        if m[n] < |before| && before[m[n]] == Some(n) {
          assert m[n] < |ls|;
          assert after[m[n]] == before[m[n]];
        }
      }
    }
    forall k | 0 <= k < |after| && after[k].Some?
      ensures after[k].value in m' && k <= m'[after[k].value]
    {
      if k < |ls| {
        assert before[k] == after[k];
      }
    }
  }

  // ---------------------------------------------------------------------
  // The partition under the builder's moves

  lemma InitInv(code: seq<Instr>)
    ensures PartialInv(code, 0, Start())
  {
    assert LabelsOf(code, [[]]) == [None];
    assert LabelMapOk([None], map["start" := 0]);
    assert Concat([]) + [] == Range(0);
  }

  lemma CurIsBlock(code: seq<Instr>, cur: seq<nat>)
    requires CurShape(code, cur) && |cur| > 0
    ensures BlockShape(code, cur)
  {
  }

  /** Closing a non-empty current block keeps the closed blocks well formed. */
  lemma CloseKeepsShape(code: seq<Instr>, i: nat, st: Builder)
    requires PartialInv(code, i, st) && |st.cur| > 0
    ensures Shaped(code, st.done + [st.cur]) && Bounded(code, st.done + [st.cur])
    ensures Concat(st.done + [st.cur]) == Range(i)
  {
    ConcatAppend(st.done, st.cur);
    CurIsBlock(code, st.cur);
    AppendBounded(code, st.done, st.cur);
  }

  /** One instruction processed: the invariant moves from i to i + 1. */
  lemma {:induction false} StepInv(code: seq<Instr>, i: nat, st: Builder)
    requires WellFormedCode(code) && i < |code|
    requires PartialInv(code, i, st)
    ensures PartialInv(code, i + 1, Step(code, i, st))
  {
    if code[i].opCode == LABEL {
      OpenLabelInv(code, i, st);
    } else if ControlFlowCheck(code[i]) {
      StepJump(code, i, st);
    } else {
      StepPlain(code, i, st);
    }
  }

  /** A LABEL never closes its block: the step is the opening alone, which holds just the LABEL. */
  lemma StepOnLabel(code: seq<Instr>, i: nat, st: Builder)
    requires WellFormedCode(code) && i < |code| && code[i].opCode == LABEL
    ensures Step(code, i, st) == Opened(code, i, st)
    ensures Opened(code, i, st).cur == [i] && !ControlFlowCheck(code[Last([i])])
  {
  }

  lemma StepPlain(code: seq<Instr>, i: nat, st: Builder)
    requires WellFormedCode(code) && i < |code| && code[i].opCode != LABEL
    requires !ControlFlowCheck(code[i])
    requires PartialInv(code, i, st)
    ensures PartialInv(code, i + 1, Step(code, i, st))
  {
    var added := st.(cur := st.cur + [i]);
    AppendInv(code, i, st);
    assert Step(code, i, st) == added;
    assert Last(added.cur) == i;
    PreCloseIsInv(code, i + 1, added);
  }

  lemma StepJump(code: seq<Instr>, i: nat, st: Builder)
    requires WellFormedCode(code) && i < |code| && code[i].opCode != LABEL
    requires ControlFlowCheck(code[i])
    requires PartialInv(code, i, st)
    ensures PartialInv(code, i + 1, Step(code, i, st))
  {
    var added := st.(cur := st.cur + [i]);
    AppendInv(code, i, st);
    assert Step(code, i, st) == Close(added);
    JumpCloseInv(code, i, added);
  }

  /** After a LABEL, everything but the jump-closing rule holds. */
  predicate PreClose(code: seq<Instr>, i: nat, st: Builder)
  {
    && ReadOk(code, i, st)
    && |st.cur| > 0
    && IdsIn(code, st.cur)
    && (forall j :: 0 <= j < |st.cur| - 1 ==> !ControlFlowCheck(code[st.cur[j]]))
    && (forall j :: 0 <= j < |st.cur| && code[st.cur[j]].opCode == LABEL ==> j == 0)
    && (|st.done| > 0 ==> code[st.cur[0]].opCode == LABEL || ClosedOnJump(code, st.done))
  }

  lemma PreCloseIsInv(code: seq<Instr>, i: nat, st: Builder)
    requires PreClose(code, i, st)
    requires !ControlFlowCheck(code[Last(st.cur)])
    ensures PartialInv(code, i, st)
  {
    CurClosed(code, st.cur);
  }

  /** A current block whose last instruction is no jump has none at all. */
  lemma CurClosed(code: seq<Instr>, cur: seq<nat>)
    requires |cur| > 0 && IdsIn(code, cur)
    requires forall j :: 0 <= j < |cur| - 1 ==> !ControlFlowCheck(code[cur[j]])
    requires forall j :: 0 <= j < |cur| && code[cur[j]].opCode == LABEL ==> j == 0
    requires !ControlFlowCheck(code[Last(cur)])
    ensures CurShape(code, cur)
  {
    forall j | 0 <= j < |cur|
      ensures !ControlFlowCheck(code[cur[j]])
    {
      if j == |cur| - 1 {
        assert cur[j] == Last(cur);
      }
    }
  }

  /** The blocks closed before a LABEL's block opens, and their label map. */
  lemma {:induction false} BeforeLabel(code: seq<Instr>, i: nat, st: Builder)
    returns (st1: Builder)
    requires PartialInv(code, i, st)
    ensures st1 == (if st.cur == [] then st else Close(st))
    ensures Concat(st1.done) == Range(i)
    ensures Shaped(code, st1.done) && Bounded(code, st1.done)
    ensures LabelMapOk(LabelsOf(code, st1.done) + [None], st1.labels)
  {
    st1 := if st.cur == [] then st else Close(st);
    if st.cur == [] {
      assert st.done + [st.cur] == st.done + [[]];
      assert LabelsOf(code, st.done + [[]]) == LabelsOf(code, st.done) + [None];
      assert Concat(st1.done) + [] == Range(i);
    } else {
      CloseKeepsShape(code, i, st);
      var ls := LabelsOf(code, st.done + [st.cur]);
      LabelMapAppendNone(ls, st.labels);
    }
  }

  /** A LABEL opens a block holding just itself, after the closed blocks `done`. */
  lemma {:induction false} OpenBlockPre(code: seq<Instr>, i: nat, done: seq<seq<nat>>, labels: map<string, nat>)
    requires WellFormedCode(code) && i < |code| && code[i].opCode == LABEL
    requires Concat(done) == Range(i)
    requires Shaped(code, done) && Bounded(code, done)
    requires LabelMapOk(LabelsOf(code, done) + [None], labels)
    ensures PreClose(code, i + 1, Builder(done, [i], labels[Text(code[i].operands[0]) := |done|]))
  {
    var st := Builder(done, [i], labels[Text(code[i].operands[0]) := |done|]);
    OpenLabels(code, i, done, labels);
    assert Range(i + 1) == Range(i) + [i];
    assert Concat(st.done) + st.cur == Range(i + 1);
    assert IdsIn(code, st.cur);
    assert |st.done| > 0 ==> code[st.cur[0]].opCode == LABEL;
  }

  /** The block a LABEL opens holds no jump, so the whole invariant holds after it. */
  lemma OpenBlock(code: seq<Instr>, i: nat, done: seq<seq<nat>>, labels: map<string, nat>)
    requires WellFormedCode(code) && i < |code| && code[i].opCode == LABEL
    requires Concat(done) == Range(i)
    requires Shaped(code, done) && Bounded(code, done)
    requires LabelMapOk(LabelsOf(code, done) + [None], labels)
    ensures PartialInv(code, i + 1, Builder(done, [i], labels[Text(code[i].operands[0]) := |done|]))
  {
    LabelIsNoJump(code[i]);
    OpenBlockPre(code, i, done, labels);
    PreCloseIsInv(code, i + 1, Builder(done, [i], labels[Text(code[i].operands[0]) := |done|]));
  }

  /** The LABEL's name is registered for the block it opens. */
  lemma OpenLabels(code: seq<Instr>, i: nat, done: seq<seq<nat>>, labels: map<string, nat>)
    requires WellFormedCode(code) && i < |code| && code[i].opCode == LABEL
    requires LabelMapOk(LabelsOf(code, done) + [None], labels)
    ensures LabelMapSpec(code, done + [[i]], labels[Text(code[i].operands[0]) := |done|])
  {
    var name := Text(code[i].operands[0]);
    LabelMapRegister(LabelsOf(code, done), labels, name);
    assert LabelsOf(code, done + [[i]]) == LabelsOf(code, done) + [Some(name)];
  }

  lemma {:induction false} OpenLabelInv(code: seq<Instr>, i: nat, st: Builder)
    requires WellFormedCode(code) && i < |code| && code[i].opCode == LABEL
    requires PartialInv(code, i, st)
    ensures PartialInv(code, i + 1, Step(code, i, st))
  {
    var st1 := BeforeLabel(code, i, st);
    OpenBlock(code, i, st1.done, st1.labels);
    StepOnLabel(code, i, st);
  }

  lemma LabelIsNoJump(ins: Instr)
    requires ins.opCode == LABEL
    ensures !ControlFlowCheck(ins)
  {
  }

  lemma ConcatNonEmpty(code: seq<Instr>, bs: seq<seq<nat>>)
    requires Shaped(code, bs) && |bs| > 0
    ensures |Concat(bs)| > 0
  {
    assert BlockShape(code, bs[|bs| - 1]);
  }

  /** A non-LABEL instruction joining the current block leaves every block's label unchanged. */
  lemma AppendKeepsLabels(code: seq<Instr>, done: seq<seq<nat>>, cur: seq<nat>, i: nat, m: map<string, nat>)
    requires i < |code| && code[i].opCode != LABEL
    requires LabelMapSpec(code, done + [cur], m)
    ensures LabelMapSpec(code, done + [cur + [i]], m)
  {
    assert BlockLabel(code, cur + [i]) == BlockLabel(code, cur);
    assert LabelsOf(code, done + [cur + [i]]) == LabelsOf(code, done + [cur]);
  }

  /** Opening an empty block after the list adds an unlabelled entry to the map's view. */
  lemma CloseKeepsLabels(code: seq<Instr>, bs: seq<seq<nat>>, m: map<string, nat>)
    requires LabelMapSpec(code, bs, m)
    ensures LabelMapSpec(code, bs + [[]], m)
  {
    LabelMapAppendNone(LabelsOf(code, bs), m);
    assert LabelsOf(code, bs + [[]]) == LabelsOf(code, bs) + [None];
  }

  /** The current block with a non-LABEL instruction appended: valid ids, no jump before the last, a LABEL only first. */
  lemma AppendCur(code: seq<Instr>, cur: seq<nat>, i: nat)
    requires CurShape(code, cur) && i < |code| && code[i].opCode != LABEL
    ensures IdsIn(code, cur + [i])
    ensures forall j :: 0 <= j < |cur + [i]| - 1 ==> !ControlFlowCheck(code[(cur + [i])[j]])
    ensures forall j :: 0 <= j < |cur + [i]| && code[(cur + [i])[j]].opCode == LABEL ==> j == 0
  {
  }

  /** The ids read so far, then id i, are the ids 0 .. i. */
  lemma RangeAppend(flat: seq<nat>, cur: seq<nat>, i: nat)
    requires flat + cur == Range(i)
    ensures flat + (cur + [i]) == Range(i + 1)
  {
    assert Range(i + 1) == Range(i) + [i];
    assert flat + (cur + [i]) == (flat + cur) + [i];
  }

  lemma {:induction false} AppendInv(code: seq<Instr>, i: nat, st: Builder)
    requires WellFormedCode(code) && i < |code| && code[i].opCode != LABEL
    requires PartialInv(code, i, st)
    ensures PreClose(code, i + 1, st.(cur := st.cur + [i]))
  {
    RangeAppend(Concat(st.done), st.cur, i);
    AppendCur(code, st.cur, i);
    AppendKeepsLabels(code, st.done, st.cur, i, st.labels);
    if |st.done| > 0 && st.cur == [] {
      ConcatNonEmpty(code, st.done);
      assert ClosedOnJump(code, st.done);
    }
  }

  /** A block appended after well-formed, well-bounded blocks, with a reason for the boundary. */
  lemma AppendBounded(code: seq<Instr>, done: seq<seq<nat>>, b: seq<nat>)
    requires Shaped(code, done) && Bounded(code, done) && BlockShape(code, b)
    requires |done| > 0 ==> Boundary(code, done[|done| - 1], b)
    ensures Shaped(code, done + [b]) && Bounded(code, done + [b])
  {
    var bs := done + [b];
    forall k | 0 < k < |bs|
      ensures Seam(code, bs, k)
    {
      if k == |done| {
        assert bs[k] == b && bs[k - 1] == done[|done| - 1];
      } else {
        assert Seam(code, done, k);
        assert bs[k] == done[k] && bs[k - 1] == done[k - 1];
      }
    }
  }

  lemma {:induction false} JumpCloseInv(code: seq<Instr>, i: nat, st: Builder)
    requires WellFormedCode(code) && i < |code|
    requires PreClose(code, i + 1, st) && Last(st.cur) == i && ControlFlowCheck(code[i])
    ensures PartialInv(code, i + 1, Close(st))
  {
    CloseOnJump(code, i, st);
    CloseKeepsLabels(code, st.done + [st.cur], st.labels);
  }

  /** A block closed on its jump is well formed, bounded after its predecessor, and ends the blocks on a jump. */
  lemma CloseOnJump(code: seq<Instr>, i: nat, st: Builder)
    requires PreClose(code, i + 1, st) && Last(st.cur) == i && ControlFlowCheck(code[i])
    ensures Concat(st.done + [st.cur]) == Range(i + 1)
    ensures Shaped(code, st.done + [st.cur]) && Bounded(code, st.done + [st.cur])
    ensures ClosedOnJump(code, st.done + [st.cur])
  {
    var bs := st.done + [st.cur];
    ConcatAppend(st.done, st.cur);
    assert BlockShape(code, st.cur);
    AppendBounded(code, st.done, st.cur);
    assert bs[|bs| - 1] == st.cur;
  }

  /** After the last instruction, the flushed blocks partition the function and the map meets its spec. */
  lemma {:induction false} FinishInv(code: seq<Instr>, st: Builder)
    requires PartialInv(code, |code|, st)
    ensures IsPartition(code, Flush(st))
    ensures LabelMapSpec(code, Flush(st), st.labels)
  {
    if st.cur == [] {
      assert st.done + [st.cur] == st.done + [[]];
      assert LabelsOf(code, st.done + [[]]) == LabelsOf(code, st.done) + [None];
      LabelMapDropNone(LabelsOf(code, st.done), st.labels);
      assert Concat(st.done) == Range(|code|);
    } else {
      CloseKeepsShape(code, |code|, st);
    }
  }

  // ---------------------------------------------------------------------
  // The whole pass

  /** The builder's state after instructions 0 .. n - 1. */
  function Run(code: seq<Instr>, n: nat): Builder
    requires WellFormedCode(code) && n <= |code|
  {
    if n == 0 then Start() else Step(code, n - 1, Run(code, n - 1))
  }

  /** The block list createCFG builds. */
  function Partition(code: seq<Instr>): seq<seq<nat>>
    requires WellFormedCode(code)
  {
    Flush(Run(code, |code|))
  }

  /** The label map createCFG builds. */
  function LabelMap(code: seq<Instr>): map<string, nat>
    requires WellFormedCode(code)
  {
    Run(code, |code|).labels
  }

  /** The label a GOTO or branch names that no block carries, the first one in block order. */
  function MissingLabelOf(code: seq<Instr>): Option<string>
    requires WellFormedCode(code)
  {
    PartitionShape(code);
    LinkFault(code, Partition(code), LabelMap(code), 0)
  }

  lemma {:induction false} RunInv(code: seq<Instr>, n: nat)
    requires WellFormedCode(code) && n <= |code|
    ensures PartialInv(code, n, Run(code, n))
  {
    if n == 0 {
      InitInv(code);
    } else {
      RunInv(code, n - 1);
      StepInv(code, n - 1, Run(code, n - 1));
    }
  }

  /**
   * The partition pass is correct: its blocks partition the function (so
   * concatenating them gives every instruction back in order), each block
   * is non-empty with a jump only last and a LABEL only first, and its map
   * sends every LABEL name to the last block opening with it and "start"
   * to block 0 unless a LABEL reclaims that name.
   */
  lemma PartitionCorrect(code: seq<Instr>)
    requires WellFormedCode(code)
    ensures IsPartition(code, Partition(code))
    ensures LabelMapSpec(code, Partition(code), LabelMap(code))
    ensures Instrs(code, Concat(Partition(code))) == code
  {
    RunInv(code, |code|);
    FinishInv(code, Run(code, |code|));
    InstrsOfRange(code);
  }

  /** Every block createCFG builds is well shaped, and every name in its map sends a jump to one of them. */
  lemma PartitionShape(code: seq<Instr>)
    requires WellFormedCode(code)
    ensures forall k :: 0 <= k < |Partition(code)| ==> BlockShape(code, Partition(code)[k])
    ensures forall name :: name in LabelMap(code) && |Partition(code)| > 0 ==>
      LabelMap(code)[name] < |Partition(code)|
  {
    PartitionCorrect(code);
    LabelMapInRange(code, Partition(code), LabelMap(code));
  }

  /** The successor list of every block createCFG builds. */
  function SuccsOf(code: seq<Instr>): (s: seq<seq<nat>>)
    requires WellFormedCode(code)
    ensures |s| == |Partition(code)|
  {
    PartitionShape(code);
    SuccTable(code, Partition(code), LabelMap(code))
  }


  /** Reading the blocks createCFG builds in order gives the function's instructions back. */
  lemma PartitionFlattens(code: seq<Instr>)
    requires WellFormedCode(code)
    ensures IdsIn(code, Concat(Partition(code)))
    ensures Instrs(code, Concat(Partition(code))) == code
  {
    PartitionCorrect(code);
  }
}
