/**
 * The control flow graph (materials/src/ir/optimizer/CFG.java): the block
 * list, the label-to-block map and the function it was built from.
 *
 * Blocks are `BasicBlock` objects that the graph creates and then links in
 * place; the map sends a label name to the index of its block in the list
 * (the Java map holds the block object itself). `CreateCFG` is proved to
 * build exactly `CfgBuild.Partition` and `CfgBuild.LabelMap`, and
 * `CreateBlockLinks` exactly `CfgShape.SuccTable` and the predecessor
 * lists `CfgShape.PredsFrom` derives from it.
 */
module ControlFlow {
  import opened IR
  import opened CfgShape
  import opened CfgBuild
  import opened Blocks

  /** How graph construction ends: linked, or stopped at a jump to a name no block carries. */
  datatype Outcome = Pass | MissingLabel(name: string)

  /** The instruction lists of the blocks, in block order. */
  ghost function InstrLists(bl: seq<BasicBlock>): (r: seq<seq<nat>>)
    reads bl`instructions
    ensures |r| == |bl|
    ensures forall k :: 0 <= k < |bl| ==> r[k] == bl[k].instructions
  {
    if bl == [] then [] else InstrLists(bl[..|bl| - 1]) + [bl[|bl| - 1].instructions]
  }

  /** A block that holds `ids`, sits at index k and has no edges yet. */
  ghost predicate Unlinked(code: seq<Instr>, b: BasicBlock, ids: seq<nat>, k: nat)
    reads b
  {
    && b.instructions == ids
    && b.labelName == BlockName(code, ids, k)
    && b.blockId == k
    && b.predecessors == []
    && b.successors == []
  }

  /** No block object occurs twice in the list. */
  ghost predicate DistinctBlocks(blocks: seq<BasicBlock>)
  {
    forall j, k :: 0 <= j < k < |blocks| ==> blocks[j] != blocks[k]
  }

  /** Every name in the map sends a jump to one of the n blocks (when there is one). */
  predicate MapInRange(m: map<string, nat>, n: nat)
  {
    forall name :: name in m && n > 0 ==> m[name] < n
  }

  class CFG {
    var basicBlockList: seq<BasicBlock>
    var labelToBlockMap: map<string, nat>
    const parentFunc: IRFunction

    /** The fields as the Java constructor sets them before it calls createCFG. */
    constructor (func: IRFunction)
      ensures parentFunc == func
      ensures basicBlockList == [] && labelToBlockMap == map[]
    {
      parentFunc := func;
      labelToBlockMap := map[];
      basicBlockList := [];
    }

    function Code(): seq<Instr>
    {
      parentFunc.instructions
    }

    /** `getBlocks`: the live block list. */
    function GetBlocks(): seq<BasicBlock>
      reads this
    {
      basicBlockList
    }

    /** The instruction ids of every block, in block order. */
    ghost function Contents(): (bs: seq<seq<nat>>)
      reads this`basicBlockList, basicBlockList`instructions
      ensures |bs| == |basicBlockList|
    {
      InstrLists(basicBlockList)
    }

    /** Distinct block objects, block k carrying id k, every id an instruction of the function. */
    ghost predicate Valid()
      reads this`basicBlockList, basicBlockList`blockId, basicBlockList`instructions
    {
      && DistinctBlocks(basicBlockList)
      && (forall k :: 0 <= k < |basicBlockList| ==> basicBlockList[k].blockId == k)
      && (forall k :: 0 <= k < |basicBlockList| ==> IdsIn(Code(), basicBlockList[k].instructions))
    }

    /** Block k carries the name `BlockName` gives it: its LABEL's, or "start" for block 0. */
    ghost predicate Labelled()
      reads this`basicBlockList, basicBlockList`instructions, basicBlockList`labelName
    {
      forall k {:trigger basicBlockList[k].labelName} :: 0 <= k < |basicBlockList| ==>
        basicBlockList[k].labelName == BlockName(Code(), basicBlockList[k].instructions, k)
    }

    /**
     * `createCFG`: the instructions are cut into blocks, each LABEL opening
     * a block and registering its name, each GOTO or branch closing one;
     * then the blocks are linked. The blocks and the map are exactly those
     * of `Partition` and `LabelMap`, block k has id k and the label its
     * LABEL gives it ("start" for an unlabelled first block), and the
     * links are as `CreateBlockLinks` states.
     */
    method CreateCFG() returns (outcome: Outcome)
      requires basicBlockList == [] && labelToBlockMap == map[]
      requires WellFormedCode(Code())
      modifies this
      ensures Valid() && Labelled()
      ensures fresh(basicBlockList)
      ensures Contents() == Partition(Code())
      ensures labelToBlockMap == LabelMap(Code())
      ensures outcome.MissingLabel? <==> MissingLabelOf(Code()).Some?
      ensures outcome.MissingLabel? ==> MissingLabelOf(Code()) == Some(outcome.name)
      ensures outcome == Pass ==> LinkedAs(SuccsOf(Code()))
    {
      CutBlocks();
      outcome := CreateBlockLinks();
    }

    /**
     * The partition pass of createCFG: the loop over the instructions and
     * the closing of the last non-empty block. Its blocks and map are those
     * of `Partition` and `LabelMap`; no block has edges yet.
     */
    method CutBlocks()
      requires basicBlockList == [] && labelToBlockMap == map[]
      requires WellFormedCode(Code())
      modifies this
      ensures Valid() && Labelled() && NoEdges()
      ensures fresh(basicBlockList)
      ensures Contents() == Partition(Code())
      ensures labelToBlockMap == LabelMap(Code())
    {
      var currBlock;
      ghost var st;
      currBlock, st := CutInstrs();
      PartitionShape(Code());
      CloseLast(currBlock, st, Partition(Code()));
    }

    /**
     * The loop of createCFG over the instructions, from the first block
     * named "start": on exit the list, the open block and the map are
     * those `Run` gives for the whole function.
     */
    method CutInstrs() returns (currBlock: BasicBlock, ghost st: Builder)
      requires basicBlockList == [] && labelToBlockMap == map[]
      requires WellFormedCode(Code())
      modifies this
      ensures st == Run(Code(), |Code()|) && Listed(st.done) && labelToBlockMap == st.labels
      ensures fresh(basicBlockList)
      ensures fresh(currBlock) && currBlock !in basicBlockList
      ensures Unlinked(Code(), currBlock, st.cur, |st.done|)
    {
      var code := Code();
      var blockCounter: nat := 0;
      currBlock := new BasicBlock(blockCounter);
      currBlock.SetLabel("start");
      labelToBlockMap := labelToBlockMap[currBlock.GetLabel() := blockCounter];
      st := Start();
      var i: nat := 0;
      while i < |code|
        invariant i <= |code|
        invariant st == Run(code, i)
        invariant Cutting(st, blockCounter, currBlock)
        invariant fresh(currBlock) && forall k :: 0 <= k < |basicBlockList| ==> fresh(basicBlockList[k])
      {
        currBlock, blockCounter := CutStep(i, currBlock, blockCounter, st);
        st := Step(code, i, st);
        i := i + 1;
      }
    }

    lemma ListedIsValid(bs: seq<seq<nat>>)
      requires Listed(bs) && forall k :: 0 <= k < |bs| ==> BlockShape(Code(), bs[k])
      ensures Valid() && Labelled() && NoEdges() && Contents() == bs
    {
      assert InstrLists(basicBlockList) == bs;
    }

    /**
     * After the loop: a non-empty current block joins the list, which then
     * holds exactly the blocks `Flush(st)`, valid and labelled.
     */
    method CloseLast(currBlock: BasicBlock, ghost st: Builder, ghost bs: seq<seq<nat>>)
      requires Listed(st.done) && currBlock !in basicBlockList
      requires Unlinked(Code(), currBlock, st.cur, |st.done|)
      requires bs == Flush(st) && forall k :: 0 <= k < |bs| ==> BlockShape(Code(), bs[k])
      modifies this`basicBlockList
      ensures Valid() && Labelled() && NoEdges() && Contents() == bs
      ensures basicBlockList == old(basicBlockList) || basicBlockList == old(basicBlockList) + [currBlock]
    {
      if !currBlock.IsEmpty() {
        basicBlockList := basicBlockList + [currBlock];
        assert Listed(st.done + [st.cur]);
      }
      ListedIsValid(bs);
    }

    /**
     * One turn of the createCFG loop on instruction i: a LABEL closes a
     * non-empty current block and registers its name, every instruction
     * joins the current block, and a GOTO or branch closes it. The list,
     * the current block and the map move exactly as `Step` says.
     */
    method CutStep(i: nat, currBlock: BasicBlock, blockCounter: nat, ghost st: Builder)
        returns (nextBlock: BasicBlock, nextCounter: nat)
      requires WellFormedCode(Code()) && i < |Code()|
      requires Cutting(st, blockCounter, currBlock)
      modifies this`basicBlockList, this`labelToBlockMap, currBlock`instructions, currBlock`labelName
      ensures Cutting(Step(Code(), i, st), nextCounter, nextBlock)
      ensures nextBlock == currBlock || fresh(nextBlock)
      ensures basicBlockList == old(basicBlockList) || basicBlockList == old(basicBlockList) + [currBlock]
    {
      var code := Code();
      var currInstr := code[i];
      ghost var added: Builder;
      if currInstr.opCode == LABEL {
        nextBlock, nextCounter := OpenLabel(i, currBlock, blockCounter, st);
        added := Opened(code, i, st);
      } else {
        assert BlockLabel(code, st.cur + [i]) == BlockLabel(code, st.cur);
        nextBlock, nextCounter := currBlock, blockCounter;
        nextBlock.Add(i);
        added := st.(cur := st.cur + [i]);
      }
      if ControlFlowCheck(currInstr) {
        nextCounter, nextBlock := CloseBlock(nextBlock, nextCounter, added.done, added.cur);
      }
    }

    /**
     * The LABEL branch of the createCFG loop: a non-empty current block is
     * closed, the block about to receive the LABEL takes its name, the map
     * sends the name to that block, and the LABEL joins it.
     */
    method OpenLabel(i: nat, currBlock: BasicBlock, blockCounter: nat, ghost st: Builder)
        returns (nextBlock: BasicBlock, nextCounter: nat)
      requires WellFormedCode(Code()) && i < |Code()| && Code()[i].opCode == LABEL
      requires |st.done| == blockCounter && Listed(st.done)
      requires currBlock !in basicBlockList && Unlinked(Code(), currBlock, st.cur, blockCounter)
      requires labelToBlockMap == st.labels
      modifies this`basicBlockList, this`labelToBlockMap, currBlock`instructions, currBlock`labelName
      ensures |Opened(Code(), i, st).done| == nextCounter && Listed(Opened(Code(), i, st).done)
      ensures nextBlock !in basicBlockList && Unlinked(Code(), nextBlock, Opened(Code(), i, st).cur, nextCounter)
      ensures labelToBlockMap == Opened(Code(), i, st).labels
      ensures nextBlock == currBlock || fresh(nextBlock)
      ensures basicBlockList == old(basicBlockList) || basicBlockList == old(basicBlockList) + [currBlock]
    {
      ghost var done := st.done;
      nextBlock, nextCounter := currBlock, blockCounter;
      if !nextBlock.IsEmpty() {
        nextCounter, nextBlock := CloseBlock(nextBlock, nextCounter, done, st.cur);
        done := done + [st.cur];
      }
      NameBlock(nextBlock, i, nextCounter, done);
    }

    /** The LABEL's name given to the empty block under index `counter`, registered in the map, and the LABEL added. */
    method NameBlock(b: BasicBlock, i: nat, counter: nat, ghost done: seq<seq<nat>>)
      requires WellFormedCode(Code()) && i < |Code()| && Code()[i].opCode == LABEL
      requires Listed(done) && counter == |done|
      requires b !in basicBlockList && Unlinked(Code(), b, [], counter)
      modifies this`labelToBlockMap, b`instructions, b`labelName
      ensures Listed(done) && b !in basicBlockList && Unlinked(Code(), b, [i], counter)
      ensures labelToBlockMap == old(labelToBlockMap)[Text(Code()[i].operands[0]) := counter]
    {
      var currInstr := Code()[i];
      b.SetLabel(Text(currInstr.operands[0]));
      labelToBlockMap := labelToBlockMap[b.GetLabel() := counter];
      b.Add(i);
      assert Listed(done);
    }

    /** The heap holds the builder state `st`: its closed blocks listed, `b` the open one under index `counter`, its map. */
    ghost predicate Cutting(st: Builder, counter: nat, b: BasicBlock)
      reads this`basicBlockList, this`labelToBlockMap, basicBlockList, b
    {
      && |st.done| == counter && Listed(st.done)
      && b !in basicBlockList && Unlinked(Code(), b, st.cur, counter)
      && labelToBlockMap == st.labels
    }

    /** The list holds distinct blocks, block k holding `done[k]`, unlinked. */
    ghost predicate Listed(done: seq<seq<nat>>)
      reads this`basicBlockList, basicBlockList
    {
      && |basicBlockList| == |done|
      && DistinctBlocks(basicBlockList)
      && forall k :: 0 <= k < |done| ==> Unlinked(Code(), basicBlockList[k], done[k], k)
    }

    /**
     * The three statements createCFG runs to close a block: add it to the
     * list, count it, and start a fresh block under the next id.
     */
    method CloseBlock(currBlock: BasicBlock, blockCounter: nat, ghost done: seq<seq<nat>>, ghost ids: seq<nat>)
        returns (nextCounter: nat, next: BasicBlock)
      requires Listed(done) && blockCounter == |done|
      requires currBlock !in basicBlockList && Unlinked(Code(), currBlock, ids, blockCounter)
      modifies this`basicBlockList
      ensures basicBlockList == old(basicBlockList) + [currBlock]
      ensures Listed(done + [ids]) && nextCounter == blockCounter + 1
      ensures fresh(next) && next !in basicBlockList && Unlinked(Code(), next, [], nextCounter)
    {
      basicBlockList := basicBlockList + [currBlock];
      nextCounter := blockCounter + 1;
      next := new BasicBlock(nextCounter);
    }

    /** Block k's successor and predecessor lists while block `from` is being linked, having `ts` so far. */
    ghost predicate BlockLinked(s: seq<seq<nat>>, from: nat, ts: seq<nat>, k: nat)
      reads this`basicBlockList, basicBlockList`successors, basicBlockList`predecessors
      requires |s| == |basicBlockList| && from <= |s| && k < |s|
    {
      && basicBlockList[k].successors == SuccSoFar(s, from, ts, k)
      && basicBlockList[k].predecessors == PredSoFar(s, from, ts, k)
    }

    /** Every block's lists while block `from` is being linked, having `ts` so far. */
    ghost predicate LinkedSoFar(s: seq<seq<nat>>, from: nat, ts: seq<nat>)
      reads this`basicBlockList, basicBlockList`successors, basicBlockList`predecessors
      requires |s| == |basicBlockList| && from <= |s|
    {
      forall k :: 0 <= k < |basicBlockList| ==> BlockLinked(s, from, ts, k)
    }

    /** The pair of calls each linking branch makes: `from.addSuccessor(to); to.addPredecessor(from)`. */
    method Link(from: nat, to: nat, ghost s: seq<seq<nat>>, ghost ts: seq<nat>)
      requires Numbered() && from < |basicBlockList| && to < |basicBlockList| && |s| == |basicBlockList|
      requires LinkedSoFar(s, from, ts)
      modifies {basicBlockList[from]}`successors, {basicBlockList[to]}`predecessors
      ensures LinkedSoFar(s, from, ts + [to])
    {
      basicBlockList[from].AddSuccessor(to);
      basicBlockList[to].AddPredecessor(from);
      forall k | 0 <= k < |basicBlockList|
        ensures BlockLinked(s, from, ts + [to], k)
      {
        assert old(BlockLinked(s, from, ts, k));
        LinkOne(s, from, ts, to, k);
      }
    }

    /**
     * `createBlockLinks`: each block in order gets as successors what its
     * last instruction says (`Succs`), and each successor gets the block as
     * a predecessor. Linking stops at the first GOTO or branch whose label
     * is not in the map, which the Java code reaches as a null block.
     */
    method CreateBlockLinks() returns (outcome: Outcome)
      requires WellFormedCode(Code()) && Valid() && NoEdges()
      requires Contents() == Partition(Code()) && labelToBlockMap == LabelMap(Code())
      modifies basicBlockList`successors, basicBlockList`predecessors
      ensures outcome.MissingLabel? <==> MissingLabelOf(Code()).Some?
      ensures outcome.MissingLabel? ==> MissingLabelOf(Code()) == Some(outcome.name)
      ensures outcome == Pass ==> LinkedAs(SuccsOf(Code()))
    {
      ghost var bs := Contents();
      PartitionShape(Code());
      NoEdgesLinked(SuccTable(Code(), bs, labelToBlockMap));
      outcome := LinkAll(bs);
    }

    /** The loop of createBlockLinks, over the blocks `bs` in order. */
    method LinkAll(ghost bs: seq<seq<nat>>) returns (outcome: Outcome)
      requires LinkReady(bs) && LinkedSoFar(SuccTable(Code(), bs, labelToBlockMap), 0, [])
      modifies basicBlockList`successors, basicBlockList`predecessors
      ensures outcome.MissingLabel? <==> LinkFault(Code(), bs, labelToBlockMap, 0).Some?
      ensures outcome.MissingLabel? ==> LinkFault(Code(), bs, labelToBlockMap, 0) == Some(outcome.name)
      ensures outcome == Pass ==> LinkedAs(SuccTable(Code(), bs, labelToBlockMap))
    {
      var n := |basicBlockList|;
      ghost var s := SuccTable(Code(), bs, labelToBlockMap);
      ghost var fault := LinkFault(Code(), bs, labelToBlockMap, 0);
      for blockIndex := 0 to n
        invariant LinkedSoFar(s, blockIndex, [])
        invariant fault == LinkFault(Code(), bs, labelToBlockMap, blockIndex)
      {
        var missing := LinkBlock(blockIndex, s, bs);
        if missing.Some? {
          return MissingLabel(missing.value);
        }
      }
      outcome := Pass;
      AllLinked(s);
    }

    /** Block k of the list carries id k, so no block object occurs twice. */
    ghost predicate Numbered()
      reads this`basicBlockList, basicBlockList`blockId
    {
      forall k :: 0 <= k < |basicBlockList| ==> basicBlockList[k].blockId == k
    }

    /** The list holds numbered blocks, block k holding `bs[k]`. */
    ghost predicate Holding(bs: seq<seq<nat>>)
      reads this`basicBlockList, basicBlockList`blockId, basicBlockList`instructions
    {
      && |basicBlockList| == |bs|
      && Numbered()
      && forall k :: 0 <= k < |bs| ==> basicBlockList[k].instructions == bs[k]
    }

    /** What linking reads and does not change: the code, the label map in range, the blocks holding `bs`. */
    ghost predicate LinkReady(bs: seq<seq<nat>>)
      reads this`basicBlockList, this`labelToBlockMap, basicBlockList`blockId, basicBlockList`instructions
    {
      && WellFormedCode(Code()) && MapInRange(labelToBlockMap, |basicBlockList|) && Holding(bs)
      && forall k :: 0 <= k < |bs| ==> BlockShape(Code(), bs[k])
    }

    /** No block has a successor or a predecessor yet. */
    ghost predicate NoEdges()
      reads this`basicBlockList, basicBlockList`successors, basicBlockList`predecessors
    {
      forall k :: 0 <= k < |basicBlockList| ==>
        basicBlockList[k].successors == [] && basicBlockList[k].predecessors == []
    }

    /** Before linking, the lists are those of no block linked yet. */
    lemma NoEdgesLinked(s: seq<seq<nat>>)
      requires NoEdges() && |s| == |basicBlockList|
      ensures LinkedSoFar(s, 0, [])
    {
      forall k | 0 <= k < |basicBlockList|
        ensures BlockLinked(s, 0, [], k)
      {
      }
    }

    /** Block k's successors are s[k], and its predecessors every b with an edge b -> k, in block order. */
    ghost predicate LinkedAs(s: seq<seq<nat>>)
      reads this`basicBlockList, basicBlockList`successors, basicBlockList`predecessors
    {
      && |s| == |basicBlockList|
      && forall k :: 0 <= k < |s| ==>
           basicBlockList[k].successors == s[k] && basicBlockList[k].predecessors == PredsFrom(s, k, |s|)
    }

    lemma AllLinked(s: seq<seq<nat>>)
      requires |s| == |basicBlockList| && LinkedSoFar(s, |s|, [])
      ensures LinkedAs(s)
    {
      forall k | 0 <= k < |s|
        ensures basicBlockList[k].successors == s[k] && basicBlockList[k].predecessors == PredsFrom(s, k, |s|)
      {
        assert BlockLinked(s, |s|, [], k);
      }
    }


    /**
     * One turn of the `createBlockLinks` loop: block `blockIndex` gets the
     * successors its last instruction names (`Succs`), each of which gets
     * it as a predecessor, or the turn stops at a label the map lacks,
     * which is then the first fault from this block on.
     */
    method LinkBlock(blockIndex: nat, ghost s: seq<seq<nat>>, ghost bs: seq<seq<nat>>)
        returns (missing: Option<string>)
      requires LinkReady(bs) && blockIndex < |bs|
      requires s == SuccTable(Code(), bs, labelToBlockMap)
      requires LinkedSoFar(s, blockIndex, [])
      modifies basicBlockList`successors, basicBlockList`predecessors
      ensures missing.Some? ==> missing == LinkFault(Code(), bs, labelToBlockMap, blockIndex)
      ensures missing == None ==>
        LinkFault(Code(), bs, labelToBlockMap, blockIndex) == LinkFault(Code(), bs, labelToBlockMap, blockIndex + 1)
      ensures missing == None ==> LinkedSoFar(s, blockIndex + 1, [])
    {
      var targets;
      missing, targets := BlockTargets(blockIndex, bs);
      if missing == None {
        SuccTableAt(Code(), bs, labelToBlockMap, blockIndex);
        LinkTargets(blockIndex, targets, s);
      }
    }

    /** The inner loop of one createBlockLinks turn: an edge to each of the block's successors in turn. */
    method LinkTargets(blockIndex: nat, targets: seq<nat>, ghost s: seq<seq<nat>>)
      requires Numbered() && blockIndex < |basicBlockList| == |s| && s[blockIndex] == targets
      requires forall j :: 0 <= j < |targets| ==> targets[j] < |basicBlockList|
      requires LinkedSoFar(s, blockIndex, [])
      modifies basicBlockList`successors, basicBlockList`predecessors
      ensures LinkedSoFar(s, blockIndex + 1, [])
    {
      for j := 0 to |targets|
        invariant LinkedSoFar(s, blockIndex, targets[..j])
      {
        Link(blockIndex, targets[j], s, targets[..j]);
        assert targets[..j + 1] == targets[..j] + [targets[j]];
      }
      assert targets[..|targets|] == targets;
      ghost var next := blockIndex + 1;
      forall a | 0 <= a < |basicBlockList|
        ensures BlockLinked(s, next, [], a)
      {
        assert BlockLinked(s, blockIndex, targets, a);
        LinkDone(s, blockIndex, a);
      }
    }

    /**
     * The branch structure of one createBlockLinks turn: GOTO links to its
     * label's block, a branch to its label's block and then to the next
     * block, RETURN to nothing, any other instruction to the next block;
     * a GOTO or branch whose label is not in the map is reported instead.
     */
    method BlockTargets(blockIndex: nat, ghost bs: seq<seq<nat>>) returns (missing: Option<string>, targets: seq<nat>)
      requires WellFormedCode(Code())
      requires blockIndex < |basicBlockList| == |bs|
      requires basicBlockList[blockIndex].instructions == bs[blockIndex]
      requires BlockShape(Code(), bs[blockIndex])
      ensures missing == MissingTarget(Code(), bs, labelToBlockMap, blockIndex)
      ensures missing == None ==> targets == Succs(Code(), bs, labelToBlockMap, blockIndex)
    {
      var code := Code();
      var n := |basicBlockList|;
      var lastInstr := code[basicBlockList[blockIndex].GetLastInstruction()];
      var terminalOp := lastInstr.opCode;
      assert lastInstr == Terminal(code, bs, blockIndex);
      var next := if blockIndex + 1 < n then [blockIndex + 1] else [];
      missing, targets := None, [];
      if terminalOp == GOTO || BranchOpCheck(terminalOp) {
        var targetLabel := lastInstr.operands[0].name;
        if targetLabel !in labelToBlockMap {
          missing := Some(targetLabel);
        } else {
          targets := [labelToBlockMap[targetLabel]] + (if terminalOp == GOTO then [] else next);
        }
      } else if terminalOp != RETURN {
        targets := next;
      }
    }

    /**
     * `CFGToIRFunction`: a function with the parent's name, return type,
     * parameters and variables whose instructions are the blocks' read in
     * block order.
     */
    method CFGToIRFunction() returns (r: IRFunction)
      requires Valid()
      ensures IdsIn(Code(), Concat(old(Contents())))
      ensures r.name == parentFunc.name && r.returnType == parentFunc.returnType
      ensures r.parameters == parentFunc.parameters && r.variables == parentFunc.variables
      ensures r.instructions == Instrs(Code(), Concat(old(Contents())))
    {
      var code := Code();
      ghost var bs := Contents();
      var reconstructedInstrs: seq<Instr> := [];
      for k := 0 to |basicBlockList|
        invariant IdsIn(code, Concat(bs[..k])) && reconstructedInstrs == Instrs(code, Concat(bs[..k]))
      {
        var ids := basicBlockList[k].GetInstructions();
        reconstructedInstrs := AppendInstrs(code, ids, reconstructedInstrs);
        FlattenStep(code, bs, k);
      }
      assert bs[..|bs|] == bs;
      r := IRFunction(parentFunc.name, parentFunc.returnType, parentFunc.parameters,
                      parentFunc.variables, reconstructedInstrs);
    }
  }

  /** The inner loop of CFGToIRFunction: the instructions of one block's ids, appended in order. */
  method AppendInstrs(code: seq<Instr>, ids: seq<nat>, acc: seq<Instr>) returns (r: seq<Instr>)
    requires IdsIn(code, ids)
    ensures r == acc + Instrs(code, ids)
  {
    r := acc;
    for j := 0 to |ids|
      invariant r == acc + Instrs(code, ids[..j])
    {
      r := r + [code[ids[j]]];
      assert ids[..j + 1] == ids[..j] + [ids[j]];
    }
    assert ids[..|ids|] == ids;
  }

  /** `new CFG(function)`: the constructor followed by createCFG. */
  method Build(f: IRFunction) returns (cfg: CFG, outcome: Outcome)
    requires WellFormedCode(f.instructions)
    ensures fresh(cfg) && cfg.parentFunc == f && cfg.Valid() && cfg.Labelled()
    ensures cfg.Contents() == Partition(f.instructions)
    ensures cfg.labelToBlockMap == LabelMap(f.instructions)
    ensures outcome.MissingLabel? <==> MissingLabelOf(f.instructions).Some?
    ensures outcome.MissingLabel? ==> MissingLabelOf(f.instructions) == Some(outcome.name)
    ensures outcome == Pass ==> cfg.LinkedAs(SuccsOf(f.instructions))
  {
    cfg := new CFG(f);
    outcome := cfg.CreateCFG();
  }

  /**
   * Building the graph and flattening it straight back gives the function
   * unchanged, whenever construction succeeds; it fails exactly when some
   * GOTO or branch names a label that no block carries.
   */
  method RoundTrip(f: IRFunction) returns (r: Option<IRFunction>)
    requires WellFormedCode(f.instructions)
    ensures r.None? <==>
      MissingLabelOf(f.instructions).Some?
    ensures r.Some? ==> r.value == f
  {
    var cfg, outcome := Build(f);
    if outcome.MissingLabel? {
      return None;
    }
    var g := cfg.CFGToIRFunction();
    PartitionFlattens(f.instructions);
    r := Some(g);
  }
}
