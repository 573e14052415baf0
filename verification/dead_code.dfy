/**
 * The dead-code eliminator (materials/src/ir/optimizer/DeadCode.java) over
 * a control-flow graph and a reaching-definitions map.
 *
 * Mark: every critical instruction of every block is marked and queued;
 * then, while the queue is non-empty, the head is polled and, for each of
 * its variable operands, every reaching definition of that variable that
 * is not yet marked is marked and queued. Sweep: each block drops its
 * unmarked instructions in place and the number dropped is added to the
 * counter.
 *
 * Each instruction carries its own `marked` flag, which nothing clears; the
 * flags of the function's instructions are kept here as the set of marked
 * ids, handed to the eliminator when it is created.
 */
module DeadCodeElim {
  import opened IR
  import opened CfgShape
  import opened CfgBuild
  import opened Blocks
  import opened ControlFlow
  import opened Marking

  /**
   * What marking leaves set, starting from the flags `start` with the
   * critical ids `queue`: all of those, nothing outside their closure, and
   * exactly that closure when `start` was itself closed.
   */
  ghost predicate MarkedFrom(code: seq<Instr>, reach: map<nat, set<nat>>, start: set<nat>, queue: seq<nat>, m: set<nat>)
  {
    && start + Elems(queue) <= m
    && m <= Closure(code, reach, start + Elems(queue))
    && (Closed(code, reach, start) ==> m == Closure(code, reach, start + Elems(queue)))
  }

  /** The critical instructions of a function, by id. */
  function CriticalIds(code: seq<Instr>): (c: set<nat>)
    ensures forall i :: i in c <==> 0 <= i < |code| && IsCritical(code[i])
  {
    set i | i in AllIds(code) && IsCritical(code[i])
  }

  /** Everything `m` needs is still needed of a larger set. */
  lemma NeedsInGrows(code: seq<Instr>, reach: map<nat, set<nat>>, m: nat, a: set<nat>, b: set<nat>)
    requires a <= b && NeedsIn(code, reach, m, a)
    ensures NeedsIn(code, reach, m, b)
  {
  }

  /** The ids newly marked since `a`, split at an intermediate set. */
  lemma NewlyMarkedSplit(a: set<nat>, b: set<nat>, c: set<nat>)
    requires a <= b <= c
    ensures multiset(c - a) == multiset(b - a) + multiset(c - b)
  {
    assert c - a == (b - a) + (c - b);
    assert (b - a) * (c - b) == {};
  }

  /** Each member of s occurs in it exactly once. */
  ghost predicate NoRepeats(s: seq<nat>)
  {
    multiset(s) == multiset(Elems(s))
  }

  /** The queue after one poll of `head`, which appended `added`, the ids newly marked. */
  lemma QueueTurn(before: seq<nat>, head: nat, rest: seq<nat>, added: seq<nat>, mb: set<nat>, ma: set<nat>)
    requires before == [head] + rest && multiset(added) == multiset(ma - mb)
    ensures multiset(rest + added) + multiset{head} == multiset(before) + multiset(ma - mb)
  {
    assert multiset(before) == multiset{head} + multiset(rest);
  }

  /** One poll, accounted: the ids polled so far and the queue are the first queue and the new marks. */
  lemma PolledStep(w0: seq<nat>, m0: set<nat>, polled: seq<nat>, wb: seq<nat>, mb: set<nat>,
                   head: nat, wa: seq<nat>, ma: set<nat>)
    requires m0 <= mb <= ma
    requires multiset(polled) + multiset(wb) == multiset(w0) + multiset(mb - m0)
    requires multiset(wa) + multiset{head} == multiset(wb) + multiset(ma - mb)
    ensures multiset(polled + [head]) + multiset(wa) == multiset(w0) + multiset(ma - m0)
  {
    NewlyMarkedSplit(m0, mb, ma);
    var lhs, rhs := multiset(polled + [head]) + multiset(wa), multiset(w0) + multiset(ma - m0);
    forall x: nat
      ensures lhs[x] == rhs[x]
    {
      assert (multiset(wa) + multiset{head})[x] == (multiset(wb) + multiset(ma - mb))[x];
      assert (multiset(polled) + multiset(wb))[x] == (multiset(w0) + multiset(mb - m0))[x];
    }
    assert lhs == rhs;
  }

  /**
   * A queue without repeats whose ids are all marked, followed by only newly
   * marked ids: each id is polled once, the first queue's and the new marks.
   */
  lemma PolledOnce(w0: seq<nat>, m0: set<nat>, m1: set<nat>, polled: seq<nat>)
    requires Elems(w0) <= m0 && NoRepeats(w0)
    requires multiset(polled) == multiset(w0) + multiset(m1 - m0)
    ensures NoRepeats(polled) && Elems(polled) == Elems(w0) + (m1 - m0)
  {
    NewlyMarkedSplit(Elems(w0) * m0, Elems(w0), Elems(w0) + (m1 - m0));
    assert Elems(w0) * m0 == Elems(w0);
    assert Elems(w0) + (m1 - m0) - Elems(w0) == m1 - m0;
    assert Elems(w0) - Elems(w0) == {};
    ElemsOfMultiset(polled, Elems(w0) + (m1 - m0));
  }

  /** Appending an id not yet present keeps a sequence free of repeats. */
  lemma AppendFresh(k: seq<nat>, x: nat)
    requires NoRepeats(k) && x !in Elems(k)
    ensures NoRepeats(k + [x]) && Elems(k + [x]) == Elems(k) + {x}
  {
    ElemsAppend(k, [x]);
    assert Elems([x]) == {x};
    NewlyMarkedSplit({}, Elems(k), Elems(k) + {x});
    assert Elems(k) + {x} - Elems(k) == {x};
    assert Elems(k) - {} == Elems(k);
  }

  /** Seeding `m0` with a queue and then draining it: the polls, counted against the marks `m0` started from. */
  lemma SeededPolls(m0: set<nat>, queue: seq<nat>, seeds: set<nat>, m1: set<nat>, polled: seq<nat>, u: set<nat>)
    requires seeds == m0 + Elems(queue) && Elems(queue) <= u && m1 - seeds <= u
    requires NoRepeats(queue) ==> NoRepeats(polled) && Elems(polled) == Elems(queue) + (m1 - seeds)
    ensures m1 - m0 <= u
    ensures NoRepeats(queue) ==> NoRepeats(polled) && Elems(polled) == Elems(queue) + (m1 - m0)
  {
    assert Elems(queue) + (m1 - seeds) == Elems(queue) + (m1 - m0);
  }

  /** The ids below n, filtered, are below n. */
  lemma KeepRangeBelow(n: nat, s: set<nat>)
    ensures Elems(Keep(Range(n), s)) <= IdsBelow(n)
  {
    KeepElems(Range(n), s);
  }

  /** The ids below n, filtered and in order, repeat nothing. */
  lemma {:induction false} KeepRangeNoRepeats(n: nat, s: set<nat>)
    ensures NoRepeats(Keep(Range(n), s))
  {
    if n > 0 {
      var r, k, last: nat := Range(n), Keep(Range(n - 1), s), n - 1;
      assert r[..last] == Range(last) && r[last] == last;
      KeepRangeNoRepeats(last, s);
      if last in s {
        KeepRangeBelow(last, s);
        assert Keep(r, s) == k + [last];
        AppendFresh(k, last);
      } else {
        assert Keep(r, s) == k;
      }
    }
  }

  /** There are n ids below n. */
  lemma {:induction false} IdsBelowCount(n: nat)
    ensures |IdsBelow(n)| == n
  {
    if n == 0 {
      assert IdsBelow(n) == {};
    } else {
      var below, last: nat := IdsBelow(n - 1), n - 1;
      IdsBelowCount(last);
      assert last !in below;
      assert IdsBelow(n) == below + {last};
      assert |below + {last}| == |below| + 1;
    }
  }

  /** A subset is no larger. */
  lemma SubsetCount(a: set<nat>, b: set<nat>)
    requires a <= b
    ensures |a| <= |b|
  {
    assert b == a + (b - a);
    assert a * (b - a) == {};
  }

  /** A queue that grew twice at its end still starts with what it held first. */
  lemma QueueGrows(w0: seq<nat>, w1: seq<nat>, w2: seq<nat>)
    requires |w0| <= |w1| <= |w2| && w1[..|w0|] == w0 && w2[..|w1|] == w1
    ensures w2[..|w0|] == w0 && w2[|w0|..] == w1[|w0|..] + w2[|w1|..]
  {
  }

  class DeadCode {
    const controlFlowGraph: CFG
    const instrDefMap: map<nat, set<nat>>
    var worklist: seq<nat>
    var removedInstrCount: int
    /** The `marked` flags of the function's instructions: the ids whose flag is set. */
    var marked: set<nat>

    /** `new DeadCode(cfg, defToUseMap)`, over instructions whose flags are `marks`. */
    constructor (cfg: CFG, defToUseMap: map<nat, set<nat>>, marks: set<nat>)
      ensures controlFlowGraph == cfg && instrDefMap == defToUseMap
      ensures worklist == [] && removedInstrCount == 0 && marked == marks
    {
      controlFlowGraph := cfg;
      instrDefMap := defToUseMap;
      worklist := [];
      removedInstrCount := 0;
      marked := marks;
    }

    function Code(): seq<Instr>
    {
      controlFlowGraph.parentFunc.instructions
    }

    /** The critical ids the blocks hold, in block order: what markCriticalInstr queues. */
    ghost function CriticalQueue(): seq<nat>
      reads controlFlowGraph`basicBlockList, controlFlowGraph.basicBlockList`instructions
    {
      Keep(Concat(controlFlowGraph.Contents()), CriticalIds(Code()))
    }

    /**
     * `performDCE`: mark, then sweep; the count it prints is returned. The
     * marks end between the seeds (the flags already set and the critical
     * instructions of the blocks) and their closure, and are that closure
     * when the flags already set were closed, as they are for fresh
     * instructions and after an earlier run; every block keeps exactly its
     * marked ids, in order, and the counter grows by the number removed.
     * The queue polls the critical ids in block order and then each newly
     * marked id; when the blocks repeat no id, each id is polled once.
     */
    method PerformDCE() returns (removed: int, ghost polled: seq<nat>)
      requires controlFlowGraph.Valid() && ReachOk(Code(), instrDefMap) && worklist == []
      modifies this`marked, this`worklist, this`removedInstrCount
      modifies controlFlowGraph.basicBlockList`instructions
      ensures worklist == [] && controlFlowGraph.Valid()
      ensures MarkedFrom(Code(), instrDefMap, old(marked), old(CriticalQueue()), marked)
      ensures multiset(polled) ==
        multiset(old(CriticalQueue())) + multiset(marked - (old(marked) + Elems(old(CriticalQueue()))))
      ensures marked - old(marked) <= AllIds(Code())
      ensures NoRepeats(old(CriticalQueue())) ==>
        NoRepeats(polled) && Elems(polled) == Elems(old(CriticalQueue())) + (marked - old(marked))
      ensures controlFlowGraph.Contents() == KeepEach(old(controlFlowGraph.Contents()), marked)
      ensures removed == removedInstrCount
      ensures removedInstrCount == old(removedInstrCount) +
        TotalSize(old(controlFlowGraph.Contents())) - TotalSize(controlFlowGraph.Contents())
    {
      polled := Mark();
      Sweep();
      removed := removedInstrCount;
    }

    /**
     * `mark`: seed with the critical instructions, then close over reaching
     * definitions; `polled` is the order in which the queue is polled.
     */
    method Mark() returns (ghost polled: seq<nat>)
      requires controlFlowGraph.Valid() && ReachOk(Code(), instrDefMap) && worklist == []
      modifies this`marked, this`worklist
      ensures worklist == []
      ensures MarkedFrom(Code(), instrDefMap, old(marked), old(CriticalQueue()), marked)
      ensures multiset(polled) ==
        multiset(old(CriticalQueue())) + multiset(marked - (old(marked) + Elems(old(CriticalQueue()))))
      ensures marked - old(marked) <= AllIds(Code())
      ensures NoRepeats(old(CriticalQueue())) ==>
        NoRepeats(polled) && Elems(polled) == Elems(old(CriticalQueue())) + (marked - old(marked))
    {
      ghost var code, reach, queue := Code(), instrDefMap, CriticalQueue();
      MarkCriticalInstr();
      ghost var seeds := marked;
      KeepElems(Concat(old(controlFlowGraph.Contents())), CriticalIds(code));
      assert Elems(worklist) == Elems(queue) <= seeds * AllIds(code);
      assert worklist == queue;
      polled := MarkWorklistReachingDefs();
      SeededPolls(old(marked), queue, seeds, marked, polled, AllIds(code));
      if Closed(code, reach, old(marked)) {
        AllNeedsInGrows(code, reach, old(marked), old(marked), marked);
        assert marked == old(marked) + ((marked - seeds) + Elems(queue));
        ClosureLeast(code, reach, seeds, marked);
      }
    }

    /** `markCriticalInstr`: every critical instruction of every block, in block order, is marked and queued. */
    method MarkCriticalInstr()
      requires controlFlowGraph.Valid()
      modifies this`marked, this`worklist
      ensures worklist == old(worklist) + old(CriticalQueue())
      ensures marked == old(marked) + Elems(old(CriticalQueue()))
    {
      var blocks := controlFlowGraph.GetBlocks();
      ghost var bs := controlFlowGraph.Contents();
      assert forall j :: 0 <= j < |bs| ==> IdsIn(Code(), bs[j]);
      MarkCriticalBlocks(blocks, bs);
    }

    /** The outer loop of markCriticalInstr, over the blocks of the list. */
    method MarkCriticalBlocks(blocks: seq<BasicBlock>, ghost bs: seq<seq<nat>>)
      requires InstrLists(blocks) == bs
      requires forall j :: 0 <= j < |bs| ==> IdsIn(Code(), bs[j])
      modifies this`marked, this`worklist
      ensures worklist == old(worklist) + Keep(Concat(bs), CriticalIds(Code()))
      ensures marked == old(marked) + Elems(Keep(Concat(bs), CriticalIds(Code())))
    {
      ghost var critical := CriticalIds(Code());
      ghost var w0, m0 := worklist, marked;
      for k := 0 to |blocks|
        invariant QueuedUpTo(bs, k, critical, w0, m0, worklist, marked)
      {
        var instructions := blocks[k].GetInstructions();
        ghost var w1, m1 := worklist, marked;
        MarkCriticalInBlock(instructions);
        QueuedStep(bs, k, critical, w0, m0, w1, m1, worklist, marked);
      }
      assert bs[..|bs|] == bs;
    }

    /** The inner loop of markCriticalInstr, over one block's instructions. */
    method MarkCriticalInBlock(instructions: seq<nat>)
      requires IdsIn(Code(), instructions)
      modifies this`marked, this`worklist
      ensures worklist == old(worklist) + Keep(instructions, CriticalIds(Code()))
      ensures marked == old(marked) + Elems(Keep(instructions, CriticalIds(Code())))
    {
      ghost var critical := CriticalIds(Code());
      ghost var w0, m0 := worklist, marked;
      for j := 0 to |instructions|
        invariant QueuedPrefix(instructions, j, critical, w0, m0, worklist, marked)
      {
        var instruction := instructions[j];
        ghost var w1, m1 := worklist, marked;
        if IsCritical(Code()[instruction]) {
          marked := marked + {instruction};
          worklist := worklist + [instruction];
        }
        QueuedOne(instructions, j, critical, w0, m0, w1, m1, worklist, marked);
      }
      assert instructions[..|instructions|] == instructions;
    }

    /**
     * `markWorklistReachingDefs`: drains the queue. The marks only grow and
     * stay within the closure of the marks it started with, and every id it
     * marked or found queued ends with everything it needs marked. The ids
     * polled, in order, are `polled`: the queue it found and the ids it
     * marked, so a queue without repeats has each id polled once.
     */
    method MarkWorklistReachingDefs() returns (ghost polled: seq<nat>)
      requires ReachOk(Code(), instrDefMap)
      requires Elems(worklist) <= marked * AllIds(Code())
      modifies this`marked, this`worklist
      ensures worklist == []
      ensures old(marked) <= marked <= Closure(Code(), instrDefMap, old(marked))
      ensures marked - old(marked) <= AllIds(Code())
      ensures AllNeedsIn(Code(), instrDefMap, (marked - old(marked)) + Elems(old(worklist)), marked)
      ensures multiset(polled) == multiset(old(worklist)) + multiset(marked - old(marked))
      ensures NoRepeats(old(worklist)) ==>
        NoRepeats(polled) && Elems(polled) == Elems(old(worklist)) + (marked - old(marked))
    {
      ghost var code, reach := Code(), instrDefMap;
      ghost var live := Closure(code, reach, marked);
      ClosureGrows(code, reach, marked);
      ClosureClosed(code, reach, marked);
      // The ids polled so far: each has all it needs marked.
      ghost var done: set<nat> := {};
      polled := [];
      while |worklist| > 0
        invariant old(marked) <= marked <= live && marked - old(marked) <= AllIds(code)
        invariant Elems(worklist) <= marked * AllIds(code)
        invariant multiset(polled) + multiset(worklist) == multiset(old(worklist)) + multiset(marked - old(marked))
        invariant (marked - old(marked)) + Elems(old(worklist)) <= done + Elems(worklist)
        invariant AllNeedsIn(code, reach, done, marked)
        decreases |AllIds(code) - marked|, |worklist|
      {
        ghost var markedBefore, queuedBefore, queueBefore := marked, Elems(worklist), worklist;
        ghost var head := PollAndMark(live);
        PollAccount(old(marked), markedBefore, marked, Elems(old(worklist)), done, head,
                    queuedBefore, Elems(worklist));
        AllNeedsInGrows(code, reach, done, markedBefore, marked);
        AllNeedsInAdd(code, reach, done, head, marked);
        PolledStep(old(worklist), old(marked), polled, queueBefore, markedBefore, head, worklist, marked);
        done := done + {head};
        polled := polled + [head];
        if marked != markedBefore {
          GrowWithin(AllIds(code), markedBefore, marked);
        }
      }
      if NoRepeats(old(worklist)) {
        PolledOnce(old(worklist), old(marked), marked, polled);
      }
    }

    /**
     * One turn of the worklist loop: the head is polled and what it needs
     * is marked. Whatever was queued or newly marked is afterwards queued or
     * is the polled id; if nothing new was marked the queue is shorter.
     */
    method PollAndMark(ghost live: set<nat>) returns (ghost polled: nat)
      requires ReachOk(Code(), instrDefMap) && |worklist| > 0
      requires Closed(Code(), instrDefMap, live) && marked <= live
      requires Elems(worklist) <= marked * AllIds(Code())
      modifies this`marked, this`worklist
      ensures old(marked) <= marked <= live && marked - old(marked) <= AllIds(Code())
      ensures Elems(worklist) <= marked * AllIds(Code())
      ensures Elems(old(worklist)) + (marked - old(marked)) <= Elems(worklist) + {polled}
      ensures NeedsIn(Code(), instrDefMap, polled, marked)
      ensures marked == old(marked) ==> |worklist| < |old(worklist)|
      ensures multiset(worklist) + multiset{polled} == multiset(old(worklist)) + multiset(marked - old(marked))
    {
      ghost var before := worklist;
      var currentInstruction := worklist[0];
      worklist := worklist[1..];
      polled := currentInstruction;
      ghost var markedBefore, rest := marked, worklist;
      assert before == [currentInstruction] + rest;
      ElemsAppend([currentInstruction], rest);
      assert currentInstruction in Elems(before);
      MarkOperandDefs(currentInstruction, live);
      ghost var added := worklist[|rest|..];
      ElemsOfMultiset(added, marked - markedBefore);
      assert worklist == rest + added;
      ElemsAppend(rest, added);
      QueueTurn(before, currentInstruction, rest, added, markedBefore, marked);
    }

    /**
     * One turn of the worklist loop for the polled instruction: for each of
     * its variable operands, in order, the reaching definitions of that
     * variable are found and marked. Afterwards all it needs is marked, and
     * what was queued is exactly what was newly marked.
     */
    method MarkOperandDefs(currentInstruction: nat, ghost live: set<nat>)
      requires ReachOk(Code(), instrDefMap) && currentInstruction < |Code()|
      requires currentInstruction in live && Closed(Code(), instrDefMap, live) && marked <= live
      modifies this`marked, this`worklist
      ensures old(marked) <= marked <= live && marked - old(marked) <= AllIds(Code())
      ensures |worklist| >= |old(worklist)| && worklist[..|old(worklist)|] == old(worklist)
      ensures multiset(worklist[|old(worklist)|..]) == multiset(marked - old(marked))
      ensures NeedsIn(Code(), instrDefMap, currentInstruction, marked)
    {
      ghost var code, reach := Code(), instrDefMap;
      ghost var m0, w0 := marked, worklist;
      var operands := Code()[currentInstruction].operands;
      assert NeedsIn(code, reach, currentInstruction, live);
      for j := 0 to |operands|
        invariant m0 <= marked <= live && marked - m0 <= AllIds(code)
        invariant |worklist| >= |w0| && worklist[..|w0|] == w0
        invariant multiset(worklist[|w0|..]) == multiset(marked - m0)
        invariant forall d: nat ::
          (DependsOn(code, reach, currentInstruction, d) && AssignedVariable(code[d]).value in operands[..j])
          ==> d in marked
      {
        assert operands[..j + 1] == operands[..j] + [operands[j]];
        if operands[j].Var? {
          RelevantIsDependence(code, reach, currentInstruction, j);
          var definingInstructions := FindReachingDefs(currentInstruction, operands[j].name);
          ghost var mj, wj := marked, worklist;
          MarkDefs(definingInstructions);
          NewlyMarkedSplit(m0, mj, marked);
          QueueGrows(w0, wj, worklist);
        }
      }
      assert operands[..|operands|] == operands;
    }

    /**
     * The innermost loop: each defining instruction not yet marked is
     * marked and queued. Nothing is queued without being marked by this
     * call, so each id is queued here at most once.
     */
    method MarkDefs(definingInstructions: set<nat>)
      modifies this`marked, this`worklist
      ensures marked == old(marked) + definingInstructions
      ensures |worklist| >= |old(worklist)| && worklist[..|old(worklist)|] == old(worklist)
      ensures multiset(worklist[|old(worklist)|..]) == multiset(definingInstructions - old(marked))
    {
      ghost var m0, w0 := marked, worklist;
      var rest := definingInstructions;
      while rest != {}
        invariant DefsQueued(definingInstructions, rest, m0, w0, marked, worklist)
        decreases |rest|
      {
        var defInstr :| defInstr in rest;
        ghost var m1, w1 := marked, worklist;
        if defInstr !in marked {
          marked := marked + {defInstr};
          worklist := worklist + [defInstr];
        }
        DefsStep(definingInstructions, rest, defInstr, m0, w0, m1, w1, marked, worklist);
        rest := rest - {defInstr};
      }
    }

    /**
     * `findReachingDefs`: of the definitions reaching the instruction, those
     * that are definitions assigning the variable named `varName`.
     */
    method FindReachingDefs(instruction: nat, varName: string) returns (relevantDefs: set<nat>)
      requires instruction in instrDefMap
      requires forall d :: d in instrDefMap[instruction] ==>
        d < |Code()| && (IsDef(Code()[d]) ==> AssignedVariable(Code()[d]).Some?)
      ensures forall d :: d in relevantDefs <==>
        (d in instrDefMap[instruction] && IsDef(Code()[d]) && AssignedVariable(Code()[d]).value == Var(varName))
      ensures relevantDefs == Relevant(Code(), instrDefMap[instruction], varName)
    {
      var code := Code();
      var reachingDef := instrDefMap[instruction];
      relevantDefs := {};
      var rest := reachingDef;
      while rest != {}
        invariant rest <= reachingDef
        invariant relevantDefs == Relevant(code, reachingDef - rest, varName)
        decreases |rest|
      {
        var potentialDef :| potentialDef in rest;
        if IsDef(code[potentialDef]) && AssignedVariable(code[potentialDef]).value.name == varName {
          relevantDefs := relevantDefs + {potentialDef};
        }
        rest := rest - {potentialDef};
      }
    }

    /**
     * `sweep`: every block keeps exactly its marked ids, in order, in place;
     * the counter grows by the number of ids removed. The block list, and
     * every block's label, id and edges, are left alone.
     */
    method Sweep()
      requires controlFlowGraph.Valid()
      modifies this`removedInstrCount, controlFlowGraph.basicBlockList`instructions
      ensures controlFlowGraph.Valid()
      ensures controlFlowGraph.Contents() == KeepEach(old(controlFlowGraph.Contents()), marked)
      ensures removedInstrCount == old(removedInstrCount) +
        TotalSize(old(controlFlowGraph.Contents())) - TotalSize(controlFlowGraph.Contents())
    {
      var blocks := controlFlowGraph.GetBlocks();
      ghost var bs := controlFlowGraph.Contents();
      assert forall j :: 0 <= j < |bs| ==> IdsIn(Code(), bs[j]);
      assert DistinctBlocks(blocks) && SweptUpTo(blocks, bs, 0, marked);
      SweepBlocks(blocks, bs);
      SweptAll(Code(), blocks, bs, marked);
    }

    /** The loop of sweep over the blocks of the list. */
    method SweepBlocks(blocks: seq<BasicBlock>, ghost bs: seq<seq<nat>>)
      requires DistinctBlocks(blocks) && SweptUpTo(blocks, bs, 0, marked)
      modifies this`removedInstrCount, blocks`instructions
      ensures SweptUpTo(blocks, bs, |bs|, marked)
      ensures removedInstrCount == old(removedInstrCount) + RemovedFrom(bs, marked)
    {
      for k := 0 to |blocks|
        invariant SweptUpTo(blocks, bs, k, marked)
        invariant removedInstrCount == old(removedInstrCount) + RemovedFrom(bs[..k], marked)
      {
        SweepBlock(blocks, k, bs);
        SweepStep(bs, k, marked);
      }
      assert bs[..|bs|] == bs;
    }

    /** The loop body of sweep, for block k: removeIf on its live list, and the count. */
    method SweepBlock(blocks: seq<BasicBlock>, k: nat, ghost bs: seq<seq<nat>>)
      requires k < |blocks| && DistinctBlocks(blocks) && SweptUpTo(blocks, bs, k, marked)
      modifies this`removedInstrCount, {blocks[k]}`instructions
      ensures SweptUpTo(blocks, bs, k + 1, marked)
      ensures removedInstrCount == old(removedInstrCount) + (|bs[k]| - |Keep(bs[k], marked)|)
    {
      var currBlock := blocks[k];
      var originalSize := |currBlock.GetInstructions()|;
      currBlock.instructions := Keep(currBlock.GetInstructions(), marked);
      var finalSize := |currBlock.GetInstructions()|;
      removedInstrCount := removedInstrCount + (originalSize - finalSize);
    }
  }

  /** Once every block is swept, the blocks hold what sweeping each one keeps. */
  lemma SweptAll(code: seq<Instr>, blocks: seq<BasicBlock>, bs: seq<seq<nat>>, s: set<nat>)
    requires SweptUpTo(blocks, bs, |bs|, s)
    requires forall j :: 0 <= j < |bs| ==> IdsIn(code, bs[j])
    ensures InstrLists(blocks) == KeepEach(bs, s)
    ensures forall k :: 0 <= k < |blocks| ==> IdsIn(code, blocks[k].instructions)
  {
    KeepEachWithin(code, bs, s);
  }

  lemma KeepEachWithin(code: seq<Instr>, bs: seq<seq<nat>>, s: set<nat>)
    requires forall j :: 0 <= j < |bs| ==> IdsIn(code, bs[j])
    ensures forall j :: 0 <= j < |bs| ==> IdsIn(code, KeepEach(bs, s)[j])
  {
    forall j | 0 <= j < |bs|
      ensures IdsIn(code, KeepEach(bs, s)[j])
    {
      KeepWithin(code, bs[j], s);
    }
  }

  /** The first k blocks are swept and the rest are as they were. */
  ghost predicate SweptUpTo(blocks: seq<BasicBlock>, bs: seq<seq<nat>>, k: nat, s: set<nat>)
    reads blocks`instructions
  {
    && |blocks| == |bs| && k <= |bs|
    && (forall j {:trigger blocks[j].instructions} :: 0 <= j < k ==> blocks[j].instructions == Keep(bs[j], s))
    && (forall j {:trigger blocks[j].instructions} :: k <= j < |blocks| ==> blocks[j].instructions == bs[j])
  }

  /**
   * One poll of the worklist keeps every id marked since the start, or
   * queued at the start, either polled or still queued.
   */
  lemma PollAccount(m0: set<nat>, before: set<nat>, after: set<nat>, queued0: set<nat>,
                    done: set<nat>, polled: nat, queuedBefore: set<nat>, queuedAfter: set<nat>)
    requires (before - m0) + queued0 <= done + queuedBefore
    requires before <= after && queuedBefore + (after - before) <= queuedAfter + {polled}
    ensures (after - m0) + queued0 <= (done + {polled}) + queuedAfter
  {
    forall x | x in (after - m0) + queued0
      ensures x in (done + {polled}) + queuedAfter
    {
      if x in before - m0 || x in queued0 {
        assert x in done + queuedBefore;
      } else {
        assert x in after - before;
      }
    }
  }

  /** The critical ids of the first k blocks are queued after `w0`, in order, and marked besides `m0`. */
  predicate QueuedUpTo(bs: seq<seq<nat>>, k: nat, c: set<nat>, w0: seq<nat>, m0: set<nat>, w: seq<nat>, m: set<nat>)
    requires k <= |bs|
  {
    w == w0 + Keep(Concat(bs[..k]), c) && m == m0 + Elems(Keep(Concat(bs[..k]), c))
  }

  /** Queueing block k's critical ids after those of the first k blocks queues those of the first k + 1. */
  lemma QueuedStep(bs: seq<seq<nat>>, k: nat, c: set<nat>, w0: seq<nat>, m0: set<nat>,
                   w1: seq<nat>, m1: set<nat>, w2: seq<nat>, m2: set<nat>)
    requires k < |bs| && QueuedUpTo(bs, k, c, w0, m0, w1, m1)
    requires w2 == w1 + Keep(bs[k], c) && m2 == m1 + Elems(Keep(bs[k], c))
    ensures QueuedUpTo(bs, k + 1, c, w0, m0, w2, m2)
  {
    assert bs[..k + 1] == bs[..k] + [bs[k]];
    ConcatAppend(bs[..k], bs[k]);
    KeepAppend(Concat(bs[..k]), bs[k], c);
    ElemsAppend(Keep(Concat(bs[..k]), c), Keep(bs[k], c));
  }

  /** The critical ids among the first j of `ids` are queued after `w0`, in order, and marked besides `m0`. */
  predicate QueuedPrefix(ids: seq<nat>, j: nat, c: set<nat>, w0: seq<nat>, m0: set<nat>, w: seq<nat>, m: set<nat>)
    requires j <= |ids|
  {
    w == w0 + Keep(ids[..j], c) && m == m0 + Elems(Keep(ids[..j], c))
  }

  /** Queueing id j when it is critical, after those of the first j, queues those of the first j + 1. */
  lemma QueuedOne(ids: seq<nat>, j: nat, c: set<nat>, w0: seq<nat>, m0: set<nat>,
                  w1: seq<nat>, m1: set<nat>, w2: seq<nat>, m2: set<nat>)
    requires j < |ids| && QueuedPrefix(ids, j, c, w0, m0, w1, m1)
    requires ids[j] in c ==> w2 == w1 + [ids[j]] && m2 == m1 + {ids[j]}
    requires ids[j] !in c ==> w2 == w1 && m2 == m1
    ensures QueuedPrefix(ids, j + 1, c, w0, m0, w2, m2)
  {
    assert ids[..j + 1][..j] == ids[..j];
    ElemsAppend(Keep(ids[..j], c), if ids[j] in c then [ids[j]] else []);
  }

  /**
   * The definitions outside `rest` are marked besides `m0`, and those of
   * them that were unmarked are queued after `w0`, each once.
   */
  predicate DefsQueued(defs: set<nat>, rest: set<nat>, m0: set<nat>, w0: seq<nat>, m: set<nat>, w: seq<nat>)
  {
    && rest <= defs
    && m == m0 + (defs - rest)
    && |w| >= |w0| && w[..|w0|] == w0
    && multiset(w[|w0|..]) == multiset((defs - rest) - m0)
  }

  /** Taking x out of `rest`, marking and queueing it when it was unmarked, keeps `DefsQueued`. */
  lemma DefsStep(defs: set<nat>, rest: set<nat>, x: nat, m0: set<nat>, w0: seq<nat>,
                 m1: set<nat>, w1: seq<nat>, m2: set<nat>, w2: seq<nat>)
    requires x in rest && DefsQueued(defs, rest, m0, w0, m1, w1)
    requires x !in m1 ==> m2 == m1 + {x} && w2 == w1 + [x]
    requires x in m1 ==> m2 == m1 && w2 == w1
    ensures DefsQueued(defs, rest - {x}, m0, w0, m2, w2)
  {
    var done := (defs - rest) - m0;
    if x !in m1 {
      assert w1[|w0|..] + [x] == w2[|w0|..];
      assert (defs - (rest - {x})) - m0 == done + {x};
    } else {
      assert (defs - (rest - {x})) - m0 == done;
    }
  }

  /** How many ids sweeping the blocks bs removes. */
  function RemovedFrom(bs: seq<seq<nat>>, s: set<nat>): int
  {
    TotalSize(bs) - TotalSize(KeepEach(bs, s))
  }

  lemma SweepStep(bs: seq<seq<nat>>, k: nat, s: set<nat>)
    requires k < |bs|
    ensures RemovedFrom(bs[..k + 1], s) == RemovedFrom(bs[..k], s) + (|bs[k]| - |Keep(bs[k], s)|)
  {
    assert bs[..k + 1][..k] == bs[..k];
    assert KeepEach(bs[..k + 1], s)[..k] == KeepEach(bs[..k], s);
  }

  /**
   * The count the sweep adds is the number of unmarked ids the blocks
   * held: read in block order, every id is either kept or dropped.
   */
  lemma RemovedIsUnmarked(bs: seq<seq<nat>>, s: set<nat>)
    ensures RemovedFrom(bs, s) == |Dropped(Concat(bs), s)|
    ensures forall x :: x in Dropped(Concat(bs), s) <==> x in Concat(bs) && x !in s
  {
    KeepEachConcat(bs, s);
    KeepDroppedCount(Concat(bs), s);
  }

  /** Sweeping what a sweep left, with at least the same marks, changes and removes nothing. */
  lemma {:induction false} SweepAgainRemovesNothing(bs: seq<seq<nat>>, s: set<nat>, t: set<nat>)
    requires s <= t
    ensures KeepEach(KeepEach(bs, s), t) == KeepEach(bs, s)
    ensures RemovedFrom(KeepEach(bs, s), t) == 0
  {
    forall k | 0 <= k < |bs|
      ensures Keep(KeepEach(bs, s)[k], t) == KeepEach(bs, s)[k]
    {
      KeepAgain(bs[k], s, t);
    }
  }

  /** The instructions that survive elimination in a function: the closure of its critical ones. */
  ghost function Live(code: seq<Instr>, reach: map<nat, set<nat>>): set<nat>
  {
    Closure(code, reach, CriticalIds(code))
  }

  /** Over a whole function in order, the critical ids queued are all the critical ids. */
  lemma CriticalQueueOfFunction(code: seq<Instr>)
    ensures Elems(Keep(Range(|code|), CriticalIds(code))) == CriticalIds(code)
  {
    KeepElems(Range(|code|), CriticalIds(code));
    forall x | x in CriticalIds(code)
      ensures x in Range(|code|)
    {
      assert Range(|code|)[x] == x;
    }
  }

  /**
   * When the critical ids of a whole function in order are queued first, the
   * ids polled repeat nothing: each critical id and each newly marked id
   * once, so there are at most as many polls as instructions.
   */
  lemma PolledOncePerInstruction(code: seq<Instr>, marks: set<nat>, kept: set<nat>, polled: seq<nat>)
    requires kept - marks <= AllIds(code)
    requires NoRepeats(Keep(Range(|code|), CriticalIds(code))) ==>
      NoRepeats(polled) && Elems(polled) == Elems(Keep(Range(|code|), CriticalIds(code))) + (kept - marks)
    ensures NoRepeats(polled) && Elems(polled) == CriticalIds(code) + (kept - marks)
    ensures |polled| <= |code|
  {
    KeepRangeNoRepeats(|code|, CriticalIds(code));
    CriticalQueueOfFunction(code);
    ElemsOfMultiset(polled, Elems(polled));
    SubsetCount(Elems(polled), AllIds(code));
    IdsBelowCount(|code|);
  }

  /**
   * One elimination pass, as the driver runs it, over `cfg` whose
   * instructions already carry the flags `marks`; returns the count and the
   * flags it leaves set, and `polled`, the ids its queue polled in order.
   */
  method Eliminate(cfg: CFG, reach: map<nat, set<nat>>, marks: set<nat>)
      returns (removed: int, kept: set<nat>, ghost polled: seq<nat>)
    requires cfg.Valid() && ReachOk(cfg.Code(), reach)
    modifies cfg.basicBlockList`instructions
    ensures cfg.Valid() && marks <= kept
    ensures Closed(cfg.Code(), reach, marks) ==>
      kept == Closure(cfg.Code(), reach, marks + Elems(Keep(Concat(old(cfg.Contents())), CriticalIds(cfg.Code()))))
    ensures cfg.Contents() == KeepEach(old(cfg.Contents()), kept)
    ensures removed == TotalSize(old(cfg.Contents())) - TotalSize(cfg.Contents())
    ensures removed == |Dropped(Concat(old(cfg.Contents())), kept)|
    ensures multiset(polled) == multiset(Keep(Concat(old(cfg.Contents())), CriticalIds(cfg.Code()))) +
      multiset(kept - (marks + Elems(Keep(Concat(old(cfg.Contents())), CriticalIds(cfg.Code())))))
    ensures Concat(old(cfg.Contents())) == Range(|cfg.Code()|) ==>
      NoRepeats(polled) && Elems(polled) == CriticalIds(cfg.Code()) + (kept - marks) && |polled| <= |cfg.Code()|
  {
    ghost var before := cfg.Contents();
    var dce := new DeadCode(cfg, reach, marks);
    assert cfg.Contents() == before;
    removed, polled := dce.PerformDCE();
    kept := dce.marked;
    RemovedIsUnmarked(before, kept);
    if Concat(before) == Range(|cfg.Code()|) {
      PolledOncePerInstruction(cfg.Code(), marks, kept, polled);
    }
  }

  /** No instruction with a critical opcode is ever swept from a function. */
  lemma CriticalSurvive(code: seq<Instr>, reach: map<nat, set<nat>>)
    ensures forall i :: i in CriticalIds(code) ==> i in Keep(Range(|code|), Live(code, reach))
  {
    ClosureGrows(code, reach, CriticalIds(code));
    KeepElems(Range(|code|), Live(code, reach));
    forall i | i in CriticalIds(code)
      ensures i in Range(|code|)
    {
      assert Range(|code|)[i] == i;
    }
  }

  /** Starting from no flags over a whole function, the marks reached are `Live`. */
  lemma FreshSeed(code: seq<Instr>, reach: map<nat, set<nat>>, parts: seq<seq<nat>>)
    requires Concat(parts) == Range(|code|)
    ensures Closed(code, reach, {})
    ensures Closure(code, reach, {} + Elems(Keep(Concat(parts), CriticalIds(code)))) == Live(code, reach)
  {
    CriticalQueueOfFunction(code);
    assert {} + Elems(Keep(Concat(parts), CriticalIds(code))) == CriticalIds(code);
  }

  /**
   * Graph construction, elimination over fresh instructions, and
   * flattening back, for one function: the result holds, in their original
   * order, exactly the instructions in the closure of the critical ones,
   * and the count is the number of instructions that went.
   */
  method Optimize(f: IRFunction, reach: map<nat, set<nat>>) returns (r: Option<IRFunction>, removed: int)
    requires WellFormedCode(f.instructions) && ReachOk(f.instructions, reach)
    ensures r.None? <==> MissingLabelOf(f.instructions).Some?
    ensures r.Some? ==> r.value.name == f.name && r.value.returnType == f.returnType
    ensures r.Some? ==> r.value.parameters == f.parameters && r.value.variables == f.variables
    ensures r.Some? ==> IdsIn(f.instructions, Keep(Range(|f.instructions|), Live(f.instructions, reach)))
    ensures r.Some? ==>
      r.value.instructions == Instrs(f.instructions, Keep(Range(|f.instructions|), Live(f.instructions, reach)))
    ensures r.Some? ==> removed == |f.instructions| - |r.value.instructions|
    ensures r.Some? ==> forall i :: i in CriticalIds(f.instructions) ==>
      i in Keep(Range(|f.instructions|), Live(f.instructions, reach))
  {
    var cfg := new CFG(f);
    var outcome := cfg.CreateCFG();
    if outcome.MissingLabel? {
      return None, 0;
    }
    PartitionCorrect(f.instructions);
    CriticalSurvive(f.instructions, reach);
    var g;
    g, removed := EliminateAndFlatten(cfg, reach);
    r := Some(g);
  }

  /**
   * The part of the driver after graph construction: elimination over fresh
   * instructions, then flattening, on a graph whose blocks cover the
   * function in order.
   */
  method EliminateAndFlatten(cfg: CFG, reach: map<nat, set<nat>>) returns (g: IRFunction, removed: int)
    requires cfg.Valid() && ReachOk(cfg.Code(), reach)
    requires Concat(cfg.Contents()) == Range(|cfg.Code()|)
    modifies cfg.basicBlockList`instructions
    ensures g == cfg.parentFunc.(instructions := g.instructions)
    ensures LiveInOrder(cfg.Code(), reach, g.instructions)
    ensures removed == |cfg.Code()| - |g.instructions|
  {
    ghost var code, parts := cfg.Code(), cfg.Contents();
    FreshSeed(code, reach, parts);
    var kept;
    ghost var polled;
    removed, kept, polled := Eliminate(cfg, reach, {});
    ghost var after := cfg.Contents();
    g := cfg.CFGToIRFunction();
    LiveFlattened(code, reach, parts, kept, after, g.instructions);
  }

  /** `instrs` holds exactly the function's live instructions, in their original order. */
  ghost predicate LiveInOrder(code: seq<Instr>, reach: map<nat, set<nat>>, instrs: seq<Instr>)
  {
    IdsIn(code, Keep(Range(|code|), Live(code, reach))) && instrs == Instrs(code, Keep(Range(|code|), Live(code, reach)))
  }

  /** Sweeping blocks that cover the function in order, with the live marks, leaves the live ids in order. */
  lemma LiveFlattened(code: seq<Instr>, reach: map<nat, set<nat>>, parts: seq<seq<nat>>, kept: set<nat>,
                      after: seq<seq<nat>>, flat: seq<Instr>)
    requires Concat(parts) == Range(|code|) && kept == Live(code, reach)
    requires after == KeepEach(parts, kept)
    requires IdsIn(code, Concat(after)) && flat == Instrs(code, Concat(after))
    ensures LiveInOrder(code, reach, flat)
    ensures TotalSize(parts) - TotalSize(after) == |code| - |flat|
  {
    KeepEachConcat(parts, kept);
  }

  /**
   * A second elimination over the same graph, with the flags the first one
   * left set, removes nothing, whatever reaching definitions it is given
   * (`reachAgain`, recomputed over the swept graph or not): every id the
   * first sweep kept is marked, and the marks only grow.
   */
  method EliminateTwice(cfg: CFG, reach: map<nat, set<nat>>, reachAgain: map<nat, set<nat>>)
      returns (first: int, second: int)
    requires cfg.Valid() && ReachOk(cfg.Code(), reach) && ReachOk(cfg.Code(), reachAgain)
    modifies cfg.basicBlockList`instructions
    ensures first == TotalSize(old(cfg.Contents())) - TotalSize(cfg.Contents())
    ensures second == 0
  {
    ghost var before := cfg.Contents();
    var marks, marksAgain;
    ghost var polled, polledAgain;
    first, marks, polled := Eliminate(cfg, reach, {});
    second, marksAgain, polledAgain := Eliminate(cfg, reachAgain, marks);
    SweepAgainRemovesNothing(before, marks, marksAgain);
  }
}
