/**
 * What dead-code elimination computes (materials/src/ir/optimizer/DeadCode.java),
 * stated on values: instruction ids index the function's instruction list,
 * the reaching-definitions map sends an id to the ids of the definitions
 * that reach it, and the marks are a set of ids.
 *
 * An instruction m needs a definition d when d reaches m, d is a
 * definition, and the variable d assigns is among m's operands (operand 0
 * included). The marks the optimizer ends with are the least set that holds
 * the seeds and is closed under "needs"; the sweep keeps, block by block,
 * exactly the marked ids in their order.
 */
module Marking {
  import opened IR
  import opened CfgShape

  /** The ids of the function's instructions. */
  function AllIds(code: seq<Instr>): (u: set<nat>)
    ensures forall i :: i in u <==> 0 <= i < |code|
  {
    IdsBelow(|code|)
  }

  function IdsBelow(n: nat): (u: set<nat>)
    ensures forall i :: i in u <==> 0 <= i < n
  {
    if n == 0 then {} else IdsBelow(n - 1) + {n - 1}
  }

  /** The set of values a sequence holds. */
  function Elems(s: seq<nat>): set<nat>
  {
    set x | x in s
  }

  lemma ElemsAppend(a: seq<nat>, b: seq<nat>)
    ensures Elems(a + b) == Elems(a) + Elems(b)
  {
  }

  /** A sequence counts each member of s exactly once: it holds s and is as long as s. */
  lemma ElemsOfMultiset(q: seq<nat>, s: set<nat>)
    requires multiset(q) == multiset(s)
    ensures Elems(q) == s && |q| == |s|
  {
    forall x | x in q
      ensures x in s
    {
      assert x in multiset(q);
    }
    forall x | x in s
      ensures x in q
    {
      assert x in multiset(s);
    }
    assert |multiset(q)| == |q|;
    assert |multiset(s)| == |s|;
  }

  // ---------------------------------------------------------------------
  // The dependence relation and the reaching-definitions map

  /** Does instruction `m` need definition `d`: d reaches m, is a definition, and assigns a variable m reads or writes? */
  predicate DependsOn(code: seq<Instr>, reach: map<nat, set<nat>>, m: nat, d: nat)
  {
    && m < |code| && m in reach && d in reach[m] && d < |code|
    && IsDef(code[d]) && AssignedVariable(code[d]).Some?
    && AssignedVariable(code[d]).value in code[m].operands
  }

  /** Some operand of the instruction is a variable. */
  predicate HasVar(i: Instr)
  {
    exists j :: 0 <= j < |i.operands| && i.operands[j].Var?
  }

  /**
   * What the optimizer dereferences without checking: an instruction with
   * a variable operand has an entry in the map, every reaching id is an
   * instruction, and a reaching definition assigns a variable.
   */
  predicate ReachOk(code: seq<Instr>, reach: map<nat, set<nat>>)
  {
    && (forall i :: 0 <= i < |code| && HasVar(code[i]) ==> i in reach)
    && (forall i :: i in reach ==> forall d :: d in reach[i] ==>
          d < |code| && (IsDef(code[d]) ==> AssignedVariable(code[d]).Some?))
  }

  /** `findReachingDefs`: the members of `defs` that are definitions of the variable named v. */
  function Relevant(code: seq<Instr>, defs: set<nat>, v: string): set<nat>
  {
    set d | d in defs && d < |code| && IsDef(code[d]) &&
      AssignedVariable(code[d]).Some? && AssignedVariable(code[d]).value.name == v
  }

  /**
   * The filter findReachingDefs applies is the dependence relation read
   * one operand at a time: what it returns for a variable operand of m is
   * needed by m, and whatever m needs it returns for the operand that
   * names the definition's variable.
   */
  lemma RelevantIsDependence(code: seq<Instr>, reach: map<nat, set<nat>>, m: nat, j: nat)
    requires ReachOk(code, reach) && m < |code| && j < |code[m].operands| && code[m].operands[j].Var?
    ensures m in reach
    ensures forall d :: d in reach[m] ==> d < |code| && (IsDef(code[d]) ==> AssignedVariable(code[d]).Some?)
    ensures forall d: nat :: d in Relevant(code, reach[m], code[m].operands[j].name) <==>
      DependsOn(code, reach, m, d) && AssignedVariable(code[d]).value == code[m].operands[j]
  {
    assert HasVar(code[m]);
  }

  // ---------------------------------------------------------------------
  // Closed sets and the closure

  /** Everything m needs is in s. */
  ghost predicate NeedsIn(code: seq<Instr>, reach: map<nat, set<nat>>, m: nat, s: set<nat>)
  {
    forall d: nat :: DependsOn(code, reach, m, d) ==> d in s
  }

  /** Everything any member of `done` needs is in s. */
  ghost predicate AllNeedsIn(code: seq<Instr>, reach: map<nat, set<nat>>, done: set<nat>, s: set<nat>)
  {
    forall m :: m in done ==> NeedsIn(code, reach, m, s)
  }

  lemma AllNeedsInGrows(code: seq<Instr>, reach: map<nat, set<nat>>, done: set<nat>, a: set<nat>, b: set<nat>)
    requires a <= b && AllNeedsIn(code, reach, done, a)
    ensures AllNeedsIn(code, reach, done, b)
  {
    forall m, d | m in done && DependsOn(code, reach, m, d)
      ensures d in b
    {
      assert NeedsIn(code, reach, m, a);
    }
  }

  lemma AllNeedsInAdd(code: seq<Instr>, reach: map<nat, set<nat>>, done: set<nat>, m: nat, s: set<nat>)
    requires AllNeedsIn(code, reach, done, s) && NeedsIn(code, reach, m, s)
    ensures AllNeedsIn(code, reach, done + {m}, s)
  {
  }

  /** s is closed: whatever a member needs is a member. */
  ghost predicate Closed(code: seq<Instr>, reach: map<nat, set<nat>>, s: set<nat>)
  {
    AllNeedsIn(code, reach, s, s)
  }

  /** The instructions some member of s needs. */
  ghost function Needed(code: seq<Instr>, reach: map<nat, set<nat>>, s: set<nat>): (r: set<nat>)
    ensures r <= AllIds(code)
  {
    set d | d in AllIds(code) && exists m :: m in s && DependsOn(code, reach, m, d)
  }

  /** A strictly larger set, grown within u, leaves less of u outside. */
  lemma GrowWithin(u: set<nat>, a: set<nat>, b: set<nat>)
    requires a <= b && b - a <= u && a != b
    ensures |u - b| < |u - a|
  {
    assert !(b <= a);
    var x :| x in b && x !in a;
    var outA, outB := u - a, u - b;
    assert outA == outB + (outA - outB);
    assert outB * (outA - outB) == {};
    assert x in outA - outB;
  }

  /** The least closed set holding s: add what the members need until nothing is missing. */
  ghost function Closure(code: seq<Instr>, reach: map<nat, set<nat>>, s: set<nat>): set<nat>
    decreases |AllIds(code) - s|
  {
    var next := s + Needed(code, reach, s);
    if next == s then s
    else
      GrowWithin(AllIds(code), s, next);
      Closure(code, reach, next)
  }

  lemma {:induction false} ClosureGrows(code: seq<Instr>, reach: map<nat, set<nat>>, s: set<nat>)
    ensures s <= Closure(code, reach, s)
    decreases |AllIds(code) - s|
  {
    var next := s + Needed(code, reach, s);
    if next != s {
      GrowWithin(AllIds(code), s, next);
      ClosureGrows(code, reach, next);
    }
  }

  lemma {:induction false} ClosureClosed(code: seq<Instr>, reach: map<nat, set<nat>>, s: set<nat>)
    ensures Closed(code, reach, Closure(code, reach, s))
    decreases |AllIds(code) - s|
  {
    var next := s + Needed(code, reach, s);
    if next == s {
      forall m, d | m in s && DependsOn(code, reach, m, d)
        ensures d in s
      {
        assert d in Needed(code, reach, s);
      }
    } else {
      GrowWithin(AllIds(code), s, next);
      ClosureClosed(code, reach, next);
    }
  }

  /** Any closed set holding s holds its closure. */
  lemma {:induction false} ClosureLeast(code: seq<Instr>, reach: map<nat, set<nat>>, s: set<nat>, t: set<nat>)
    requires Closed(code, reach, t) && s <= t
    ensures Closure(code, reach, s) <= t
    decreases |AllIds(code) - s|
  {
    var next := s + Needed(code, reach, s);
    if next != s {
      forall d | d in Needed(code, reach, s)
        ensures d in t
      {
        var m :| m in s && DependsOn(code, reach, m, d);
        assert NeedsIn(code, reach, m, t);
      }
      GrowWithin(AllIds(code), s, next);
      ClosureLeast(code, reach, next, t);
    }
  }

  /** A closed set is its own closure. */
  lemma ClosureOfClosed(code: seq<Instr>, reach: map<nat, set<nat>>, s: set<nat>)
    requires Closed(code, reach, s)
    ensures Closure(code, reach, s) == s
  {
    ClosureGrows(code, reach, s);
    ClosureLeast(code, reach, s, s);
  }

  // ---------------------------------------------------------------------
  // Keeping the marked ids

  /** The ids of `ids` that are in s, in their order: what `removeIf(!marked)` leaves. */
  function Keep(ids: seq<nat>, s: set<nat>): (r: seq<nat>)
    ensures |r| <= |ids|
  {
    if ids == [] then []
    else Keep(ids[..|ids| - 1], s) + (if ids[|ids| - 1] in s then [ids[|ids| - 1]] else [])
  }

  /** The kept ids are exactly the ids that are in s. */
  lemma {:induction false} KeepElems(ids: seq<nat>, s: set<nat>)
    ensures forall x :: x in Keep(ids, s) <==> x in ids && x in s
  {
    if ids != [] {
      KeepElems(ids[..|ids| - 1], s);
      assert ids == ids[..|ids| - 1] + [ids[|ids| - 1]];
    }
  }

  lemma {:induction false} KeepAppend(a: seq<nat>, b: seq<nat>, s: set<nat>)
    ensures Keep(a + b, s) == Keep(a, s) + Keep(b, s)
    decreases |b|
  {
    if b != [] {
      var b0 := b[..|b| - 1];
      assert (a + b)[..|a + b| - 1] == a + b0;
      KeepAppend(a, b0, s);
    } else {
      assert a + b == a;
    }
  }

  /** What is kept of ids of the function are ids of the function. */
  lemma {:induction false} KeepWithin(code: seq<Instr>, ids: seq<nat>, s: set<nat>)
    requires IdsIn(code, ids)
    ensures IdsIn(code, Keep(ids, s))
  {
    if ids != [] {
      KeepWithin(code, ids[..|ids| - 1], s);
    }
  }

  /** Keeping everything changes nothing. */
  lemma {:induction false} KeepAllMarked(ids: seq<nat>, s: set<nat>)
    requires forall x :: x in ids ==> x in s
    ensures Keep(ids, s) == ids
  {
    if ids != [] {
      KeepAllMarked(ids[..|ids| - 1], s);
      assert ids == ids[..|ids| - 1] + [ids[|ids| - 1]];
    }
  }

  /** Keeping is idempotent, and keeping with a larger set after a smaller one changes nothing. */
  lemma KeepAgain(ids: seq<nat>, s: set<nat>, t: set<nat>)
    requires s <= t
    ensures Keep(Keep(ids, s), t) == Keep(ids, s)
  {
    KeepElems(ids, s);
    KeepAllMarked(Keep(ids, s), t);
  }

  /** a occurs in b in order, possibly with gaps. */
  ghost predicate Subseq(a: seq<nat>, b: seq<nat>)
    decreases |b|
  {
    if a == [] then true
    else if b == [] then false
    else if a[|a| - 1] == b[|b| - 1] then Subseq(a[..|a| - 1], b[..|b| - 1])
    else Subseq(a, b[..|b| - 1])
  }

  lemma {:induction false} SubseqDrop(a: seq<nat>, b: seq<nat>)
    requires a != [] && Subseq(a, b)
    ensures Subseq(a[..|a| - 1], b)
    decreases |b|, 0
  {
    var a0, b0, y := a[..|a| - 1], b[..|b| - 1], b[|b| - 1];
    assert b0 + [y] == b;
    if a[|a| - 1] != y {
      SubseqDrop(a, b0);
    }
    SubseqWeaken(a0, b0, y);
  }

  lemma {:induction false} SubseqWeaken(a: seq<nat>, b: seq<nat>, x: nat)
    requires Subseq(a, b)
    ensures Subseq(a, b + [x])
    decreases |b|, 1
  {
    var bx := b + [x];
    assert bx[..|bx| - 1] == b;
    if a != [] && a[|a| - 1] == x {
      SubseqDrop(a, b);
    }
  }

  lemma SubseqExtend(a: seq<nat>, b: seq<nat>, x: nat)
    requires Subseq(a, b)
    ensures Subseq(a + [x], b + [x])
  {
    var ax, bx := a + [x], b + [x];
    assert ax[..|ax| - 1] == a && bx[..|bx| - 1] == b;
  }

  /** What the sweep leaves of a block is a subsequence of it: nothing moves, nothing is added. */
  lemma {:induction false} KeepIsSubseq(ids: seq<nat>, s: set<nat>)
    ensures Subseq(Keep(ids, s), ids)
  {
    if ids != [] {
      var init, last := ids[..|ids| - 1], ids[|ids| - 1];
      KeepIsSubseq(init, s);
      assert init + [last] == ids;
      if last in s {
        assert Keep(ids, s) == Keep(init, s) + [last];
        SubseqExtend(Keep(init, s), init, last);
      } else {
        assert Keep(ids, s) == Keep(init, s) + [] == Keep(init, s);
        SubseqWeaken(Keep(init, s), init, last);
      }
    }
  }

  /** The ids the sweep removes: those of `ids` not in s. */
  function Dropped(ids: seq<nat>, s: set<nat>): seq<nat>
  {
    if ids == [] then []
    else Dropped(ids[..|ids| - 1], s) + (if ids[|ids| - 1] in s then [] else [ids[|ids| - 1]])
  }

  /** Every id is either kept or dropped: the removal count is the number of unmarked ids. */
  lemma {:induction false} KeepDroppedCount(ids: seq<nat>, s: set<nat>)
    ensures |Keep(ids, s)| + |Dropped(ids, s)| == |ids|
    ensures forall x :: x in Dropped(ids, s) <==> x in ids && x !in s
  {
    if ids != [] {
      KeepDroppedCount(ids[..|ids| - 1], s);
      assert ids == ids[..|ids| - 1] + [ids[|ids| - 1]];
    }
  }

  /** Every block swept. */
  function KeepEach(bs: seq<seq<nat>>, s: set<nat>): (r: seq<seq<nat>>)
    ensures |r| == |bs|
    ensures forall k :: 0 <= k < |bs| ==> r[k] == Keep(bs[k], s)
  {
    if bs == [] then [] else KeepEach(bs[..|bs| - 1], s) + [Keep(bs[|bs| - 1], s)]
  }

  /** Sweeping the blocks one by one and reading them in order is sweeping the flattened list. */
  lemma {:induction false} KeepEachConcat(bs: seq<seq<nat>>, s: set<nat>)
    ensures Concat(KeepEach(bs, s)) == Keep(Concat(bs), s)
  {
    if bs != [] {
      var init := bs[..|bs| - 1];
      KeepEachConcat(init, s);
      assert KeepEach(bs, s)[..|bs| - 1] == KeepEach(init, s);
      KeepAppend(Concat(init), bs[|bs| - 1], s);
    }
  }

  lemma {:induction false} KeepEachAllMarked(bs: seq<seq<nat>>, s: set<nat>)
    requires forall k, x :: 0 <= k < |bs| && x in bs[k] ==> x in s
    ensures KeepEach(bs, s) == bs
  {
    forall k | 0 <= k < |bs|
      ensures Keep(bs[k], s) == bs[k]
    {
      KeepAllMarked(bs[k], s);
    }
  }
}
