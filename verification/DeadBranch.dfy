/**
 * The dead-branch plan and the chain simulation before it (scripts/gauntlet-gs033/plan.py:61-94).
 */
module DeadBranch {
  import opened SlotSchedule
  import opened Arithmetic

  datatype Plan = Plan(sT: int, S: int, P1: Node, dead: seq<(int, Node)>, healSlot: int,
                       canon: seq<(int, Node)>, deadList: seq<Node>, xBuildsB: bool, ok: bool)

  function Without(order: seq<Node>, X: Node): seq<Node> {
    if order == [] then []
    else if order[0] != X then [order[0]] + Without(order[1..], X)
    else Without(order[1..], X)
  }

  function In(M: set<Node>): Node -> bool { v => v in M }

  function Not(X: Node): Node -> bool { v => v != X }

  /** The source loops forever, or divides by zero, unless a minority node other than X is in the order. */
  predicate Plannable(order: seq<Node>, X: Node, M: set<Node>) {
    Meets(Without(order, X), In(M))
  }

  lemma {:induction false} WithoutExact(order: seq<Node>, X: Node, v: Node)
    ensures v in Without(order, X) <==> v in order && v != X
  {
    if order != [] {
      WithoutExact(order[1..], X, v);
      assert order == [order[0]] + order[1..];
    }
  }

  /** What is left stays in order. */
  lemma {:induction false} WithoutInOrder(a: seq<Node>, b: seq<Node>, X: Node)
    ensures Without(a + b, X) == Without(a, X) + Without(b, X)
    decreases |a|
  {
    if a == [] {
      assert a + b == b;
    } else {
      WithoutInOrder(a[1..], b, X);
      assert (a + b)[1..] == a[1..] + b;
    }
  }

  lemma PlannableExact(order: seq<Node>, X: Node, M: set<Node>)
    ensures Plannable(order, X, M) <==> exists v :: v in order && v in M && v != X
    ensures Plannable(order, X, M) ==> order != [] && Meets(order, Not(X))
  {
    var DL := Without(order, X);
    if Plannable(order, X, M) {
      var i :| 0 <= i < |DL| && DL[i] in M;
      WithoutExact(order, X, DL[i]);
      var j :| 0 <= j < |order| && order[j] == DL[i];
      assert Not(X)(order[j]);
    }
    if v :| v in order && v in M && v != X {
      WithoutExact(order, X, v);
      var i :| 0 <= i < |DL| && DL[i] == v;
      assert In(M)(DL[i]);
    }
  }

  // ----- plan_from_S -----

  /** The dead slots: S itself, then each next slot whose dead-list leader is in the minority. */
  function DeadSlots(DL: seq<Node>, M: set<Node>, S: int, P1: Node, k: nat): (d: seq<(int, Node)>)
    requires Meets(DL, In(M)) && k >= 1
    ensures |d| == k
    decreases k
  {
    if k == 1 then [(S, P1)]
    else
      var d := DeadSlots(DL, M, S, P1, k - 1);
      var t := NextSlot(DL, In(M), d[k - 2].0 + 1);
      d + [(t, Lead(DL, t))]
  }

  /** The slots of [lo, hi) led outside the minority. */
  function Canonical(order: seq<Node>, M: set<Node>, lo: int, hi: int): seq<(int, Node)>
    requires order != []
    decreases hi - lo
  {
    if lo >= hi then []
    else (if Lead(order, lo) in M then [] else [(lo, Lead(order, lo))]) + Canonical(order, M, lo + 1, hi)
  }

  function DeadCount(deadLen: int): nat { if deadLen < 1 then 1 else deadLen }

  function PlanOf(order: seq<Node>, X: Node, M: set<Node>, deadLen: int, S: int, sT: int): Plan
    requires order != [] && Plannable(order, X, M)
  {
    var DL := Without(order, X);
    var P1 := Lead(order, S);
    var dead := DeadSlots(DL, M, S, P1, DeadCount(deadLen));
    var heal := NextSlot(DL, In(M), dead[|dead| - 1].0 + 1);
    var canon := Canonical(order, M, S + 1, heal);
    var xb := Lead(order, S + 1) == X;
    Plan(sT, S, P1, dead, heal, canon, DL, xb, P1 in M && |canon| > deadLen && xb)
  }

  method ListDead(DL: seq<Node>, M: set<Node>, S: int, P1: Node, deadLen: int) returns (dead: seq<(int, Node)>)
    requires Meets(DL, In(M))
    ensures dead == DeadSlots(DL, M, S, P1, DeadCount(deadLen))
  {
    hide Meets, NextSlot;
    var s := S;
    dead := [(S, P1)];
    while |dead| < deadLen
      invariant 1 <= |dead| <= DeadCount(deadLen)
      invariant dead == DeadSlots(DL, M, S, P1, |dead|) && s == dead[|dead| - 1].0
    {
      s := FindSlot(DL, In(M), s + 1);
      dead := dead + [(s, Lead(DL, s))];
    }
  }

  /** One slot moved from the rest of the range to what is already listed. */
  lemma CanonicalStep(order: seq<Node>, M: set<Node>, listed: seq<(int, Node)>, t: int, hi: int)
    requires order != []
    ensures t >= hi ==> listed + Canonical(order, M, t, hi) == listed
    ensures t < hi ==> listed + Canonical(order, M, t, hi)
                       == (if Lead(order, t) in M then listed else listed + [(t, Lead(order, t))])
                          + Canonical(order, M, t + 1, hi)
  {
    hide Lead;
    if t < hi {
      var rest := Canonical(order, M, t + 1, hi);
      assert [] + rest == rest && listed + ([(t, Lead(order, t))] + rest) == listed + [(t, Lead(order, t))] + rest;
    }
  }

  method ListCanonical(order: seq<Node>, M: set<Node>, lo: int, hi: int) returns (canon: seq<(int, Node)>)
    requires order != []
    ensures canon == Canonical(order, M, lo, hi)
  {
    canon := [];
    var t := lo;
    assert canon + Canonical(order, M, lo, hi) == Canonical(order, M, lo, hi);
    hide Canonical, Lead;
    while t < hi
      invariant lo <= t
      invariant canon + Canonical(order, M, t, hi) == Canonical(order, M, lo, hi)
    {
      CanonicalStep(order, M, canon, t, hi);
      var v := Lead(order, t);
      if v !in M { canon := canon + [(t, v)]; }
      t := t + 1;
    }
    CanonicalStep(order, M, canon, t, hi);
  }

  method PlanFromS(order: seq<Node>, X: Node, M: set<Node>, deadLen: int, S: int, sT: int) returns (p: Plan)
    requires order != [] && Plannable(order, X, M)
    ensures p == PlanOf(order, X, M, deadLen, S, sT)
  {
    hide NextSlot, DeadSlots, Canonical, Without, Lead;
    var DL := Without(order, X);
    var P1 := Lead(order, S);
    var dead := ListDead(DL, M, S, P1, deadLen);
    var s := FindSlot(DL, In(M), dead[|dead| - 1].0 + 1);
    var canon := ListCanonical(order, M, S + 1, s);
    var xb := Lead(order, S + 1) == X;
    p := Plan(sT, S, P1, dead, s, canon, DL, xb, P1 in M && |canon| > deadLen && xb);
  }

  /** No slot strictly between a and b has a minority leader on the dead list. */
  ghost predicate NoMinority(DL: seq<Node>, M: set<Node>, a: int, b: int)
    requires DL != []
  {
    forall u :: a < u < b ==> Lead(DL, u) !in M
  }

  /** b is the next minority slot of the dead list after a. */
  ghost predicate NextMinority(DL: seq<Node>, M: set<Node>, a: int, b: int)
    requires DL != []
  {
    a < b && Lead(DL, b) in M && NoMinority(DL, M, a, b)
  }

  lemma NextSlotIsMinority(DL: seq<Node>, M: set<Node>, s: int)
    requires Meets(DL, In(M))
    ensures var t := NextSlot(DL, In(M), s + 1); NextMinority(DL, M, s, t) && t <= s + |DL|
  {
    var t := NextSlot(DL, In(M), s + 1);
    assert In(M)(Lead(DL, t));
    forall u | s < u < t ensures Lead(DL, u) !in M { assert !In(M)(Lead(DL, u)); }
  }

  ghost predicate DeadChain(DL: seq<Node>, M: set<Node>, d: seq<(int, Node)>)
    requires DL != []
  {
    forall i :: 1 <= i < |d| ==> NextMinority(DL, M, d[i - 1].0, d[i].0) && d[i].1 == Lead(DL, d[i].0)
  }

  lemma {:induction false} DeadSlotsExact(DL: seq<Node>, M: set<Node>, S: int, P1: Node, k: nat)
    requires Meets(DL, In(M)) && k >= 1
    ensures DeadSlots(DL, M, S, P1, k)[0] == (S, P1)
    ensures DeadChain(DL, M, DeadSlots(DL, M, S, P1, k))
  {
    if k > 1 {
      LastDeadSlot(DL, M, S, P1, k);
      hide Lead, NextSlot, NextMinority, Meets, DeadSlots, DeadChain;
      var c := DeadSlots(DL, M, S, P1, k - 1);
      DeadSlotsExact(DL, M, S, P1, k - 1);
      NextSlotIsMinority(DL, M, c[k - 2].0);
      var t := NextSlot(DL, In(M), c[k - 2].0 + 1);
      ChainLonger(DL, M, c, (t, Lead(DL, t)));
    }
  }

  lemma LastDeadSlot(DL: seq<Node>, M: set<Node>, S: int, P1: Node, k: nat)
    requires Meets(DL, In(M)) && k > 1
    ensures var c := DeadSlots(DL, M, S, P1, k - 1);
            var t := NextSlot(DL, In(M), c[k - 2].0 + 1);
            DeadSlots(DL, M, S, P1, k) == c + [(t, Lead(DL, t))]
  {
    hide Lead, NextSlot, Meets;
  }

  lemma ChainLonger(DL: seq<Node>, M: set<Node>, c: seq<(int, Node)>, e: (int, Node))
    requires DL != [] && c != [] && DeadChain(DL, M, c)
    requires NextMinority(DL, M, c[|c| - 1].0, e.0) && e.1 == Lead(DL, e.0)
    ensures DeadChain(DL, M, c + [e])
  {
    hide Lead, NextMinority;
  }

  lemma {:induction false} DeadSlotsBound(DL: seq<Node>, M: set<Node>, S: int, P1: Node, k: nat)
    requires Meets(DL, In(M)) && k >= 1
    ensures DeadSlots(DL, M, S, P1, k)[k - 1].0 <= S + Turns(k - 1, |DL|)
  {
    if k > 1 {
      LastDeadSlot(DL, M, S, P1, k);
      hide Lead, NextSlot, NextMinority, Meets, DeadSlots;
      DeadSlotsBound(DL, M, S, P1, k - 1);
      NextSlotIsMinority(DL, M, DeadSlots(DL, M, S, P1, k - 1)[k - 2].0);
    }
  }

  function Turns(k: nat, n: nat): nat { if k == 0 then 0 else Turns(k - 1, n) + n }

  lemma {:induction false} TurnsIsProduct(k: nat, n: nat)
    ensures Turns(k, n) == k * n
  {
    if k > 0 {
      TurnsIsProduct(k - 1, n);
      assert k * n == (k - 1) * n + n;
    }
  }

  predicate Increasing(c: seq<(int, Node)>) {
    forall i, j :: 0 <= i < j < |c| ==> c[i].0 < c[j].0
  }

  predicate Outside(order: seq<Node>, M: set<Node>, lo: int, hi: int, e: (int, Node))
    requires order != []
  {
    lo <= e.0 < hi && e.1 == Lead(order, e.0) && e.1 !in M
  }

  /** The canonical slots are those of the range led outside the minority, in slot order. */
  lemma {:induction false} CanonicalExact(order: seq<Node>, M: set<Node>, lo: int, hi: int)
    requires order != []
    ensures var c := Canonical(order, M, lo, hi);
            Increasing(c) && forall e :: e in c <==> Outside(order, M, lo, hi, e)
    decreases hi - lo
  {
    hide Lead;
    if lo < hi {
      CanonicalExact(order, M, lo + 1, hi);
      var first := if Lead(order, lo) in M then [] else [(lo, Lead(order, lo))];
      var r := Canonical(order, M, lo + 1, hi);
      forall e ensures e in first + r <==> Outside(order, M, lo, hi, e) {
        assert e in first + r <==> e in first || e in r;
      }
      forall i, j | 0 <= i < j < |first + r| ensures (first + r)[i].0 < (first + r)[j].0 {
        assert (first + r)[j] == r[j - |first|] && r[j - |first|] in r;
        if i >= |first| { assert (first + r)[i] == r[i - |first|]; }
      }
    }
  }

  /**
   * The plan is exact and bounded: deadLen dead slots, each the next minority slot of the dead list,
   * healed at the next one, within deadLen turns of that list.
   */
  lemma PlanExact(order: seq<Node>, X: Node, M: set<Node>, deadLen: int, S: int, sT: int)
    requires order != [] && Plannable(order, X, M) && deadLen >= 1
    ensures var p := PlanOf(order, X, M, deadLen, S, sT);
            && p.deadList == Without(order, X) != []
            && |p.dead| == deadLen && p.dead[0] == (S, Lead(order, S))
            && DeadChain(p.deadList, M, p.dead)
            && NextMinority(p.deadList, M, p.dead[deadLen - 1].0, p.healSlot)
            && p.healSlot <= S + deadLen * |p.deadList|
            && Increasing(p.canon) && forall e :: e in p.canon <==> Outside(order, M, S + 1, p.healSlot, e)
  {
    hide Lead, NextSlot, NextMinority, Canonical, DeadSlots, DeadChain;
    var p := PlanOf(order, X, M, deadLen, S, sT);
    DeadSlotsExact(p.deadList, M, S, p.P1, deadLen);
    DeadSlotsBound(p.deadList, M, S, p.P1, deadLen);
    TurnsIsProduct(deadLen, |p.deadList|);
    NextSlotIsMinority(p.deadList, M, p.dead[deadLen - 1].0);
    CanonicalExact(order, M, S + 1, p.healSlot);
  }

  /** A plan that is ok gives X the canonical boundary block, and a canonical branch longer than the dead one. */
  lemma OkPlanExact(order: seq<Node>, X: Node, M: set<Node>, deadLen: int, S: int, sT: int)
    requires order != [] && Plannable(order, X, M) && deadLen >= 0 && X !in M
    ensures var p := PlanOf(order, X, M, deadLen, S, sT);
            p.ok <==> && Lead(order, S) in M && Lead(order, S + 1) == X
                      && |p.canon| > deadLen && p.canon[0] == (S + 1, X)
  {
    var p := PlanOf(order, X, M, deadLen, S, sT);
    if p.healSlot > S + 1 {
      var rest := Canonical(order, M, S + 2, p.healSlot);
      assert p.canon == (if Lead(order, S + 1) in M then [] else [(S + 1, Lead(order, S + 1))]) + rest;
    }
  }

  /** The plan from a slot, said without the search: what every one of its entries is. */
  ghost predicate PlanStands(order: seq<Node>, X: Node, M: set<Node>, deadLen: int, p: Plan)
    requires order != []
  {
    && p.deadList == Without(order, X) != []
    && |p.dead| == (if deadLen < 1 then 1 else deadLen) && p.P1 == Lead(order, p.S) && p.dead[0] == (p.S, p.P1)
    && DeadChain(p.deadList, M, p.dead)
    && NextMinority(p.deadList, M, p.dead[|p.dead| - 1].0, p.healSlot)
    && Increasing(p.canon) && (forall e :: e in p.canon <==> Outside(order, M, p.S + 1, p.healSlot, e))
    && (p.xBuildsB <==> Lead(order, p.S + 1) == X)
    && (p.ok <==> Lead(order, p.S) in M && |p.canon| > deadLen && Lead(order, p.S + 1) == X)
  }

  lemma PlanOfStands(order: seq<Node>, X: Node, M: set<Node>, deadLen: int, S: int, sT: int)
    requires order != [] && Plannable(order, X, M)
    ensures var p := PlanOf(order, X, M, deadLen, S, sT); PlanStands(order, X, M, deadLen, p) && p.S == S && p.sT == sT
  {
    hide Lead, NextSlot, NextMinority, Canonical, DeadSlots, DeadChain;
    var p := PlanOf(order, X, M, deadLen, S, sT);
    DeadSlotsExact(p.deadList, M, S, p.P1, DeadCount(deadLen));
    NextSlotIsMinority(p.deadList, M, p.dead[|p.dead| - 1].0);
    CanonicalExact(order, M, S + 1, p.healSlot);
  }

  lemma NextUnique(DL: seq<Node>, M: set<Node>, a: int, b: int, c: int)
    requires DL != [] && NextMinority(DL, M, a, b) && NextMinority(DL, M, a, c)
    ensures b == c
  {
    hide Lead;
  }

  lemma {:induction false} ChainUnique(DL: seq<Node>, M: set<Node>, c: seq<(int, Node)>, d: seq<(int, Node)>, k: nat)
    requires DL != [] && DeadChain(DL, M, c) && DeadChain(DL, M, d) && |c| == |d| > k && c[0] == d[0]
    ensures c[k] == d[k]
    decreases k
  {
    if k > 0 {
      ChainUnique(DL, M, c, d, k - 1);
      hide NextMinority, Lead;
      NextUnique(DL, M, c[k - 1].0, c[k].0, d[k].0);
    }
  }

  lemma {:induction false} IncreasingUnique(a: seq<(int, Node)>, b: seq<(int, Node)>)
    requires Increasing(a) && Increasing(b) && forall e :: e in a <==> e in b
    ensures a == b
    decreases |a|
  {
    SomeElement(b);
    if a != [] {
      assert a[0] in b && b[0] in a;
      assert a[0] == b[0];
      assert a == [a[0]] + a[1..] && b == [b[0]] + b[1..];
      forall e ensures e in a[1..] <==> e in b[1..] {
        TailElement(a, e);
        TailElement(b, e);
      }
      IncreasingUnique(a[1..], b[1..]);
    }
  }

  lemma SomeElement(a: seq<(int, Node)>)
    ensures a == [] || exists e :: e in a
  {
    if a != [] { assert a[0] in a; }
  }

  lemma TailElement(a: seq<(int, Node)>, e: (int, Node))
    requires a != [] && Increasing(a)
    ensures e in a[1..] <==> e in a && e != a[0]
  {
    assert a == [a[0]] + a[1..];
  }

  /** There is one plan from a slot. */
  lemma PlanUnique(order: seq<Node>, X: Node, M: set<Node>, deadLen: int, p: Plan, q: Plan)
    requires order != [] && PlanStands(order, X, M, deadLen, p) && PlanStands(order, X, M, deadLen, q)
    requires p.S == q.S && p.sT == q.sT
    ensures p == q
  {
    hide Lead, NextMinority, DeadChain, Without, Outside;
    forall k | 0 <= k < |p.dead| ensures p.dead[k] == q.dead[k] { ChainUnique(p.deadList, M, p.dead, q.dead, k); }
    NextUnique(p.deadList, M, p.dead[|p.dead| - 1].0, p.healSlot, q.healSlot);
    IncreasingUnique(p.canon, q.canon);
  }

  // ----- simulate -----

  /** Slots of (a, b] led by X after its last block. */
  function Skipped(order: seq<Node>, X: Node, sx: int, a: int, b: int): nat
    requires order != []
    decreases b - a
  {
    if b <= a then 0
    else Skipped(order, X, sx, a, b - 1) + if Lead(order, b) == X && b > sx then 1 else 0
  }

  /** Slots of (a, b] led by others. */
  function Others(order: seq<Node>, X: Node, a: int, b: int): nat
    requires order != []
    decreases b - a
  {
    if b <= a then 0 else Others(order, X, a, b - 1) + if Lead(order, b) != X then 1 else 0
  }

  /** Misses used up by slot s: one per slot of the others until the drift runs out. */
  function Missed(order: seq<Node>, X: Node, s0: int, drift: nat, s: int): nat
    requires order != []
  {
    Min(drift, Others(order, X, s0, s))
  }

  /** The chain height at slot s if the simulation never stopped. */
  function HeightAt(order: seq<Node>, X: Node, h0: int, s0: int, sx: int, drift: nat, s: int): int
    requires order != []
  {
    h0 + (s - s0) - Skipped(order, X, sx, s0, s) - Missed(order, X, s0, drift, s)
  }

  /** The first slot at which the chain stands at B-1: never earlier, and at exactly that height. */
  ghost predicate Reaches(order: seq<Node>, X: Node, h0: int, s0: int, B: int, sx: int, drift: nat, sT: int)
    requires order != []
  {
    && s0 <= sT
    && (forall u :: s0 <= u < sT ==> HeightAt(order, X, h0, s0, sx, drift, u) < B - 1)
    && HeightAt(order, X, h0, s0, sx, drift, sT) == Max(h0, B - 1)
  }

  /** More misses never raise the height of a slot. */
  lemma DriftLowers(order: seq<Node>, X: Node, h0: int, s0: int, sx: int, d: nat, e: nat, s: int)
    requires order != [] && d <= e
    ensures HeightAt(order, X, h0, s0, sx, e, s) <= HeightAt(order, X, h0, s0, sx, d, s)
  {
  }

  /** More misses never reach B-1 at an earlier slot. */
  lemma DriftDelays(order: seq<Node>, X: Node, h0: int, s0: int, B: int, sx: int, d: nat, e: nat, sd: int, se: int)
    requires order != [] && d <= e
    requires Reaches(order, X, h0, s0, B, sx, d, sd) && Reaches(order, X, h0, s0, B, sx, e, se)
    ensures sd <= se
  {
    if se < sd { DriftLowers(order, X, h0, s0, sx, d, e, se); }
  }

  /** Before X stops and without misses the chain grows with every slot. */
  lemma {:induction false} SkippedNone(order: seq<Node>, X: Node, sx: int, a: int, b: int)
    requires order != [] && b <= sx
    ensures Skipped(order, X, sx, a, b) == 0
    decreases b - a
  {
    if a < b { SkippedNone(order, X, sx, a, b - 1); }
  }

  lemma FullSpeed(order: seq<Node>, X: Node, h0: int, s0: int, sx: int, s: int)
    requires order != [] && s0 <= s <= sx
    ensures HeightAt(order, X, h0, s0, sx, 0, s) == h0 + (s - s0)
  {
    SkippedNone(order, X, sx, s0, s);
  }

  /** Exact slot accounting: blocks needed, slots X let pass, misses used. */
  lemma SlotAccounting(order: seq<Node>, X: Node, h0: int, s0: int, B: int, sx: int, drift: nat, sT: int)
    requires order != [] && Reaches(order, X, h0, s0, B, sx, drift, sT)
    ensures sT - s0 == Max(0, B - 1 - h0) + Skipped(order, X, sx, s0, sT) + Missed(order, X, s0, drift, sT)
  {
  }

  lemma {:induction false} ReachesUnique(order: seq<Node>, X: Node, h0: int, s0: int, B: int, sx: int, drift: nat,
                                         s: int, t: int)
    requires order != []
    requires Reaches(order, X, h0, s0, B, sx, drift, s) && Reaches(order, X, h0, s0, B, sx, drift, t)
    ensures s == t
  {
    DriftDelays(order, X, h0, s0, B, sx, drift, drift, s, t);
    DriftDelays(order, X, h0, s0, B, sx, drift, drift, t, s);
  }

  /** `simulate` up to the plan: the slot of block B-1. Ends because some node of the order is not X. */
  method ReachBoundary(order: seq<Node>, X: Node, h0: int, s0: int, B: int, sx: int, drift: nat) returns (s: int)
    requires order != [] && Meets(order, Not(X))
    ensures Reaches(order, X, h0, s0, B, sx, drift, s)
  {
    s := s0;
    var h, d := h0, drift;
    while h < B - 1
      invariant s0 <= s && 0 <= d && h <= Max(h0, B - 1)
      invariant h == HeightAt(order, X, h0, s0, sx, drift, s) && d == drift - Missed(order, X, s0, drift, s)
      invariant forall u :: s0 <= u < s ==> HeightAt(order, X, h0, s0, sx, drift, u) < B - 1
      decreases B - 1 - h + d, NextSlot(order, Not(X), s + 1) - s
    {
      ghost var next := NextSlot(order, Not(X), s + 1);
      s := s + 1;
      if order[s % |order|] == X && s > sx {
        assert !Not(X)(Lead(order, s));
        assert NextSlot(order, Not(X), s + 1) == next;
      } else if d > 0 && order[s % |order|] != X {
        d := d - 1;
      } else {
        h := h + 1;
      }
    }
  }

  /** The slot of block B-1 as a value. */
  function BoundarySlot(order: seq<Node>, X: Node, h0: int, s0: int, B: int, sx: int, drift: nat, from: int): (s: int)
    requires order != [] && Meets(order, Not(X)) && s0 <= from
    requires forall u :: s0 <= u < from ==> HeightAt(order, X, h0, s0, sx, drift, u) < B - 1
    requires HeightAt(order, X, h0, s0, sx, drift, from) <= Max(h0, B - 1)
    ensures Reaches(order, X, h0, s0, B, sx, drift, s)
    decreases B - 1 - HeightAt(order, X, h0, s0, sx, drift, from) + drift - Missed(order, X, s0, drift, from),
              NextSlot(order, Not(X), from + 1) - from
  {
    assert HeightAt(order, X, h0, s0, sx, drift, s0) == h0;
    if HeightAt(order, X, h0, s0, sx, drift, from) >= B - 1 then from
    else
      assert Lead(order, from + 1) == X ==>
        !Not(X)(Lead(order, from + 1)) && NextSlot(order, Not(X), from + 2) == NextSlot(order, Not(X), from + 1);
      BoundarySlot(order, X, h0, s0, B, sx, drift, from + 1)
  }

  function SimulationOf(order: seq<Node>, X: Node, M: set<Node>, deadLen: int, h0: int, s0: int, B: int, sx: int,
                        drift: nat): Plan
    requires Plannable(order, X, M)
  {
    PlannableExact(order, X, M);
    var sT := BoundarySlot(order, X, h0, s0, B, sx, drift, s0);
    PlanOf(order, X, M, deadLen, NextSlot(order, Not(X), sT + 1), sT)
  }

  method Simulate(order: seq<Node>, X: Node, M: set<Node>, deadLen: int, h0: int, s0: int, B: int, sx: int, drift: nat)
    returns (p: Plan)
    requires Plannable(order, X, M)
    ensures p == SimulationOf(order, X, M, deadLen, h0, s0, B, sx, drift)
    ensures Reaches(order, X, h0, s0, B, sx, drift, p.sT)
    ensures p.S > p.sT && Lead(order, p.S) != X && forall u :: p.sT < u < p.S ==> Lead(order, u) == X
  {
    PlannableExact(order, X, M);
    var s := ReachBoundary(order, X, h0, s0, B, sx, drift);
    ReachesUnique(order, X, h0, s0, B, sx, drift, s, BoundarySlot(order, X, h0, s0, B, sx, drift, s0));
    hide PlanOf, HeightAt, BoundarySlot, Plannable, Reaches;
    var S := FindSlot(order, Not(X), s + 1);
    p := PlanFromS(order, X, M, deadLen, S, s);
    assert forall u :: s < u < S ==> !Not(X)(Lead(order, u));
    assert Not(X)(Lead(order, S));
  }

  /**
   * What the simulation returns, said without it: the chain reaches B-1 at the plan's sT with that many misses,
   * S is the first slot after it that X does not lead, and the plan stands from there.
   */
  ghost predicate Simulated(order: seq<Node>, X: Node, M: set<Node>, deadLen: int, h0: int, s0: int, B: int, sx: int,
                            drift: nat, p: Plan)
    requires order != []
  {
    && Reaches(order, X, h0, s0, B, sx, drift, p.sT)
    && p.S > p.sT && Lead(order, p.S) != X && (forall u :: p.sT < u < p.S ==> Lead(order, u) == X)
    && PlanStands(order, X, M, deadLen, p)
  }

  lemma SimulationExact(order: seq<Node>, X: Node, M: set<Node>, deadLen: int, h0: int, s0: int, B: int, sx: int,
                        drift: nat, p: Plan)
    requires order != [] && Plannable(order, X, M)
    ensures Simulated(order, X, M, deadLen, h0, s0, B, sx, drift, p)
            <==> p == SimulationOf(order, X, M, deadLen, h0, s0, B, sx, drift)
  {
    PlannableExact(order, X, M);
    var r := SimulationOf(order, X, M, deadLen, h0, s0, B, sx, drift);
    assert forall u :: r.sT < u < r.S ==> !Not(X)(Lead(order, u));
    assert Not(X)(Lead(order, r.S));
    PlanOfStands(order, X, M, deadLen, r.S, r.sT);
    hide PlanOf, PlanStands, HeightAt, Reaches, BoundarySlot;
    if Simulated(order, X, M, deadLen, h0, s0, B, sx, drift, p) {
      ReachesUnique(order, X, h0, s0, B, sx, drift, p.sT, r.sT);
      PlanUnique(order, X, M, deadLen, p, r);
    }
  }

  // ----- heights as numbers of slots -----

  /** Slots of (a, b] that X leads after its last block. */
  function PassedSlots(order: seq<Node>, X: Node, sx: int, a: int, b: int): set<int>
    requires order != []
  {
    set u | a < u <= b && Lead(order, u) == X && u > sx
  }

  function OtherSlots(order: seq<Node>, X: Node, a: int, b: int): set<int>
    requires order != []
  {
    set u | a < u <= b && Lead(order, u) != X
  }

  /**
   * The height at a slot: one block for every slot since the tip but those X leads after its last block, and but
   * as many of the others' as there are misses.
   */
  lemma {:induction false} HeightCounts(order: seq<Node>, X: Node, h0: int, s0: int, sx: int, drift: nat, s: int)
    requires order != [] && s0 <= s
    ensures var others := |OtherSlots(order, X, s0, s)|;
            HeightAt(order, X, h0, s0, sx, drift, s)
            == h0 + (s - s0) - |PassedSlots(order, X, sx, s0, s)| - if drift < others then drift else others
    decreases s - s0
  {
    CountPassed(order, X, sx, s0, s);
    CountOthers(order, X, s0, s);
    hide Skipped, Others, PassedSlots, OtherSlots;
  }

  lemma {:induction false} CountPassed(order: seq<Node>, X: Node, sx: int, a: int, b: int)
    requires order != []
    ensures |PassedSlots(order, X, sx, a, b)| == Skipped(order, X, sx, a, b)
    decreases b - a
  {
    if a < b {
      CountPassed(order, X, sx, a, b - 1);
      var less := PassedSlots(order, X, sx, a, b - 1);
      assert PassedSlots(order, X, sx, a, b) == if Lead(order, b) == X && b > sx then less + {b} else less;
    } else {
      assert PassedSlots(order, X, sx, a, b) == {};
    }
  }

  lemma {:induction false} CountOthers(order: seq<Node>, X: Node, a: int, b: int)
    requires order != []
    ensures |OtherSlots(order, X, a, b)| == Others(order, X, a, b)
    decreases b - a
  {
    if a < b {
      CountOthers(order, X, a, b - 1);
      var less := OtherSlots(order, X, a, b - 1);
      assert OtherSlots(order, X, a, b) == if Lead(order, b) != X then less + {b} else less;
    } else {
      assert OtherSlots(order, X, a, b) == {};
    }
  }
}
