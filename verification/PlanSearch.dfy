/** `choose_plan` (scripts/gauntlet-gs033/plan.py:97-122): the pruned search for the best plan. */
module PlanSearch {
  import opened Arithmetic
  import opened SlotSchedule
  import opened DeadBranch
  import opened Wrappers

  /** The producer order, minority and branch length; the tip; the stop window; the epochs to try. */
  datatype Search = Search(order: seq<Node>, M: set<Node>, deadLen: int, h0: int, s0: int, minLead: nat,
                           lower: int, upper: int, epoch: int, epochs: nat)

  datatype Choice = Choice(robust: bool, B: int, X: Node, sx: int, hx: int, p0: Plan, p1: Plan)

  function Candidates(order: seq<Node>, M: set<Node>, forced: Option<Node>, donor: Option<Node>): seq<Node> {
    match forced
    case Some(x) => [x]
    case None => Eligible(order, M, donor)
  }

  function Eligible(order: seq<Node>, M: set<Node>, donor: Option<Node>): seq<Node> {
    if order == [] then []
    else (if order[0] !in M && Some(order[0]) != donor then [order[0]] else []) + Eligible(order[1..], M, donor)
  }

  /** Every search the source starts comes to an end: no candidate is the only minority node of the order. */
  predicate Searchable(q: Search, cands: seq<Node>) {
    q.order != [] && q.epoch > 0 && forall x :: x in cands && x in q.order ==> Plannable(q.order, x, q.M)
  }

  function Boundary(q: Search, k: int): int
    requires q.epoch > 0
  {
    ((q.h0 + q.minLead + q.lower) / q.epoch) * q.epoch + k * q.epoch
  }

  function FirstStop(q: Search, B: int): int { Max(q.s0 + q.minLead, q.s0 + B - q.upper - q.h0) }

  function LastStop(q: Search, B: int): int { q.s0 + B - q.lower - q.h0 }

  predicate Stops(q: Search, B: int, X: Node, sx: int)
    requires q.order != []
  {
    FirstStop(q, B) <= sx <= LastStop(q, B) && Lead(q.order, sx) == X
  }

  function ChoiceAt(q: Search, B: int, X: Node, sx: int): Choice
    requires Plannable(q.order, X, q.M)
  {
    var p0 := SimulationOf(q.order, X, q.M, q.deadLen, q.h0, q.s0, B, sx, 0);
    var p1 := SimulationOf(q.order, X, q.M, q.deadLen, q.h0, q.s0, B, sx, 1);
    Choice(p1.ok, B, X, sx, q.h0 + (sx - q.s0), p0, p1)
  }

  /** Stopping candidate j at slot sx gives epoch k's boundary a plan that is ok. */
  predicate Viable(q: Search, cands: seq<Node>, k: int, j: int, sx: int)
    requires Searchable(q, cands)
  {
    && 0 <= k < q.epochs && 0 <= j < |cands|
    && Stops(q, Boundary(q, k), cands[j], sx)
    && Plannable(q.order, cands[j], q.M)
    && ChoiceAt(q, Boundary(q, k), cands[j], sx).p0.ok
  }

  function Found(q: Search, cands: seq<Node>, k: int, j: int, sx: int): Choice
    requires Searchable(q, cands) && Viable(q, cands, k, j, sx)
  {
    ChoiceAt(q, Boundary(q, k), cands[j], sx)
  }

  /** The order of (robust, -B, -sx). */
  predicate Better(a: Choice, b: Choice) {
    || (a.robust && !b.robust)
    || (a.robust == b.robust && (a.B < b.B || (a.B == b.B && a.sx < b.sx)))
  }

  lemma NotBetter(a: Choice, b: Choice)
    ensures !Better(a, b) <==> (a.robust ==> b.robust)
                               && (a.robust == b.robust ==> b.B <= a.B && (a.B == b.B ==> b.sx <= a.sx))
  {
  }

  ghost predicate IsBest(q: Search, cands: seq<Node>, c: Choice)
    requires Searchable(q, cands)
  {
    && (exists k, j, sx :: Viable(q, cands, k, j, sx) && c == Found(q, cands, k, j, sx))
    && (forall k, j, sx :: Viable(q, cands, k, j, sx) ==> !Better(Found(q, cands, k, j, sx), c))
  }

  // ----- the choice, said without the search -----

  /** An epoch boundary that is tried: of the multiples from the last one within reach on, `epochs` many. */
  predicate Tried(q: Search, B: int)
    requires q.epoch > 0
  {
    && B % q.epoch == 0
    && q.h0 + q.minLead + q.lower - q.epoch < B <= q.h0 + q.minLead + q.lower + (q.epochs - 1) * q.epoch
  }

  /**
   * X, a candidate, leads slot sx, which is far enough ahead and leaves X's last block at a height between
   * B-upper and B-lower; the chain simulated without a miss gives a plan that is ok, and the choice is robust
   * exactly when it does with one.
   */
  ghost predicate Sound(q: Search, cands: seq<Node>, c: Choice)
    requires q.order != [] && q.epoch > 0
  {
    && Tried(q, c.B) && c.X in cands && Lead(q.order, c.sx) == c.X
    && c.sx >= q.s0 + q.minLead && c.B - q.upper <= c.hx <= c.B - q.lower && c.hx == q.h0 + (c.sx - q.s0)
    && Simulated(q.order, c.X, q.M, q.deadLen, q.h0, q.s0, c.B, c.sx, 0, c.p0) && c.p0.ok
    && Simulated(q.order, c.X, q.M, q.deadLen, q.h0, q.s0, c.B, c.sx, 1, c.p1) && (c.robust <==> c.p1.ok)
  }

  /** The last multiple of the epoch within reach. */
  function FirstTried(q: Search): int
    requires q.epoch > 0
  {
    ((q.h0 + q.minLead + q.lower) / q.epoch) * q.epoch
  }

  lemma FirstTriedExact(q: Search)
    requires q.epoch > 0
    ensures FirstTried(q) <= q.h0 + q.minLead + q.lower < FirstTried(q) + q.epoch
  {
    var base := q.h0 + q.minLead + q.lower;
    assert base == (base / q.epoch) * q.epoch + base % q.epoch;
  }

  lemma BoundaryMultiple(q: Search, k: int)
    requires q.epoch > 0
    ensures Boundary(q, k) == FirstTried(q) + k * q.epoch && Boundary(q, k) % q.epoch == 0
  {
    var t := (q.h0 + q.minLead + q.lower) / q.epoch;
    assert (t + k) * q.epoch == t * q.epoch + k * q.epoch;
    ModUnique((t + k) * q.epoch, q.epoch, t + k, 0);
  }

  lemma MultipleBoundary(q: Search, B: int) returns (k: int)
    requires q.epoch > 0 && B % q.epoch == 0
    ensures B == FirstTried(q) + k * q.epoch
  {
    var t := (q.h0 + q.minLead + q.lower) / q.epoch;
    k := B / q.epoch - t;
    assert B == (B / q.epoch) * q.epoch;
    Distributes(B / q.epoch, t, q.epoch);
  }

  lemma Distributes(a: int, b: int, e: int)
    ensures a * e == b * e + (a - b) * e
  {
  }

  lemma TriedExact(q: Search, B: int)
    requires q.epoch > 0
    ensures Tried(q, B) <==> exists k :: 0 <= k < q.epochs && B == Boundary(q, k)
  {
    hide Boundary, FirstTried;
    FirstTriedExact(q);
    var base := q.h0 + q.minLead + q.lower;
    if Tried(q, B) {
      var k := MultipleBoundary(q, B);
      BoundaryMultiple(q, k);
      WithinTurns(FirstTried(q), base, q.epoch, k, q.epochs);
    }
    if k :| 0 <= k < q.epochs && B == Boundary(q, k) {
      BoundaryMultiple(q, k);
      WithinTurns(FirstTried(q), base, q.epoch, k, q.epochs);
    }
  }

  lemma WithinTurns(b0: int, base: int, e: int, k: int, n: nat)
    requires e > 0 && b0 <= base < b0 + e
    ensures base - e < b0 + k * e <= base + (n - 1) * e <==> 0 <= k < n
  {
    Distributes(k, 0, e);
    Distributes(n, 1, e);
    if k < 0 {
      MulAtLeast(e, -k);
      Distributes(0, k, e);
    } else if k >= n {
      MulMonotone(n, k, e);
    } else {
      MulMonotone(k, n - 1, e);
    }
  }

  /** The choices the search ranges over are exactly the sound ones. */
  lemma SoundExact(q: Search, cands: seq<Node>, c: Choice)
    requires Searchable(q, cands)
    ensures Sound(q, cands, c) <==> exists k, j, sx :: Viable(q, cands, k, j, sx) && c == Found(q, cands, k, j, sx)
  {
    hide Boundary, Simulated, SimulationOf, Plannable, Lead, Reaches;
    TriedExact(q, c.B);
    hide Tried;
    if k, j, sx :| Viable(q, cands, k, j, sx) && c == Found(q, cands, k, j, sx) {
      SimulationExact(q.order, c.X, q.M, q.deadLen, q.h0, q.s0, c.B, c.sx, 0, c.p0);
      SimulationExact(q.order, c.X, q.M, q.deadLen, q.h0, q.s0, c.B, c.sx, 1, c.p1);
    }
    if Sound(q, cands, c) {
      LeadIn(q.order, c.sx);
      SimulationExact(q.order, c.X, q.M, q.deadLen, q.h0, q.s0, c.B, c.sx, 0, c.p0);
      SimulationExact(q.order, c.X, q.M, q.deadLen, q.h0, q.s0, c.B, c.sx, 1, c.p1);
      var k :| 0 <= k < q.epochs && c.B == Boundary(q, k);
      var j :| 0 <= j < |cands| && cands[j] == c.X;
      assert Viable(q, cands, k, j, c.sx) && c == Found(q, cands, k, j, c.sx);
    }
  }

  /** There is at most one best choice, over all epochs. */
  lemma BestUnique(q: Search, cands: seq<Node>, c: Choice, d: Choice)
    requires Searchable(q, cands) && IsBest(q, cands, c) && IsBest(q, cands, d)
    ensures c == d
  {
    hide ChoiceAt;
    var k, j, sx :| Viable(q, cands, k, j, sx) && c == Found(q, cands, k, j, sx);
    var k', j', sx' :| Viable(q, cands, k', j', sx') && d == Found(q, cands, k', j', sx');
    assert !Better(c, d) && !Better(d, c);
    FoundFields(q, cands, k, j, sx);
    FoundFields(q, cands, k', j', sx');
  }

  lemma FoundFields(q: Search, cands: seq<Node>, k: int, j: int, sx: int)
    requires Searchable(q, cands) && Viable(q, cands, k, j, sx)
    ensures var c := Found(q, cands, k, j, sx);
            && c.B == Boundary(q, k) && c.sx == sx && c.X == Lead(q.order, sx) == cands[j]
            && Plannable(q.order, c.X, q.M) && c == ChoiceAt(q, c.B, c.X, c.sx)
  {
  }

  /** X's last block is outside the attestation window of B and inside that of the boundary before. */
  lemma StopHeight(q: Search, cands: seq<Node>, c: Choice)
    requires Searchable(q, cands) && IsBest(q, cands, c)
    ensures c.B - q.upper <= c.hx <= c.B - q.lower
    ensures c.hx == HeightAt(q.order, c.X, q.h0, q.s0, c.sx, 0, c.sx)
    ensures c.p0.ok && (c.robust <==> c.p1.ok)
  {
    var k, j, sx :| Viable(q, cands, k, j, sx) && c == Found(q, cands, k, j, sx);
    FullSpeed(q.order, c.X, q.h0, q.s0, sx, sx);
  }

  /** Later epochs have later boundaries. */
  lemma BoundaryGrows(q: Search, k: int, k': int)
    requires q.epoch > 0 && k < k'
    ensures Boundary(q, k) < Boundary(q, k')
  {
    assert k' * q.epoch == k * q.epoch + (k' - k) * q.epoch;
    MulAtLeast(q.epoch, k' - k);
  }

  /** Cell (k', j', sx') is scanned before cell (k, j, sx). */
  predicate Before(k': int, j': int, sx': int, k: int, j: int, sx: int) {
    k' < k || (k' == k && (j' < j || (j' == j && sx' < sx)))
  }

  /** The best of the cells scanned before (k, j, sx). */
  ghost predicate BestBefore(q: Search, cands: seq<Node>, best: Option<Choice>, k: int, j: int, sx: int)
    requires Searchable(q, cands)
  {
    && (best.Some? ==> exists k', j', sx' ::
          Before(k', j', sx', k, j, sx) && Viable(q, cands, k', j', sx') && best.value == Found(q, cands, k', j', sx'))
    && (forall k', j', sx' :: Before(k', j', sx', k, j, sx) && Viable(q, cands, k', j', sx') ==>
          best.Some? && !Better(Found(q, cands, k', j', sx'), best.value))
  }

  method ScanStops(q: Search, cands: seq<Node>, k: int, j: int, best0: Option<Choice>) returns (best: Option<Choice>)
    requires Searchable(q, cands) && 0 <= k < q.epochs && 0 <= j < |cands|
    requires BestBefore(q, cands, best0, k, j, FirstStop(q, Boundary(q, k)))
    ensures BestBefore(q, cands, best, k, j + 1, FirstStop(q, Boundary(q, k)))
  {
    hide SimulationOf, Plannable, Lead, Boundary, FirstStop, LastStop;
    best := best0;
    var B, X := Boundary(q, k), cands[j];
    var sx := FirstStop(q, B);
    while sx < LastStop(q, B) + 1
      invariant FirstStop(q, B) <= sx
      invariant BestBefore(q, cands, best, k, j, sx)
      decreases LastStop(q, B) - sx
    {
      if Lead(q.order, sx) == X {
        assert X in q.order by { LeadIn(q.order, sx); }
        var p0 := Simulate(q.order, X, q.M, q.deadLen, q.h0, q.s0, B, sx, 0);
        if p0.ok {
          var p1 := Simulate(q.order, X, q.M, q.deadLen, q.h0, q.s0, B, sx, 1);
          var c := Choice(p1.ok, B, X, sx, q.h0 + (sx - q.s0), p0, p1);
          assert Viable(q, cands, k, j, sx) && c == Found(q, cands, k, j, sx);
          if best == None || Better(c, best.value) {
            best := Some(c);
          }
        }
      }
      sx := sx + 1;
    }
  }

  lemma LeadIn(order: seq<Node>, s: int)
    requires order != []
    ensures Lead(order, s) in order
  {
  }

  method ChoosePlan(q: Search, cands: seq<Node>) returns (best: Option<Choice>)
    requires Searchable(q, cands)
    ensures best.None? ==> forall k, j, sx :: !Viable(q, cands, k, j, sx)
    ensures best.Some? ==> IsBest(q, cands, best.value)
    ensures best.None? <==> forall c :: !Sound(q, cands, c)
    ensures best.Some? ==> Sound(q, cands, best.value)
    ensures best.Some? ==>
              forall c :: Sound(q, cands, c) ==>
                            && (c.robust ==> best.value.robust)
                            && (c.robust == best.value.robust ==> best.value.B <= c.B)
                            && (c.robust == best.value.robust && c.B == best.value.B ==> best.value.sx <= c.sx)
  {
    hide Viable, ChoiceAt, Boundary, FirstStop, Sound;
    best := None;
    NothingScanned(q, cands);
    for k := 0 to q.epochs
      invariant BestBefore(q, cands, best, k, 0, FirstStop(q, Boundary(q, k)))
    {
      for j := 0 to |cands|
        invariant BestBefore(q, cands, best, k, j, FirstStop(q, Boundary(q, k)))
      {
        best := ScanStops(q, cands, k, j, best);
      }
      NextEpoch(q, cands, best, k);
      if best.Some? && best.value.robust {
        PruneSafe(q, cands, best.value, k);
        BestSound(q, cands, best);
        return;
      }
    }
    AllScanned(q, cands, best);
    BestSound(q, cands, best);
  }

  lemma BestSound(q: Search, cands: seq<Node>, best: Option<Choice>)
    requires Searchable(q, cands)
    requires best.None? ==> forall k, j, sx :: !Viable(q, cands, k, j, sx)
    requires best.Some? ==> IsBest(q, cands, best.value)
    ensures best.None? <==> forall c :: !Sound(q, cands, c)
    ensures best.Some? ==> Sound(q, cands, best.value)
    ensures best.Some? ==>
              forall c :: Sound(q, cands, c) ==>
                            && (c.robust ==> best.value.robust)
                            && (c.robust == best.value.robust ==> best.value.B <= c.B)
                            && (c.robust == best.value.robust && c.B == best.value.B ==> best.value.sx <= c.sx)
  {
    hide Viable, ChoiceAt, Sound, Better;
    if best.Some? { SoundExact(q, cands, best.value); }
    forall c | Sound(q, cands, c)
      ensures best.Some? && (c.robust ==> best.value.robust)
      ensures c.robust == best.value.robust ==> best.value.B <= c.B
      ensures c.robust == best.value.robust && c.B == best.value.B ==> best.value.sx <= c.sx
    {
      SoundExact(q, cands, c);
      var k, j, sx :| Viable(q, cands, k, j, sx) && c == Found(q, cands, k, j, sx);
      NotBetter(c, best.value);
    }
  }

  lemma NothingScanned(q: Search, cands: seq<Node>)
    requires Searchable(q, cands)
    ensures BestBefore(q, cands, None, 0, 0, FirstStop(q, Boundary(q, 0)))
  {
    NothingBeforeFirst(q, cands, 0);
  }

  lemma NextEpoch(q: Search, cands: seq<Node>, best: Option<Choice>, k: nat)
    requires Searchable(q, cands)
    requires BestBefore(q, cands, best, k, |cands|, FirstStop(q, Boundary(q, k)))
    ensures BestBefore(q, cands, best, k + 1, 0, FirstStop(q, Boundary(q, k + 1)))
  {
    hide ChoiceAt, Boundary, FirstStop, Plannable, Stops;
    NothingBeforeFirst(q, cands, k + 1);
    if best.Some? {
      var k', j', sx' :| Before(k', j', sx', k, |cands|, FirstStop(q, Boundary(q, k))) && Viable(q, cands, k', j', sx')
                         && best.value == Found(q, cands, k', j', sx');
      assert Before(k', j', sx', k + 1, 0, FirstStop(q, Boundary(q, k + 1)));
    }
    forall k', j', sx'
      | Before(k', j', sx', k + 1, 0, FirstStop(q, Boundary(q, k + 1))) && Viable(q, cands, k', j', sx')
      ensures best.Some? && !Better(Found(q, cands, k', j', sx'), best.value)
    {
      assert Before(k', j', sx', k, |cands|, FirstStop(q, Boundary(q, k)));
    }
  }

  lemma NothingBeforeFirst(q: Search, cands: seq<Node>, k: int)
    requires Searchable(q, cands)
    ensures forall j, sx :: Viable(q, cands, k, j, sx) ==> j >= 0 && sx >= FirstStop(q, Boundary(q, k))
  {
  }

  /** A robust choice from epoch k or before beats every later epoch: the source's early stop loses nothing. */
  lemma PruneSafe(q: Search, cands: seq<Node>, c: Choice, k: nat)
    requires Searchable(q, cands) && c.robust
    requires BestBefore(q, cands, Some(c), k + 1, 0, FirstStop(q, Boundary(q, k + 1)))
    ensures IsBest(q, cands, c)
  {
    hide ChoiceAt, Boundary, FirstStop, Plannable, Stops;
    var ck, cj, cs :| Before(ck, cj, cs, k + 1, 0, FirstStop(q, Boundary(q, k + 1))) && Viable(q, cands, ck, cj, cs)
                      && c == Found(q, cands, ck, cj, cs);
    FoundFields(q, cands, ck, cj, cs);
    NothingBeforeFirst(q, cands, k + 1);
    forall k', j', sx' | Viable(q, cands, k', j', sx') ensures !Better(Found(q, cands, k', j', sx'), c) {
      if !Before(k', j', sx', k + 1, 0, FirstStop(q, Boundary(q, k + 1))) {
        FoundFields(q, cands, k', j', sx');
        BoundaryGrows(q, ck, k');
      }
    }
  }

  lemma AllScanned(q: Search, cands: seq<Node>, best: Option<Choice>)
    requires Searchable(q, cands)
    requires BestBefore(q, cands, best, q.epochs, 0, FirstStop(q, Boundary(q, q.epochs)))
    ensures best.None? ==> forall k, j, sx :: !Viable(q, cands, k, j, sx)
    ensures best.Some? ==> IsBest(q, cands, best.value)
  {
    hide ChoiceAt, Boundary, FirstStop, Plannable, Stops;
    forall k, j, sx | Viable(q, cands, k, j, sx)
      ensures best.Some? && !Better(Found(q, cands, k, j, sx), best.value)
    {
      assert Before(k, j, sx, q.epochs, 0, FirstStop(q, Boundary(q, q.epochs)));
    }
  }

  /** Without a forced X the search always ends: candidates are outside the minority. */
  lemma {:induction false} EligibleExact(order: seq<Node>, M: set<Node>, donor: Option<Node>, v: Node)
    ensures v in Eligible(order, M, donor) <==> v in order && v !in M && Some(v) != donor
  {
    if order != [] {
      EligibleExact(order[1..], M, donor, v);
      assert order == [order[0]] + order[1..];
    }
  }

  lemma CandidatesExact(order: seq<Node>, M: set<Node>, forced: Option<Node>, donor: Option<Node>, v: Node)
    ensures v in Candidates(order, M, forced, donor)
            <==> forced == Some(v) || (forced == None && v in order && v !in M && donor != Some(v))
  {
    EligibleExact(order, M, donor, v);
  }

  lemma UnforcedSearchable(q: Search, donor: Option<Node>, m: Node)
    requires q.epoch > 0 && m in q.order && m in q.M
    ensures Searchable(q, Candidates(q.order, q.M, None, donor))
  {
    forall x | x in Candidates(q.order, q.M, None, donor) && x in q.order ensures Plannable(q.order, x, q.M) {
      EligibleExact(q.order, q.M, donor, x);
      PlannableExact(q.order, x, q.M);
    }
  }
}
