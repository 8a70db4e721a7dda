/** The epoch reward tracker (testing/integration/staggered_validator_rewards.rs:22-103). */
module EpochRewards {
  import opened Arithmetic
  import opened Sorting
  import opened Wrappers

  /** A public key, as the number its bytes spell: byte order is number order. */
  type Key = nat

  type Counts = map<Key, nat>

  datatype Payout = Payout(producer: Key, amount: nat, blocks: nat)

  // ----- sums -----

  function BlocksOf(c: Counts, keys: seq<Key>): nat
    requires forall k :: k in keys ==> k in c
  {
    if keys == [] then 0 else BlocksOf(c, keys[..|keys| - 1]) + c[keys[|keys| - 1]]
  }

  function TotalBlocks(c: Counts): nat {
    SortedKeysExact(c.Keys);
    BlocksOf(c, SortedKeys(c.Keys))
  }

  function Paid(ps: seq<Payout>): nat {
    if ps == [] then 0 else Paid(ps[..|ps| - 1]) + ps[|ps| - 1].amount
  }

  /** A producer's proportional share, rounded down. */
  function Floor(pool: nat, blocks: nat, total: nat): nat
    requires total > 0
  {
    Quot(pool * blocks, total)
  }

  lemma FloorExact(pool: nat, blocks: nat, total: nat)
    requires total > 0
    ensures var f := Floor(pool, blocks, total);
            Times(f, total) <= Times(pool, blocks) < Times(f, total) + total
  {
    FloorDiv(pool * blocks, total);
    var f := Floor(pool, blocks, total);
    assert (f + 1) * total == f * total + total;
  }

  /** What the source computes for it: the product is taken modulo 2^64, as a release build does. */
  function Share(pool: nat, blocks: nat, total: nat): nat
    requires total > 0
  {
    Quot(Times(pool, blocks) % TWO64, total)
  }

  /** The share is the floor share exactly when the product fits 64 bits, and never more. */
  lemma ShareExact(pool: nat, blocks: nat, total: nat)
    requires 0 < total
    ensures Times(Share(pool, blocks, total), total) <= Times(pool, blocks)
    ensures total <= TWO64 ==>
        (Share(pool, blocks, total) == Floor(pool, blocks, total) <==> Times(pool, blocks) < TWO64)
    ensures Times(pool, blocks) < TWO64 ==> Share(pool, blocks, total) == Floor(pool, blocks, total)
  {
    var v, s := Times(pool, blocks), Share(pool, blocks, total);
    var w := v % TWO64;
    FloorDiv(w, total);
    FloorIsGreatest(v, total, s + 1);
    hide Quot;
    assert (s + 1) * total == s * total + total;
    if v >= TWO64 { assert w + TWO64 <= v; }
  }

  /** Whatever the product: the share is the floor of what 64 bits leave of it. */
  lemma ShareWraps(pool: nat, blocks: nat, total: nat, s: nat)
    requires 0 < total
    ensures s == Share(pool, blocks, total) <==> Times(s, total) <= (pool * blocks) % TWO64 < Times(s + 1, total)
  {
    FloorIsGreatest((pool * blocks) % TWO64, total, s);
    FloorIsGreatest((pool * blocks) % TWO64, total, s + 1);
  }

  // ----- the distribution -----

  /** In key order, with the true block counts; everyone but the last gets its computed share. */
  predicate SharedOut(c: Counts, keys: seq<Key>, pool: nat, total: nat, ps: seq<Payout>)
    requires total > 0 && |ps| <= |keys| && forall k :: k in keys ==> k in c
  {
    && (forall j :: 0 <= j < |ps| ==> ps[j].producer == keys[j] && ps[j].blocks == c[keys[j]])
    && (forall j :: 0 <= j < |ps| && j < |keys| - 1 ==> ps[j].amount == Share(pool, ps[j].blocks, total))
  }

  /** The whole pool is shared out over all producers: what the shares leave goes to the last. */
  predicate Distributes(c: Counts, pool: nat, ps: seq<Payout>) {
    SortedKeysExact(c.Keys);
    var keys := SortedKeys(c.Keys);
    |ps| == |keys| > 0 && TotalBlocks(c) > 0 && SharedOut(c, keys, pool, TotalBlocks(c), ps) && Paid(ps) == pool
  }

  /** The payouts are a function of the counts and the pool alone. */
  lemma DistributionUnique(c: Counts, pool: nat, ps: seq<Payout>, qs: seq<Payout>)
    requires Distributes(c, pool, ps) && Distributes(c, pool, qs)
    ensures ps == qs
  {
    var n := |ps| - 1;
    assert ps[..n] == qs[..n];
    assert ps[n].amount == qs[n].amount;
    assert ps == ps[..n] + [ps[n]] && qs == qs[..n] + [qs[n]];
  }

  /** The products computed for the first n producers stay within 64 bits. */
  predicate FirstFit(pool: nat, ps: seq<Payout>, n: nat)
    requires n <= |ps|
  {
    forall j :: 0 <= j < n ==> Times(pool, ps[j].blocks) < TWO64
  }

  /** Everyone but the last gets exactly the floor of its proportional part if they do; otherwise somebody does not. */
  lemma FloorSharesExact(c: Counts, pool: nat, ps: seq<Payout>)
    requires Distributes(c, pool, ps) && TotalBlocks(c) <= TWO64
    ensures (forall j :: 0 <= j < |ps| - 1 ==> ps[j].amount == Floor(pool, ps[j].blocks, TotalBlocks(c)))
            <==> FirstFit(pool, ps, |ps| - 1)
  {
    SortedKeysExact(c.Keys);
    forall j | 0 <= j < |ps| - 1
      ensures ps[j].amount == Floor(pool, ps[j].blocks, TotalBlocks(c)) <==> Times(pool, ps[j].blocks) < TWO64
    {
      ShareExact(pool, ps[j].blocks, TotalBlocks(c));
    }
  }

  /**
   * The first shares never exceed their exact part of the pool; while their products fit they lie below it by
   * less than one unit each.
   */
  lemma {:induction false} FloorsBound(c: Counts, keys: seq<Key>, pool: nat, t: nat, ps: seq<Payout>, n: nat)
    requires t > 0 && n < |ps| == |keys| && (forall k :: k in keys ==> k in c) && SharedOut(c, keys, pool, t, ps)
    ensures Times(Paid(ps[..n]), t) <= Times(pool, BlocksOf(c, keys[..n]))
    ensures FirstFit(pool, ps, n) ==> Times(pool, BlocksOf(c, keys[..n])) <= Times(Paid(ps[..n]), t) + Times(n, t)
    decreases n
  {
    if n > 0 {
      FloorsBound(c, keys, pool, t, ps, n - 1);
      var x := c[keys[n - 1]];
      FloorExact(pool, x, t);
      ShareExact(pool, x, t);
      assert ps[n - 1].blocks == x && ps[n - 1].amount == Share(pool, x, t);
      assert keys[..n][..n - 1] == keys[..n - 1] && ps[..n][..n - 1] == ps[..n - 1];
      hide Times, Floor, Share;
      var p, b := Paid(ps[..n - 1]), BlocksOf(c, keys[..n - 1]);
      StepBelow(p, ps[n - 1].amount, t, pool, b, x);
      if FirstFit(pool, ps, n) {
        assert FirstFit(pool, ps, n - 1);
        StepAbove(p, ps[n - 1].amount, t, pool, b, x, n - 1);
      }
    }
  }

  lemma StepBelow(p: nat, a: nat, t: nat, pool: nat, b: nat, x: nat)
    requires Times(p, t) <= Times(pool, b) && Times(a, t) <= Times(pool, x)
    ensures Times(p + a, t) <= Times(pool, b + x)
  {
    assert (p + a) * t == p * t + a * t;
    assert pool * (b + x) == pool * b + pool * x;
  }

  lemma StepAbove(p: nat, a: nat, t: nat, pool: nat, b: nat, x: nat, m: nat)
    requires Times(pool, b) <= Times(p, t) + Times(m, t) && Times(pool, x) < Times(a, t) + t
    ensures Times(pool, b + x) <= Times(p + a, t) + Times(m + 1, t)
  {
    assert (p + a) * t == p * t + a * t;
    assert pool * (b + x) == pool * b + pool * x;
    assert (m + 1) * t == m * t + t;
  }

  /**
   * The dust: the last producer always gets at least its own floor share, and while the products computed
   * for the others fit at most one unit more for each of them.
   */
  lemma LastShare(c: Counts, pool: nat, ps: seq<Payout>)
    requires Distributes(c, pool, ps)
    ensures var last, f := ps[|ps| - 1], Floor(pool, ps[|ps| - 1].blocks, TotalBlocks(c));
            f <= last.amount && (FirstFit(pool, ps, |ps| - 1) ==> last.amount <= f + |ps| - 1)
  {
    SortedKeysExact(c.Keys);
    LastShareOf(c, SortedKeys(c.Keys), pool, TotalBlocks(c), ps);
  }

  lemma LastShareOf(c: Counts, keys: seq<Key>, pool: nat, t: nat, ps: seq<Payout>)
    requires 0 < |ps| == |keys| && (forall k :: k in keys ==> k in c) && t == BlocksOf(c, keys) > 0
    requires SharedOut(c, keys, pool, t, ps) && Paid(ps) == pool
    ensures var last, f := ps[|ps| - 1], Floor(pool, ps[|ps| - 1].blocks, t);
            f <= last.amount && (FirstFit(pool, ps, |ps| - 1) ==> last.amount <= f + |ps| - 1)
  {
    var n := |ps| - 1;
    FloorsBound(c, keys, pool, t, ps, n);
    FloorExact(pool, c[keys[n]], t);
    hide Times, Floor, Share;
    var p, a, f, b, x := Paid(ps[..n]), ps[n].amount, Floor(pool, c[keys[n]], t), BlocksOf(c, keys[..n]), c[keys[n]];
    LastAtLeast(p, a, f, t, pool, b, x);
    if FirstFit(pool, ps, n) { LastAtMost(p, a, f, t, pool, b, x, n); }
  }

  lemma LastAtLeast(p: nat, a: nat, f: nat, t: nat, pool: nat, b: nat, x: nat)
    requires t == b + x > 0 && pool == p + a
    requires Times(p, t) <= Times(pool, b) && Times(f, t) <= Times(pool, x)
    ensures f <= a
  {
    assert pool * t == pool * b + pool * x;
    assert pool * t == p * t + a * t;
    DivideOut(f, a, t);
  }

  lemma LastAtMost(p: nat, a: nat, f: nat, t: nat, pool: nat, b: nat, x: nat, n: nat)
    requires t == b + x > 0 && pool == p + a
    requires Times(pool, b) <= Times(p, t) + Times(n, t) && Times(pool, x) < Times(f, t) + t
    ensures a <= f + n
  {
    assert pool * t == pool * b + pool * x;
    assert pool * t == p * t + a * t;
    assert (f + n + 1) * t == f * t + n * t + t;
    assert a * t < (f + n + 1) * t;
    if a >= f + n + 1 { MulMonotone(f + n + 1, a, t); }
  }

  // ----- the tracker -----

  type Height = h: int | 0 <= h < TWO64

  /** Blocks since the epoch began, as unsigned 64-bit subtraction and addition give it in a release build. */
  function Elapsed(height: Height, start: Height): Height { (height - start + 1) % TWO64 }

  function After(height: Height): Height { (height + 1) % TWO64 }

  lemma AfterExact(height: Height)
    ensures After(height) == if height == TWO64 - 1 then 0 else height + 1
  {
  }

  /** It is the true count exactly when the height is not below the block before the epoch's first. */
  lemma ElapsedExact(height: Height, start: Height)
    ensures Elapsed(height, start) == height - start + 1 <==> start <= height + 1 < start + TWO64
    ensures height + 1 < start ==> Elapsed(height, start) == TWO64 - (start - (height + 1))
  {
    ModUnique(height - start + 1, TWO64, if height + 1 < start then -1 else if height + 1 < start + TWO64 then 0 else 1,
              if height + 1 < start then height - start + 1 + TWO64
              else if height + 1 < start + TWO64 then height - start + 1 else 0);
  }

  class Tracker {
    var counts: Counts
    var pool: nat
    var startHeight: Height
    var epoch: nat
    const epochLength: nat
    const reward: nat -> nat

    constructor (epochLength: nat, reward: nat -> nat)
      ensures counts == map[] && pool == 0 && startHeight == 1 && epoch == 0
      ensures this.epochLength == epochLength && this.reward == reward
    {
      counts, pool, startHeight, epoch := map[], 0, 1, 0;
      this.epochLength, this.reward := epochLength, reward;
    }

    /** Every producer counted has a block. */
    ghost predicate Valid()
      reads this
    {
      forall k :: k in counts ==> counts[k] > 0
    }

    /** The tracker among the sums of all payouts and of all rewards so far. */
    ghost function Now(paid: nat, tracked: nat): State
      reads this
    {
      State(counts, pool, startHeight, paid, tracked)
    }

    method TrackBlock(producer: Key, height: Height)
      requires Valid()
      modifies `counts, `pool
      ensures Valid()
      ensures forall a: nat, b: nat ::
                Moves(old(Now(a, b)), Track(producer, height), Now(a, b + reward(height)), epochLength, reward)
      ensures counts == Counted(old(counts), producer) && pool == old(pool) + reward(height)
      ensures producer in counts
              && counts[producer] == 1 + if producer in old(counts) then old(counts)[producer] else 0
      ensures forall k :: k != producer ==>
                (k in counts <==> k in old(counts)) && (k in counts ==> counts[k] == old(counts)[k])
    {
      counts := counts[producer := (if producer in counts then counts[producer] else 0) + 1];
      pool := pool + reward(height);
    }

    /** At a boundary with producers the whole pool is shared out and a fresh epoch opens. */
    method CheckEpochBoundary(height: Height) returns (r: Option<seq<Payout>>)
      requires Valid()
      modifies this
      ensures Valid()
      ensures r.Some? <==> Elapsed(height, old(startHeight)) >= epochLength && old(counts) != map[]
      ensures r.None? ==> unchanged(this)
      ensures forall a: nat, b: nat ::
                Moves(old(Now(a, b)), Boundary(height), Now(a + if r.Some? then Paid(r.value) else 0, b),
                      epochLength, reward)
      ensures r.Some? ==> Distributes(old(counts), old(pool), r.value)
                          && counts == map[] && pool == 0 && startHeight == After(height) && epoch == old(epoch) + 1
    {
      hide Elapsed, After, SharedOut, Paid, Counted, SortedKeys;
      if Elapsed(height, startHeight) < epochLength || counts == map[] { return None; }
      SortedKeysExact(counts.Keys);
      var keys := SortedKeys(counts.Keys);
      assert keys != [] by { assert counts.Keys != {}; }
      var total := SumBlocks(counts, keys);
      assert total > 0;
      var ps := Distribute(counts, keys, pool, total);
      assert Distributes(counts, pool, ps);
      hide Distributes, BlocksOf, TotalBlocks;
      counts, pool, startHeight, epoch := map[], 0, After(height), epoch + 1;
      return Some(ps);
    }
  }

  method SumBlocks(c: Counts, keys: seq<Key>) returns (total: nat)
    requires forall k :: k in keys ==> k in c
    ensures total == BlocksOf(c, keys)
  {
    total := 0;
    for i := 0 to |keys|
      invariant total == BlocksOf(c, keys[..i])
    {
      assert keys[..i + 1][..i] == keys[..i];
      total := total + c[keys[i]];
    }
    assert keys[..|keys|] == keys;
  }

  /** The rewards closure, mapped over the sorted producers with its running total. */
  method Distribute(c: Counts, keys: seq<Key>, pool: nat, total: nat) returns (ps: seq<Payout>)
    requires (forall k :: k in keys ==> k in c) && keys != [] && total == BlocksOf(c, keys) > 0
    ensures |ps| == |keys| && SharedOut(c, keys, pool, total, ps) && Paid(ps) == pool
  {
    hide Share, Times, SharedOut, Paid, BlocksOf;
    var distributed := 0;
    ps := [];
    NothingShared(c, keys, pool, total);
    for i := 0 to |keys|
      invariant |ps| == i && distributed == Paid(ps) && SharedOut(c, keys, pool, total, ps)
      invariant i < |keys| ==> Times(distributed, total) <= Times(pool, BlocksOf(c, keys[..i]))
      invariant i == |keys| ==> distributed == pool
    {
      assert keys[i] in keys;
      var blocks := c[keys[i]];
      BlocksSnoc(c, keys, i);
      PartBelowWhole(c, keys, i, pool, distributed, total);
      ShareExact(pool, blocks, total);
      Accumulate(distributed, Share(pool, blocks, total), total, pool, BlocksOf(c, keys[..i]), blocks);
      var amount := if i == |keys| - 1 then pool - distributed else Share(pool, blocks, total);
      distributed := distributed + amount;
      SharedSnoc(c, keys, pool, total, ps, amount);
      ps := ps + [Payout(keys[i], amount, blocks)];
    }
  }

  lemma NothingShared(c: Counts, keys: seq<Key>, pool: nat, total: nat)
    requires total > 0 && (forall k :: k in keys ==> k in c)
    ensures SharedOut(c, keys, pool, total, []) && Paid([]) == 0
    ensures Times(0, total) <= Times(pool, BlocksOf(c, keys[..0]))
  {
    hide BlocksOf;
  }

  lemma SharedSnoc(c: Counts, keys: seq<Key>, pool: nat, total: nat, ps: seq<Payout>, amount: nat)
    requires total > 0 && |ps| < |keys| && (forall k :: k in keys ==> k in c) && SharedOut(c, keys, pool, total, ps)
    requires |ps| < |keys| - 1 ==> amount == Share(pool, c[keys[|ps|]], total)
    ensures var next := ps + [Payout(keys[|ps|], amount, c[keys[|ps|]])];
            SharedOut(c, keys, pool, total, next) && Paid(next) == Paid(ps) + amount
  {
    hide Share, Paid, SharedOut;
    assert keys[|ps|] in keys;
    var p := Payout(keys[|ps|], amount, c[keys[|ps|]]);
    PaidSnoc(ps, p);
    SharedNext(c, keys, pool, total, ps, p);
  }

  lemma SharedNext(c: Counts, keys: seq<Key>, pool: nat, total: nat, ps: seq<Payout>, p: Payout)
    requires total > 0 && |ps| < |keys| && (forall k :: k in keys ==> k in c) && SharedOut(c, keys, pool, total, ps)
    requires p.producer == keys[|ps|] && p.producer in c && p.blocks == c[p.producer]
    requires |ps| < |keys| - 1 ==> p.amount == Share(pool, p.blocks, total)
    ensures SharedOut(c, keys, pool, total, ps + [p])
  {
    hide Share;
    var next := ps + [p];
    assert forall j :: 0 <= j < |ps| ==> next[j] == ps[j];
    assert next[|ps|] == p;
  }

  lemma PaidSnoc(ps: seq<Payout>, p: Payout)
    ensures Paid(ps + [p]) == Paid(ps) + p.amount
  {
    assert (ps + [p])[..|ps|] == ps;
  }

  lemma BlocksSnoc(c: Counts, keys: seq<Key>, i: nat)
    requires i < |keys| && forall k :: k in keys ==> k in c
    ensures BlocksOf(c, keys[..i + 1]) == BlocksOf(c, keys[..i]) + c[keys[i]]
  {
    assert keys[..i + 1][..i] == keys[..i];
  }

  lemma Accumulate(d: nat, f: nat, t: nat, pool: nat, b: nat, x: nat)
    requires Times(d, t) <= Times(pool, b) && Times(f, t) <= Times(pool, x)
    ensures Times(d + f, t) <= Times(pool, b + x)
  {
    assert (d + f) * t == d * t + f * t;
    assert pool * (b + x) == pool * b + pool * x;
  }

  /** What is distributed before a producer's turn never exceeds the pool: the last subtraction cannot underflow. */
  lemma PartBelowWhole(c: Counts, keys: seq<Key>, i: nat, pool: nat, distributed: nat, total: nat)
    requires i < |keys| && (forall k :: k in keys ==> k in c)
    requires total == BlocksOf(c, keys) > 0 && Times(distributed, total) <= Times(pool, BlocksOf(c, keys[..i]))
    ensures distributed <= pool
  {
    PrefixBelow(c, keys, i);
    MulMonotone(BlocksOf(c, keys[..i]), total, pool);
    DivideOut(distributed, pool, total);
  }

  lemma {:induction false} PrefixBelow(c: Counts, keys: seq<Key>, i: nat)
    requires i <= |keys| && (forall k :: k in keys ==> k in c)
    ensures BlocksOf(c, keys[..i]) <= BlocksOf(c, keys)
    decreases |keys|
  {
    if i < |keys| {
      var init := keys[..|keys| - 1];
      PrefixBelow(c, init, i);
      assert init[..i] == keys[..i];
    } else {
      assert keys[..i] == keys;
    }
  }

  // ----- whole runs -----

  function Counted(c: Counts, producer: Key): Counts {
    c[producer := (if producer in c then c[producer] else 0) + 1]
  }

  datatype Event = Track(producer: Key, height: Height) | Boundary(height: Height)

  datatype State = State(counts: Counts, pool: nat, startHeight: Height, paid: nat, tracked: nat)

  /** One call of the tracker, with running totals of what was paid and what was put in. */
  ghost predicate Moves(s: State, e: Event, r: State, length: nat, reward: nat -> nat) {
    match e
    case Track(producer, height) =>
      r == State(Counted(s.counts, producer), s.pool + reward(height), s.startHeight, s.paid,
                 s.tracked + reward(height))
    case Boundary(height) =>
      if Elapsed(height, s.startHeight) >= length && s.counts != map[]
      then exists ps :: Distributes(s.counts, s.pool, ps)
                        && r == State(map[], 0, After(height), s.paid + Paid(ps), s.tracked)
      else r == s
  }

  ghost predicate IsRun(states: seq<State>, events: seq<Event>, length: nat, reward: nat -> nat) {
    && |states| == |events| + 1
    && forall i :: 0 <= i < |events| ==> Moves(states[i], events[i], states[i + 1], length, reward)
  }

  /** Paid rewards plus the open pool are always all the rewards put in. */
  lemma {:induction false} RewardsConserved(states: seq<State>, events: seq<Event>, length: nat, reward: nat -> nat,
                                            n: nat)
    requires IsRun(states, events, length, reward) && n < |states|
    requires states[0] == State(map[], 0, 1, 0, 0)
    ensures states[n].paid + states[n].pool == states[n].tracked
    decreases n
  {
    if n > 0 {
      RewardsConserved(states, events, length, reward, n - 1);
      assert Moves(states[n - 1], events[n - 1], states[n], length, reward);
    }
  }

  // ----- block order -----

  /** The tracker after a sequence of (producer, height) blocks of one epoch. */
  function CountsOf(blocks: seq<(Key, nat)>): Counts {
    if blocks == [] then map[] else Counted(CountsOf(blocks[..|blocks| - 1]), blocks[|blocks| - 1].0)
  }

  function PoolOf(blocks: seq<(Key, nat)>, reward: nat -> nat): nat {
    if blocks == [] then 0 else PoolOf(blocks[..|blocks| - 1], reward) + reward(blocks[|blocks| - 1].1)
  }

  function Producers(blocks: seq<(Key, nat)>): multiset<Key> {
    if blocks == [] then multiset{} else Producers(blocks[..|blocks| - 1]) + multiset{blocks[|blocks| - 1].0}
  }

  /** A producer's count is the number of blocks it built. */
  lemma {:induction false} CountsExact(blocks: seq<(Key, nat)>, k: Key)
    ensures k in CountsOf(blocks) <==> k in Producers(blocks)
    ensures k in CountsOf(blocks) ==> CountsOf(blocks)[k] == Producers(blocks)[k]
  {
    if blocks != [] { CountsExact(blocks[..|blocks| - 1], k); }
  }

  lemma {:induction false} BlocksOfLess(c: Counts, keys: seq<Key>, k: Key)
    requires (forall x :: x in keys ==> x in c) && Distinct(keys)
    ensures BlocksOf(Counted(c, k), keys) == BlocksOf(c, keys) + if k in keys then 1 else 0
  {
    if keys != [] {
      var init, last := keys[..|keys| - 1], keys[|keys| - 1];
      assert last !in init && (k in keys <==> k in init || k == last);
      BlocksOfLess(c, init, k);
    }
  }

  lemma {:induction false} BlocksOfRest(c: Counts, keys: seq<Key>, i: nat)
    requires i < |keys| && forall x :: x in keys ==> x in c
    ensures (forall x :: x in keys[..i] + keys[i + 1..] ==> x in c)
            && BlocksOf(c, keys) == BlocksOf(c, keys[..i] + keys[i + 1..]) + c[keys[i]]
    decreases |keys|
  {
    var n, rest := |keys| - 1, keys[..i] + keys[i + 1..];
    if i == n {
      assert rest == keys[..n];
    } else {
      BlocksOfRest(c, keys[..n], i);
      assert rest[..n - 1] == keys[..n][..i] + keys[..n][i + 1..] && rest[n - 1] == keys[n];
    }
  }

  /** The blocks of all producers counted are all the blocks. */
  lemma {:induction false} TotalExact(blocks: seq<(Key, nat)>, keys: seq<Key>)
    requires Distinct(keys) && forall k :: k in keys <==> k in CountsOf(blocks)
    ensures BlocksOf(CountsOf(blocks), keys) == |blocks|
    decreases |blocks|
  {
    if blocks == [] {
      NoKeys(keys);
    } else {
      var init, k := blocks[..|blocks| - 1], blocks[|blocks| - 1].0;
      var c := CountsOf(init);
      hide BlocksOf;
      if k in c {
        TotalExact(init, keys);
        BlocksOfLess(c, keys, k);
      } else {
        var i :| 0 <= i < |keys| && keys[i] == k;
        var rest := keys[..i] + keys[i + 1..];
        RestKeys(keys, i);
        BlocksOfRest(CountsOf(blocks), keys, i);
        TotalExact(init, rest);
        BlocksOfLess(c, rest, k);
      }
    }
  }

  lemma NoKeys(keys: seq<Key>)
    requires forall k: Key :: k !in keys
    ensures keys == []
  {
    assert |keys| > 0 ==> exists k :: k in keys by { if |keys| > 0 { SomeKey(keys); } }
  }

  lemma SomeKey(keys: seq<Key>)
    requires keys != []
    ensures exists k :: k in keys
  {
    assert keys[0] in keys;
  }

  lemma RestKeys(keys: seq<Key>, i: nat)
    requires i < |keys| && Distinct(keys)
    ensures var rest := keys[..i] + keys[i + 1..];
            Distinct(rest) && forall k :: k in rest <==> k in keys && k != keys[i]
  {
    var rest := keys[..i] + keys[i + 1..];
    forall k | k in keys && k != keys[i] ensures k in rest {
      var j :| 0 <= j < |keys| && keys[j] == k;
      assert rest[if j < i then j else j - 1] == k;
    }
  }

  /** So the total a distribution divides by is the number of blocks tracked. */
  lemma TotalBlocksExact(blocks: seq<(Key, nat)>)
    ensures TotalBlocks(CountsOf(blocks)) == |blocks|
  {
    SortedKeysExact(CountsOf(blocks).Keys);
    TotalExact(blocks, SortedKeys(CountsOf(blocks).Keys));
  }

  lemma CountedCommutes(c: Counts, k: Key, l: Key)
    ensures Counted(Counted(c, k), l) == Counted(Counted(c, l), k)
  {
  }

  lemma LastBlock(blocks: seq<(Key, nat)>, reward: nat -> nat)
    requires blocks != []
    ensures var n := |blocks| - 1;
            && CountsOf(blocks) == Counted(CountsOf(blocks[..n]), blocks[n].0)
            && PoolOf(blocks, reward) == PoolOf(blocks[..n], reward) + reward(blocks[n].1)
  {
  }

  /** Any block can be taken as the last one. */
  lemma {:induction false} TakeOut(blocks: seq<(Key, nat)>, i: nat, reward: nat -> nat)
    requires i < |blocks|
    ensures var rest := blocks[..i] + blocks[i + 1..];
            && CountsOf(blocks) == Counted(CountsOf(rest), blocks[i].0)
            && PoolOf(blocks, reward) == PoolOf(rest, reward) + reward(blocks[i].1)
    decreases |blocks|
  {
    hide CountsOf, PoolOf, Counted;
    var n := |blocks| - 1;
    var rest := blocks[..i] + blocks[i + 1..];
    LastBlock(blocks, reward);
    if i == n {
      assert rest == blocks[..n];
    } else {
      LastBlock(rest, reward);
      TakeOut(blocks[..n], i, reward);
      var init := blocks[..n][..i] + blocks[..n][i + 1..];
      assert rest[..n - 1] == init && rest[n - 1] == blocks[n] && blocks[..n][i] == blocks[i];
      CountedCommutes(CountsOf(init), blocks[i].0, blocks[n].0);
    }
  }

  /** Counts and pool, and so every payout, do not depend on the order in which blocks were tracked. */
  lemma {:induction false} OrderIrrelevant(a: seq<(Key, nat)>, b: seq<(Key, nat)>, reward: nat -> nat)
    requires multiset(a) == multiset(b)
    ensures CountsOf(a) == CountsOf(b) && PoolOf(a, reward) == PoolOf(b, reward)
    decreases |a|
  {
    if a == [] {
      assert |multiset(b)| == 0;
    } else {
      hide CountsOf, PoolOf, Counted;
      var n := |a| - 1;
      assert a[n] in multiset(a);
      var i :| 0 <= i < |b| && b[i] == a[n];
      TakeOut(b, i, reward);
      TakeOut(a, n, reward);
      WithoutOne(b, i);
      WithoutOne(a, n);
      assert a[..n] + a[n + 1..] == a[..n];
      OrderIrrelevant(a[..n], b[..i] + b[i + 1..], reward);
    }
  }

  lemma WithoutOne(b: seq<(Key, nat)>, i: nat)
    requires i < |b|
    ensures multiset(b[..i] + b[i + 1..]) == multiset(b) - multiset{b[i]}
  {
    assert b == b[..i] + ([b[i]] + b[i + 1..]);
  }

  lemma PayoutsOrderIrrelevant(a: seq<(Key, nat)>, b: seq<(Key, nat)>, reward: nat -> nat, ps: seq<Payout>,
                               qs: seq<Payout>)
    requires multiset(a) == multiset(b)
    requires Distributes(CountsOf(a), PoolOf(a, reward), ps) && Distributes(CountsOf(b), PoolOf(b, reward), qs)
    ensures ps == qs
  {
    OrderIrrelevant(a, b, reward);
    DistributionUnique(CountsOf(a), PoolOf(a, reward), ps, qs);
  }
}
