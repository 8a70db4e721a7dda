/** `learn_order` (scripts/gauntlet-gs033/plan.py:29-58): the producer order read off recent blocks. */
module SlotOrder {
  import opened Arithmetic
  import opened SlotSchedule
  import opened Wrappers

  /** A served block: its slot, and the node whose key built it, if any plist names that key. */
  datatype Block = Block(slot: int, builder: Known)
  datatype Known = Unknown | Node(node: Node)

  /** The seed's answer for a height. */
  datatype Reply = NoReply | Got(block: Block)

  datatype Learned = Order(order: seq<Node>) | TooFewBlocks | NotServed | UnknownKey | NotRoundRobin | UnmappedResidue

  // ----- the heights scanned -----

  /** Lowest and highest height scanned, or nothing when the epoch is too young. */
  datatype Window = TooFew | Heights(lo: int, hi: int)

  function WindowOf(tip: int, epoch: int, allowPrev: bool, minBlocks: int, n: int): Window
    requires epoch > 0
  {
    WindowFrom(EpochStart(tip, epoch) + 1, tip, epoch, allowPrev, minBlocks, n)
  }

  function EpochStart(tip: int, epoch: int): int
    requires epoch > 0
  {
    (tip / epoch) * epoch
  }

  /** The window, given the first height of the tip's epoch. */
  function WindowFrom(lo: int, tip: int, epoch: int, allowPrev: bool, minBlocks: int, n: int): Window {
    if tip - lo + 1 >= minBlocks then Heights(Max(lo, tip - n + 1), tip)
    else if !allowPrev then TooFew
    else Heights(Max(Max(1, lo - epoch), lo - 1 - n + 1), lo - 1)
  }

  function EpochOf(height: int, epoch: int): int
    requires epoch > 0
  {
    (height - 1) / epoch
  }

  lemma InEpoch(height: int, epoch: int, k: int, start: int)
    requires epoch > 0 && start == k * epoch && start + 1 <= height <= start + epoch
    ensures EpochOf(height, epoch) == k
  {
    ModUnique(height - 1, epoch, k, height - 1 - start);
  }

  /** Heights after the tip's epoch starts are of one epoch, and so are the last `epoch` ones before. */
  lemma EpochsAround(tip: int, epoch: int, h: int)
    requires epoch > 0 && tip >= 0
    ensures var s := EpochStart(tip, epoch);
            && 0 <= s <= tip < s + epoch
            && (s < h <= s + epoch ==> EpochOf(h, epoch) == tip / epoch)
            && (s - epoch < h <= s ==> EpochOf(h, epoch) == tip / epoch - 1)
  {
    var k := tip / epoch;
    var s := k * epoch;
    assert tip == s + tip % epoch && s >= 0;
    assert (k - 1) * epoch == s - epoch;
    if s < h <= s + epoch { InEpoch(h, epoch, k, s); }
    if s - epoch < h <= s { InEpoch(h, epoch, k - 1, s - epoch); }
  }

  /** One epoch only, no height below 1, and at most n heights: the list cannot change inside the window. */
  lemma WindowInOneEpoch(tip: int, epoch: int, allowPrev: bool, minBlocks: int, n: int)
    requires epoch > 0 && tip >= 0 && n >= 0
    requires WindowOf(tip, epoch, allowPrev, minBlocks, n).Heights?
    ensures var w := WindowOf(tip, epoch, allowPrev, minBlocks, n);
            && 1 <= w.lo && w.hi - w.lo + 1 <= n && w.hi <= tip
            && forall a, b :: w.lo <= a <= w.hi && w.lo <= b <= w.hi ==> EpochOf(a, epoch) == EpochOf(b, epoch)
  {
    EpochsAround(tip, epoch, tip);
    hide EpochStart, EpochOf;
    var w := WindowOf(tip, epoch, allowPrev, minBlocks, n);
    WindowBounds(EpochStart(tip, epoch), tip, epoch, allowPrev, minBlocks, n);
    hide WindowFrom;
    var e := if w.hi > EpochStart(tip, epoch) then tip / epoch else tip / epoch - 1;
    forall a | w.lo <= a <= w.hi ensures EpochOf(a, epoch) == e { EpochsAround(tip, epoch, a); }
  }

  lemma WindowBounds(start: int, tip: int, epoch: int, allowPrev: bool, minBlocks: int, n: int)
    requires 0 <= start <= tip < start + epoch && n >= 0
    requires WindowFrom(start + 1, tip, epoch, allowPrev, minBlocks, n).Heights?
    ensures var w := WindowFrom(start + 1, tip, epoch, allowPrev, minBlocks, n);
            && 1 <= w.lo && w.hi - w.lo + 1 <= n && w.hi <= tip
            && (if w.hi > start then start < w.lo else start - epoch < w.lo && w.hi <= start)
  {
  }

  /** The heights of the tip's epoch, up to the tip. */
  predicate ThisEpoch(tip: int, epoch: int, h: int)
    requires epoch > 0
  {
    1 <= h <= tip && EpochOf(h, epoch) == tip / epoch
  }

  /** Those of the epoch before. */
  predicate LastEpoch(tip: int, epoch: int, h: int)
    requires epoch > 0
  {
    1 <= h <= tip && EpochOf(h, epoch) == tip / epoch - 1
  }

  /**
   * Scanned are the last n heights of the tip's epoch when it has the wanted number of blocks; else, where that
   * is allowed, the last n of the epoch before; else none.
   */
  lemma WindowExact(tip: int, epoch: int, allowPrev: bool, minBlocks: int, n: int, h: int)
    requires epoch > 0 && tip >= 0 && n >= 0
    ensures var w, here := WindowOf(tip, epoch, allowPrev, minBlocks, n), tip % epoch;
            && (w.TooFew? <==> here < minBlocks && !allowPrev)
            && (w.Heights? && here >= minBlocks ==>
                  (w.lo <= h <= w.hi <==> ThisEpoch(tip, epoch, h) && h > tip - n))
            && (w.Heights? && here < minBlocks ==>
                  (w.lo <= h <= w.hi <==> LastEpoch(tip, epoch, h) && h > tip - here - n))
  {
    var s := EpochStart(tip, epoch);
    assert tip == s + tip % epoch;
    EpochsAround(tip, epoch, tip);
    EpochsAround(tip, epoch, h);
    if 1 <= h <= tip { EpochExact(tip, epoch, h); }
    hide EpochStart, EpochOf;
  }

  lemma EpochExact(tip: int, epoch: int, h: int)
    requires epoch > 0 && 1 <= h <= tip
    ensures var s := EpochStart(tip, epoch);
            && (EpochOf(h, epoch) == tip / epoch ==> s < h)
            && (EpochOf(h, epoch) == tip / epoch - 1 ==> s - epoch < h <= s)
  {
    var k, e := tip / epoch, EpochOf(h, epoch);
    var r := (h - 1) % epoch;
    assert h - 1 == e * epoch + r;
    assert (k - 1) * epoch == k * epoch - epoch;
  }

  /** The replies are the seed's for those heights, lowest first. */
  lemma {:induction false} FetchedExact(fetch: int -> Reply, lo: int, hi: int, i: nat)
    ensures |Fetched(fetch, lo, hi)| == if hi < lo then 0 else hi - lo + 1
    ensures i < |Fetched(fetch, lo, hi)| ==> Fetched(fetch, lo, hi)[i] == fetch(lo + i)
    decreases hi - lo
  {
    if lo <= hi { FetchedExact(fetch, lo + 1, hi, if i == 0 then 0 else i - 1); }
  }

  // ----- the order -----

  predicate Served(replies: seq<Reply>) {
    forall i :: 0 <= i < |replies| ==> replies[i].Got?
  }

  predicate KeysKnown(replies: seq<Reply>) {
    forall i :: 0 <= i < |replies| && replies[i].Got? ==> replies[i].block.builder.Node?
  }

  function Builders(replies: seq<Reply>): set<Known>
    requires Served(replies)
  {
    set i | 0 <= i < |replies| :: replies[i].block.builder
  }

  /** The list without repetition, holding exactly the observed producers, that explains every block. */
  ghost predicate Explains(order: seq<Node>, replies: seq<Reply>)
    requires Served(replies) && KeysKnown(replies)
  {
    && (forall i, j :: 0 <= i < j < |order| ==> order[i] != order[j])
    && (forall v :: v in order <==> Node(v) in Builders(replies))
    && (forall i :: 0 <= i < |replies| ==>
         order != [] && Lead(order, replies[i].block.slot) == replies[i].block.builder.node)
  }

  function Elements(order: seq<Node>): set<Known> { set i | 0 <= i < |order| :: Node(order[i]) }

  lemma LastElement(order: seq<Node>)
    requires order != []
    ensures Elements(order) == Elements(order[..|order| - 1]) + {Node(order[|order| - 1])}
  {
    var rest := order[..|order| - 1];
    forall i | 0 <= i < |order| ensures Node(order[i]) in Elements(rest) + {Node(order[|order| - 1])} {
      if i < |rest| { assert order[i] == rest[i]; }
    }
    forall i | 0 <= i < |rest| ensures Node(rest[i]) in Elements(order) { assert rest[i] == order[i]; }
  }

  /** A list as long as its set of elements is large has no repetition. */
  lemma {:induction false} NoRepetition(order: seq<Node>)
    ensures |Elements(order)| <= |order|
    ensures |Elements(order)| == |order| ==> forall i, j :: 0 <= i < j < |order| ==> order[i] != order[j]
  {
    if order != [] {
      var last, rest := order[|order| - 1], order[..|order| - 1];
      NoRepetition(rest);
      LastElement(order);
      if last in rest { assert Node(last) in Elements(rest); }
    }
  }

  lemma {:induction false} DistinctSize(order: seq<Node>)
    requires forall i, j :: 0 <= i < j < |order| ==> order[i] != order[j]
    ensures |Elements(order)| == |order|
  {
    if order != [] {
      var last, rest := order[|order| - 1], order[..|order| - 1];
      DistinctSize(rest);
      LastElement(order);
    }
  }

  /** At most one list explains the blocks. */
  lemma ExplanationUnique(a: seq<Node>, b: seq<Node>, replies: seq<Reply>)
    requires Served(replies) && KeysKnown(replies)
    requires Explains(a, replies) && Explains(b, replies)
    ensures a == b
  {
    DistinctSize(a);
    DistinctSize(b);
    ElementsAreBuilders(replies, a);
    ElementsAreBuilders(replies, b);
    forall k | 0 <= k < |a| ensures a[k] == b[k] {
      assert Node(a[k]) in Builders(replies);
      var i :| 0 <= i < |replies| && replies[i].block.builder.node == a[k];
      assert Lead(a, replies[i].block.slot) == a[k];
    }
  }

  /** Residues mapped so far agree with the blocks scanned so far. */
  ghost predicate Mapped(byMod: map<int, Node>, replies: seq<Reply>, n: nat, size: int)
    requires n <= |replies| && Served(replies) && KeysKnown(replies) && size > 0
  {
    && (forall i :: 0 <= i < n ==> replies[i].block.slot % size in byMod
                                   && byMod[replies[i].block.slot % size] == replies[i].block.builder.node)
    && (forall r :: r in byMod ==> 0 <= r < size
                                   && exists i :: 0 <= i < n && replies[i].block.slot % size == r)
  }

  /** The observed builders, or the first reply that was not served. */
  method Observe(replies: seq<Reply>) returns (served: bool, seen: map<Known, int>)
    ensures served <==> Served(replies)
    ensures served ==> seen.Keys == set i | 0 <= i < |replies| :: replies[i].block.builder
  {
    seen := map[];
    for i := 0 to |replies|
      invariant forall j :: 0 <= j < i ==> replies[j].Got?
      invariant seen.Keys == set j | 0 <= j < i :: replies[j].block.builder
    {
      if replies[i].NoReply? { return false, seen; }
      if replies[i].block.builder !in seen {
        seen := seen[replies[i].block.builder := replies[i].block.slot];
      }
    }
    return true, seen;
  }

  method MapResidues(replies: seq<Reply>, size: int) returns (r: Option<map<int, Node>>)
    requires Served(replies) && KeysKnown(replies) && size == |Builders(replies)| > 0
    ensures r.None? ==> forall order :: !Explains(order, replies)
    ensures r.Some? ==> Mapped(r.value, replies, |replies|, size)
  {
    var byMod: map<int, Node> := map[];
    for i := 0 to |replies|
      invariant Mapped(byMod, replies, i, size)
    {
      var s, node := replies[i].block.slot, replies[i].block.builder.node;
      if s % size in byMod && byMod[s % size] != node {
        ghost var j :| 0 <= j < i && replies[j].block.slot % size == s % size;
        forall order ensures !Explains(order, replies) {
          if Explains(order, replies) { OneBuilder(replies, order, i, j); }
        }
        return None;
      }
      byMod := byMod[s % size := node];
    }
    return Some(byMod);
  }

  lemma SomeBuilder(replies: seq<Reply>)
    requires Served(replies)
    ensures replies != [] ==> Builders(replies) != {}
  {
    if replies != [] { assert replies[0].block.builder in Builders(replies); }
  }

  method LearnFrom(replies: seq<Reply>) returns (r: Learned)
    ensures r.NotServed? <==> !Served(replies)
    ensures r.UnknownKey? <==> Served(replies) && !KeysKnown(replies)
    ensures r.Order? ==> Served(replies) && KeysKnown(replies) && Explains(r.order, replies)
    ensures !r.TooFewBlocks?
    ensures r.NotRoundRobin? || r.UnmappedResidue? ==>
              Served(replies) && KeysKnown(replies) && forall order :: !Explains(order, replies)
  {
    var served, seen := Observe(replies);
    if !served { return NotServed; }
    if Unknown in seen { return UnknownKey; }
    var size := |seen|;
    assert KeysKnown(replies);
    assert seen.Keys == Builders(replies) && |seen.Keys| == |seen|;
    if size == 0 {
      SomeBuilder(replies);
      return Order([]);
    }
    var mapped := MapResidues(replies, size);
    if mapped.None? { return NotRoundRobin; }
    var byMod := mapped.value;
    if exists k :: 0 <= k < size && k !in byMod {
      ghost var k :| 0 <= k < size && k !in byMod;
      forall order ensures !Explains(order, replies) {
        if Explains(order, replies) { EveryResidue(replies, order, k); }
      }
      return UnmappedResidue;
    }
    var order := seq(size, k requires k in byMod => byMod[k]);
    OrderExplains(replies, byMod, size, order);
    return Order(order);
  }

  lemma ElementsAreBuilders(replies: seq<Reply>, order: seq<Node>)
    requires Served(replies) && KeysKnown(replies)
    requires forall v :: v in order <==> Node(v) in Builders(replies)
    ensures Elements(order) == Builders(replies)
  {
    forall k | k in Builders(replies) ensures k in Elements(order) {
      assert k.node in order;
    }
  }

  /** Under any explanation, blocks of one residue have one builder. */
  lemma OneBuilder(replies: seq<Reply>, order: seq<Node>, i: nat, j: nat)
    requires Served(replies) && KeysKnown(replies) && i < |replies| && j < |replies| && Explains(order, replies)
    requires 0 < |Builders(replies)|
    requires replies[i].block.slot % |Builders(replies)| == replies[j].block.slot % |Builders(replies)|
    ensures replies[i].block.builder == replies[j].block.builder
  {
    DistinctSize(order);
    ElementsAreBuilders(replies, order);
    assert Lead(order, replies[j].block.slot) == Lead(order, replies[i].block.slot);
  }

  /** Under any explanation, every residue has a block. */
  lemma EveryResidue(replies: seq<Reply>, order: seq<Node>, k: nat)
    requires Served(replies) && KeysKnown(replies) && Explains(order, replies)
    requires k < |Builders(replies)|
    ensures exists i :: 0 <= i < |replies| && replies[i].block.slot % |Builders(replies)| == k
  {
    DistinctSize(order);
    ElementsAreBuilders(replies, order);
    assert Node(order[k]) in Builders(replies);
    var i :| 0 <= i < |replies| && replies[i].block.builder.node == order[k];
    assert Lead(order, replies[i].block.slot) == order[k];
  }

  lemma OrderExplains(replies: seq<Reply>, byMod: map<int, Node>, size: int, order: seq<Node>)
    requires Served(replies) && KeysKnown(replies) && size == |Builders(replies)| > 0
    requires Mapped(byMod, replies, |replies|, size)
    requires |order| == size && forall k :: 0 <= k < size ==> k in byMod && order[k] == byMod[k]
    ensures Explains(order, replies)
  {
    forall v ensures v in order <==> Node(v) in Builders(replies) {
      if Node(v) in Builders(replies) {
        var i :| 0 <= i < |replies| && replies[i].block.builder == Node(v);
        assert order[replies[i].block.slot % size] == v;
      }
      if v in order {
        var k :| 0 <= k < size && order[k] == v;
        var i :| 0 <= i < |replies| && replies[i].block.slot % size == k;
        assert replies[i].block.builder.node == v;
      }
    }
    ElementsAreBuilders(replies, order);
    NoRepetition(order);
  }

  /** The whole of `learn_order`, the seed's block service being `fetch`. */
  method LearnOrder(tip: nat, epoch: int, allowPrev: bool, minBlocks: int, n: nat, fetch: int -> Reply)
    returns (r: Learned)
    requires epoch > 0
    ensures var w := WindowOf(tip, epoch, allowPrev, minBlocks, n);
            && (r.TooFewBlocks? <==> w.TooFew?)
            && (w.Heights? ==>
                  var replies := Fetched(fetch, w.lo, w.hi);
                  (r.Order? <==> Served(replies) && KeysKnown(replies) && exists order :: Explains(order, replies))
                  && (r.Order? ==> Explains(r.order, replies)))
  {
    var w := WindowOf(tip, epoch, allowPrev, minBlocks, n);
    if w.TooFew? { return TooFewBlocks; }
    r := LearnFrom(Fetched(fetch, w.lo, w.hi));
  }

  function Fetched(fetch: int -> Reply, lo: int, hi: int): seq<Reply>
    decreases hi - lo
  {
    if hi < lo then [] else [fetch(lo)] + Fetched(fetch, lo + 1, hi)
  }
}
