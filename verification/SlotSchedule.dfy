/**
 * Leaders by slot (scripts/gauntlet-gs033/plan.py): slot s belongs to entry s % len of a list, so a
 * search for the next slot with a wanted leader ends within one turn of the list.
 */
module SlotSchedule {
  import opened Arithmetic

  type Node = int

  predicate Meets(list: seq<Node>, good: Node -> bool) {
    exists i :: 0 <= i < |list| && good(list[i])
  }

  function Lead(list: seq<Node>, s: int): Node
    requires list != []
  {
    list[s % |list|]
  }

  /** Entry i leads slot i and every slot a whole number of turns away. */
  lemma LeadExact(list: seq<Node>, i: nat, turns: int)
    requires i < |list|
    ensures Lead(list, i + turns * |list|) == list[i]
  {
    ModUnique(i + turns * |list|, |list|, turns, i);
  }

  function FirstGood(list: seq<Node>, good: Node -> bool): (i: nat)
    requires Meets(list, good)
    ensures i < |list| && good(list[i])
  {
    if good(list[0]) then 0
    else
      assert Meets(list[1..], good) by {
        var i :| 0 <= i < |list| && good(list[i]);
        assert list[1..][i - 1] == list[i];
      }
      1 + FirstGood(list[1..], good)
  }

  /** Slots from s to the next turn of list entry w. */
  function Wait(w: nat, s: int, n: int): nat
    requires n > 0
  {
    (w - s) % n
  }

  lemma WaitStep(w: nat, s: int, n: int)
    requires 0 <= w < n
    ensures Wait(w, s, n) < n
    ensures Wait(w, s, n) == 0 <==> s % n == w
    ensures Wait(w, s, n) > 0 ==> Wait(w, s + 1, n) == Wait(w, s, n) - 1
  {
    var q, r := (w - s) / n, (w - s) % n;
    assert w - s == q * n + r;
    if r > 0 { ModUnique(w - (s + 1), n, q, r - 1); }
    if r == 0 {
      assert s == (-q) * n + w;
      ModUnique(s, n, -q, w);
    }
    if s % n == w {
      assert w - s == (-(s / n)) * n + 0 by { assert s == (s / n) * n + w; }
      ModUnique(w - s, n, -(s / n), 0);
    }
  }

  /** The first slot from s on whose leader is wanted; never a full turn away. */
  function NextSlot(list: seq<Node>, good: Node -> bool, s: int): (t: int)
    requires Meets(list, good)
    ensures s <= t <= s + Wait(FirstGood(list, good), s, |list|) < s + |list|
    ensures good(Lead(list, t))
    ensures forall u :: s <= u < t ==> !good(Lead(list, u))
    decreases Wait(FirstGood(list, good), s, |list|)
  {
    WaitStep(FirstGood(list, good), s, |list|);
    if good(Lead(list, s)) then s else NextSlot(list, good, s + 1)
  }

  /** `while not good: s += 1`. */
  method FindSlot(list: seq<Node>, good: Node -> bool, s: int) returns (t: int)
    requires Meets(list, good)
    ensures t == NextSlot(list, good, s)
  {
    t := s;
    while !good(list[t % |list|])
      invariant NextSlot(list, good, s) == NextSlot(list, good, t)
      decreases NextSlot(list, good, t) - t
    {
      t := t + 1;
    }
  }
}
