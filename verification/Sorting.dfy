/** A set of numbers in ascending order, each once. */
module Sorting {

  ghost predicate IsLeast(s: set<nat>, k: nat) { k in s && forall j :: j in s ==> k <= j }

  function Least(s: set<nat>): (k: nat)
    requires s != {}
    ensures IsLeast(s, k)
  {
    LeastExists(s);
    var k :| k in s && forall j :: j in s ==> k <= j;
    k
  }

  lemma LeastExists(s: set<nat>)
    requires s != {}
    ensures exists k :: IsLeast(s, k)
  {
    var x :| x in s;
    var k := LeastBelow(s, x);
  }

  lemma {:induction false} LeastBelow(s: set<nat>, x: nat) returns (k: nat)
    requires x in s
    ensures IsLeast(s, k)
    decreases x
  {
    if j :| j in s && j < x { k := LeastBelow(s, j); } else { k := x; }
  }

  function SortedKeys(s: set<nat>): seq<nat>
    decreases |s|
  {
    if s == {} then [] else [Least(s)] + SortedKeys(s - {Least(s)})
  }

  ghost predicate IsSorted(keys: seq<nat>, s: set<nat>) {
    && (forall k :: k in keys <==> k in s)
    && (forall i, j :: 0 <= i < j < |keys| ==> keys[i] < keys[j])
    && |keys| == |s|
  }

  /** `sort_by` on the map's keys: every key once, in ascending order. */
  lemma {:induction false} SortedKeysExact(s: set<nat>)
    ensures IsSorted(SortedKeys(s), s)
    decreases |s|
  {
    if s != {} {
      var k := Least(s);
      SortedKeysExact(s - {k});
      var rest := SortedKeys(s - {k});
      assert SortedKeys(s) == [k] + rest;
      hide SortedKeys;
      LeastFirst(s, k, rest);
    }
  }

  lemma LeastFirst(s: set<nat>, k: nat, rest: seq<nat>)
    requires IsLeast(s, k) && IsSorted(rest, s - {k})
    ensures IsSorted([k] + rest, s)
  {
    var keys := [k] + rest;
    forall x ensures x in keys <==> x in s {
      assert x in keys <==> x == k || x in rest;
    }
    forall i, j | 0 <= i < j < |keys| ensures keys[i] < keys[j] {
      assert keys[j] == rest[j - 1] && rest[j - 1] in rest;
      if i > 0 { assert keys[i] == rest[i - 1]; }
    }
  }

  /** Sorting has one result, whatever order the map is iterated in. */
  lemma {:induction false} SortedUnique(a: seq<nat>, b: seq<nat>, s: set<nat>)
    requires IsSorted(a, s) && IsSorted(b, s)
    ensures a == b
    decreases |a|
  {
    if a != [] {
      assert a[0] in b && b[0] in a;
      assert a[0] == b[0];
      assert a == [a[0]] + a[1..] && b == [b[0]] + b[1..];
      TailSorted(a, s);
      TailSorted(b, s);
      SortedUnique(a[1..], b[1..], s - {a[0]});
    }
  }

  lemma TailSorted(a: seq<nat>, s: set<nat>)
    requires IsSorted(a, s) && a != []
    ensures a[0] in s && IsSorted(a[1..], s - {a[0]})
  {
    assert a[0] in s;
    forall k ensures k in a[1..] <==> k in s - {a[0]} {
      if k in a[1..] {
        var i :| 0 <= i < |a| - 1 && a[1..][i] == k;
        assert a[i + 1] == k;
      }
      if k in s - {a[0]} {
        var i :| 0 <= i < |a| && a[i] == k;
        assert a[1..][i - 1] == k;
      }
    }
  }
}
