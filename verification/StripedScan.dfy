/** The striped block-history scan (scripts/gauntlet-gs024-scan.py:24-129). */
module StripedScan {
  import opened Sorting
  import Arithmetic
  import opened Wrappers

  const ERROR_RUN_LIMIT := 20

  /** `block_hash`: None, the empty string, or a hash. */
  datatype Answer = NoAnswer | NotFound | Hash(id: int)

  /** Each height is asked at most once of each node, so a node's behaviour is a function of the height. */
  type Oracle = nat -> Answer

  datatype Verifier = NoCompare | Compare(node: Oracle)

  datatype Kind = Present | Missing | Mismatched | Unknown

  datatype Lists = Lists(missing: seq<nat>, mismatched: seq<nat>, errors: seq<nat>)

  /** What the two nodes' answers at a height amount to. */
  function Verdict(p: Oracle, v: Verifier, h: nat): Kind {
    match p(h)
    case NoAnswer => Unknown
    case NotFound => Missing
    case Hash(id) =>
      if v.NoCompare? || v.node(h) == Hash(id) then Present
      else if v.node(h).NoAnswer? then Unknown
      else Mismatched
  }

  /**
   * Missing where the node has no block; mismatched where the verifier answers something else; unknown where either
   * does not answer; present otherwise.
   */
  lemma VerdictExact(p: Oracle, v: Verifier, h: nat)
    ensures Verdict(p, v, h) == Missing <==> p(h) == NotFound
    ensures Verdict(p, v, h) == Mismatched
            <==> p(h).Hash? && v.Compare? && v.node(h) != NoAnswer && v.node(h) != p(h)
    ensures Verdict(p, v, h) == Unknown
            <==> p(h) == NoAnswer || (p(h).Hash? && v.Compare? && v.node(h) == NoAnswer)
    ensures Verdict(p, v, h) == Present <==> p(h).Hash? && (v.Compare? ==> v.node(h) == p(h))
  {
  }

  // ----- one thread's slice -----

  /** The slice's lists, `run` heights in a row having gone unanswered before it. */
  function Scan(p: Oracle, v: Verifier, hs: seq<nat>, run: nat): Lists
    decreases |hs|
  {
    if hs == [] then Lists([], [], [])
    else if run >= ERROR_RUN_LIMIT then Lists([], [], hs)
    else
      Append(One(Verdict(p, v, hs[0]), hs[0]), Scan(p, v, hs[1..], NextRun(p, hs[0], run)))
  }

  function NextRun(p: Oracle, h: nat, run: nat): nat { if p(h).NoAnswer? then run + 1 else 0 }

  function Append(a: Lists, b: Lists): Lists {
    Lists(a.missing + b.missing, a.mismatched + b.mismatched, a.errors + b.errors)
  }

  function One(k: Kind, h: nat): Lists {
    match k
    case Present => Lists([], [], [])
    case Missing => Lists([h], [], [])
    case Mismatched => Lists([], [h], [])
    case Unknown => Lists([], [], [h])
  }

  /** One height moved from the rest of the slice to what is already listed. */
  lemma ScanStep(p: Oracle, v: Verifier, a: Lists, hs: seq<nat>, run: nat)
    requires hs != []
    ensures run >= ERROR_RUN_LIMIT ==> Append(a, Scan(p, v, hs, run)) == a.(errors := a.errors + hs)
    ensures run < ERROR_RUN_LIMIT ==>
              Append(a, Scan(p, v, hs, run))
              == Append(Append(a, One(Verdict(p, v, hs[0]), hs[0])), Scan(p, v, hs[1..], NextRun(p, hs[0], run)))
  {
    Associates(a, One(Verdict(p, v, hs[0]), hs[0]), Scan(p, v, hs[1..], NextRun(p, hs[0], run)));
    assert a.missing + [] == a.missing && a.mismatched + [] == a.mismatched;
  }

  lemma ScanEnd(p: Oracle, v: Verifier, run: nat)
    ensures Scan(p, v, [], run) == Lists([], [], [])
  {
  }

  lemma Associates(a: Lists, b: Lists, c: Lists)
    ensures Append(a, Append(b, c)) == Append(Append(a, b), c)
  {
    assert Append(a, Append(b, c)).missing == Append(Append(a, b), c).missing;
  }

  lemma AppendOne(a: Lists, h: nat)
    ensures Append(a, One(Present, h)) == a == Append(a, Lists([], [], [])) == Append(Lists([], [], []), a)
    ensures Append(a, One(Missing, h)) == a.(missing := a.missing + [h])
    ensures Append(a, One(Mismatched, h)) == a.(mismatched := a.mismatched + [h])
    ensures Append(a, One(Unknown, h)) == a.(errors := a.errors + [h])
  {
    assert a.missing + [] == a.missing && a.mismatched + [] == a.mismatched && a.errors + [] == a.errors;
  }

  /** `scan_slice`, up to the merge. */
  method ScanSlice(p: Oracle, v: Verifier, heights: seq<nat>) returns (r: Lists)
    ensures r == Scan(p, v, heights, 0)
  {
    var missing, mismatched, errors, run, i := [], [], [], 0, 0;
    AppendOne(Scan(p, v, heights, 0), 0);
    assert heights[0..] == heights;
    hide Scan, Append, One;
    while i < |heights|
      invariant 0 <= i <= |heights|
      invariant Append(Lists(missing, mismatched, errors), Scan(p, v, heights[i..], run)) == Scan(p, v, heights, 0)
    {
      ghost var rest := heights[i..];
      assert rest[0] == heights[i] && rest[1..] == heights[i + 1..];
      ghost var listed := Lists(missing, mismatched, errors);
      ScanStep(p, v, listed, rest, run);
      AppendOne(listed, heights[i]);
      if run >= ERROR_RUN_LIMIT {
        return Lists(missing, mismatched, errors + heights[i..]);
      }
      var h := heights[i];
      i := i + 1;
      var a := p(h);
      if a.NoAnswer? {
        errors := errors + [h];
        run := run + 1;
        continue;
      }
      run := 0;
      if a.NotFound? {
        missing := missing + [h];
        continue;
      }
      if v.Compare? {
        var b := v.node(h);
        if b.NoAnswer? { errors := errors + [h]; }
        else if b != a { mismatched := mismatched + [h]; }
      }
    }
    r := Lists(missing, mismatched, errors);
    AppendOne(r, 0);
    assert heights[i..] == [];
    ScanEnd(p, v, run);
  }

  /** The last 20 heights before position j went unanswered, `run` of them before the slice. */
  predicate SilentUpTo(p: Oracle, hs: seq<nat>, run: nat, j: nat)
    requires j <= |hs|
  {
    j + run >= ERROR_RUN_LIMIT && forall k :: 0 <= k < j && j - ERROR_RUN_LIMIT <= k ==> p(hs[k]).NoAnswer?
  }

  /** Position i comes after 20 unanswered heights in a row, so it is not asked. */
  predicate CutOff(p: Oracle, hs: seq<nat>, run: nat, i: nat)
    requires i < |hs|
  {
    exists j :: 0 <= j <= i && SilentUpTo(p, hs, run, j)
  }

  lemma SilentNext(p: Oracle, hs: seq<nat>, run: nat, j: nat)
    requires j < |hs| && run < ERROR_RUN_LIMIT
    ensures SilentUpTo(p, hs, run, j + 1) <==> SilentUpTo(p, hs[1..], NextRun(p, hs[0], run), j)
  {
    var rest := hs[1..];
    assert forall k :: 0 <= k < j ==> rest[k] == hs[k + 1];
    if SilentUpTo(p, hs, run, j + 1) {
      forall k | 0 <= k < j && j - ERROR_RUN_LIMIT <= k ensures p(rest[k]).NoAnswer? { assert p(hs[k + 1]).NoAnswer?; }
    }
    if SilentUpTo(p, rest, NextRun(p, hs[0], run), j) {
      forall k | 0 <= k < j + 1 && j + 1 - ERROR_RUN_LIMIT <= k ensures p(hs[k]).NoAnswer? {
        if k > 0 { assert p(rest[k - 1]).NoAnswer?; }
      }
    }
  }

  lemma CutOffNext(p: Oracle, hs: seq<nat>, run: nat, i: nat)
    requires i + 1 < |hs| && run < ERROR_RUN_LIMIT
    ensures CutOff(p, hs, run, i + 1) <==> CutOff(p, hs[1..], NextRun(p, hs[0], run), i)
  {
    if CutOff(p, hs, run, i + 1) {
      var j :| 0 <= j <= i + 1 && SilentUpTo(p, hs, run, j);
      SilentNext(p, hs, run, j - 1);
    }
    if CutOff(p, hs[1..], NextRun(p, hs[0], run), i) {
      var j :| 0 <= j <= i && SilentUpTo(p, hs[1..], NextRun(p, hs[0], run), j);
      SilentNext(p, hs, run, j);
    }
  }

  function Outcome(p: Oracle, v: Verifier, hs: seq<nat>, run: nat, i: nat): Kind
    requires i < |hs|
  {
    if CutOff(p, hs, run, i) then Unknown else Verdict(p, v, hs[i])
  }

  function Listed(l: Lists, k: Kind): seq<nat> {
    match k
    case Present => []
    case Missing => l.missing
    case Mismatched => l.mismatched
    case Unknown => l.errors
  }

  function Outcomes(p: Oracle, v: Verifier, hs: seq<nat>, run: nat): (ks: seq<Kind>)
    ensures |ks| == |hs| && forall i :: 0 <= i < |hs| ==> ks[i] == Outcome(p, v, hs, run, i)
  {
    seq(|hs|, i requires 0 <= i < |hs| => Outcome(p, v, hs, run, i))
  }

  /** xs holds exactly the heights with outcome k, each once. */
  ghost predicate ListExact(hs: seq<nat>, ks: seq<Kind>, k: Kind, xs: seq<nat>)
    requires |ks| == |hs|
  {
    && Distinct(xs)
    && (forall x :: x in xs ==> x in hs)
    && (forall i :: 0 <= i < |hs| ==> (hs[i] in xs <==> ks[i] == k))
  }

  lemma ConsExact(hs: seq<nat>, ks: seq<Kind>, k: Kind, rest: seq<nat>)
    requires |ks| == |hs| > 0 && Distinct(hs) && ListExact(hs[1..], ks[1..], k, rest)
    ensures ListExact(hs, ks, k, (if ks[0] == k then [hs[0]] else []) + rest)
  {
    var xs := (if ks[0] == k then [hs[0]] else []) + rest;
    assert hs[0] !in hs[1..];
    forall i | 0 <= i < |hs| ensures hs[i] in xs <==> ks[i] == k {
      if i > 0 { assert hs[i] == hs[1..][i - 1] && ks[i] == ks[1..][i - 1]; }
    }
    assert forall x :: x in hs[1..] ==> x in hs;
  }

  /** Every list of a slice is exact, the heights behind the cut-off counting as unanswered. */
  lemma {:induction false} ScanExact(p: Oracle, v: Verifier, hs: seq<nat>, run: nat, k: Kind)
    requires Distinct(hs) && !k.Present?
    ensures ListExact(hs, Outcomes(p, v, hs, run), k, Listed(Scan(p, v, hs, run), k))
    decreases |hs|
  {
    if hs != [] {
      if run >= ERROR_RUN_LIMIT {
        forall i | 0 <= i < |hs| ensures CutOff(p, hs, run, i) { assert SilentUpTo(p, hs, run, 0); }
      } else {
        hide Scan, Outcomes, ListExact;
        var next := NextRun(p, hs[0], run);
        TailDistinct(hs);
        ScanExact(p, v, hs[1..], next, k);
        OutcomesNext(p, v, hs, run);
        ConsExact(hs, Outcomes(p, v, hs, run), k, Listed(Scan(p, v, hs[1..], next), k));
        ScanList(p, v, hs, run, k);
      }
    }
  }

  lemma TailDistinct(hs: seq<nat>)
    requires hs != [] && Distinct(hs)
    ensures Distinct(hs[1..])
  {
  }

  lemma ScanList(p: Oracle, v: Verifier, hs: seq<nat>, run: nat, k: Kind)
    requires hs != [] && run < ERROR_RUN_LIMIT && !k.Present?
    ensures Listed(Scan(p, v, hs, run), k)
            == (if Verdict(p, v, hs[0]) == k then [hs[0]] else [])
               + Listed(Scan(p, v, hs[1..], NextRun(p, hs[0], run)), k)
  {
    hide Verdict;
    var rest := Listed(Scan(p, v, hs[1..], NextRun(p, hs[0], run)), k);
    assert [] + rest == rest;
  }

  lemma OutcomesNext(p: Oracle, v: Verifier, hs: seq<nat>, run: nat)
    requires hs != [] && run < ERROR_RUN_LIMIT
    ensures Outcomes(p, v, hs, run)[0] == Verdict(p, v, hs[0])
    ensures Outcomes(p, v, hs, run)[1..] == Outcomes(p, v, hs[1..], NextRun(p, hs[0], run))
  {
    forall i | 0 <= i < |hs| - 1
      ensures Outcome(p, v, hs, run, i + 1) == Outcome(p, v, hs[1..], NextRun(p, hs[0], run), i)
    {
      CutOffNext(p, hs, run, i);
    }
  }

  // ----- stripes -----

  /** `heights[i::n]`. */
  function Stripe(hs: seq<nat>, i: nat, n: nat): seq<nat>
    requires n > 0
    decreases |hs| - i
  {
    if i >= |hs| then [] else [hs[i]] + Stripe(hs, i + n, n)
  }

  /** The k-th place of stripe i. */
  function Place(i: nat, k: nat, n: nat): nat { i + k * n }

  lemma PlaceNext(i: nat, k: nat, n: nat)
    ensures Place(i, 0, n) == i && Place(i + n, k, n) == Place(i, k + 1, n) >= i + n
  {
  }

  lemma PlaceRises(i: nat, j: nat, k: nat, n: nat)
    requires n > 0 && j < k
    ensures Place(i, j, n) < Place(i, k, n)
  {
    Arithmetic.MulAtLeast(k - j, n);
    assert k * n == j * n + (k - j) * n;
  }

  lemma PlaceOf(x: nat, n: nat)
    requires n > 0
    ensures x % n < n && Place(x % n, x / n, n) == x
  {
  }

  lemma PlaceUnique(i: nat, k: nat, n: nat)
    requires i < n
    ensures Place(i, k, n) % n == i && Place(i, k, n) / n == k
  {
    Arithmetic.ModUnique(i + k * n, n, k, i);
  }

  /** The stripe holds the places i, i + n, i + 2n and so on, in order, as far as there are heights. */
  lemma {:induction false} StripeAt(hs: seq<nat>, i: nat, n: nat, k: nat)
    requires n > 0
    ensures k < |Stripe(hs, i, n)| <==> Place(i, k, n) < |hs|
    ensures k < |Stripe(hs, i, n)| ==> Stripe(hs, i, n)[k] == hs[Place(i, k, n)]
    decreases k
  {
    hide Place;
    if k == 0 {
      PlaceNext(i, 0, n);
    } else {
      PlaceNext(i, k - 1, n);
      if i < |hs| { StripeAt(hs, i + n, n, k - 1); }
    }
  }

  lemma StripeDistinct(hs: seq<nat>, i: nat, n: nat)
    requires n > 0 && Distinct(hs)
    ensures Distinct(Stripe(hs, i, n)) && forall h :: h in Stripe(hs, i, n) ==> h in hs
  {
    var s := Stripe(hs, i, n);
    hide Stripe, Place;
    forall j, k | 0 <= j < k < |s| ensures s[j] != s[k] {
      StripeAt(hs, i, n, j);
      StripeAt(hs, i, n, k);
      PlaceRises(i, j, k, n);
    }
    forall h | h in s ensures h in hs {
      var k :| 0 <= k < |s| && s[k] == h;
      StripeAt(hs, i, n, k);
    }
  }

  /** What becomes of the x-th height: its own stripe's outcome at its place there. */
  function Final(p: Oracle, v: Verifier, hs: seq<nat>, n: nat, x: nat): Kind
    requires n > 0 && x < |hs|
  {
    InStripe(hs, n, x);
    Outcome(p, v, Stripe(hs, x % n, n), 0, x / n)
  }

  /** Place x is its stripe's place x / n. */
  lemma InStripe(hs: seq<nat>, n: nat, x: nat)
    requires n > 0 && x < |hs|
    ensures x % n < n && x / n < |Stripe(hs, x % n, n)| && Stripe(hs, x % n, n)[x / n] == hs[x]
  {
    PlaceOf(x, n);
    StripeAt(hs, x % n, n, x / n);
    hide Place, Stripe;
  }

  /** A cut-off height is one behind 20 unanswered ones of its stripe; every other keeps its own verdict. */
  lemma FinalExact(p: Oracle, v: Verifier, hs: seq<nat>, n: nat, x: nat)
    requires n > 0 && x < |hs| && Distinct(hs)
    ensures Final(p, v, hs, n, x) in {Unknown, Verdict(p, v, hs[x])}
    ensures (forall h :: h in hs ==> Verdict(p, v, h).Present?) ==> Final(p, v, hs, n, x).Present?
  {
    InStripe(hs, n, x);
    StripeDistinct(hs, x % n, n);
    var s := Stripe(hs, x % n, n);
    hide Stripe;
    if CutOff(p, s, 0, x / n) { Silence(p, v, s, x / n); }
  }

  lemma Silence(p: Oracle, v: Verifier, s: seq<nat>, i: nat)
    requires i < |s| && CutOff(p, s, 0, i)
    ensures exists h :: h in s && Verdict(p, v, h).Unknown?
  {
    var j :| 0 <= j <= i && SilentUpTo(p, s, 0, j);
    assert p(s[j - 1]).NoAnswer? && s[j - 1] in s;
  }

  /** xs holds exactly the heights at these places, each once. */
  ghost predicate Holds(hs: seq<nat>, places: set<nat>, xs: seq<nat>) {
    && Distinct(xs)
    && (forall h :: h in xs ==> h in hs)
    && (forall x: nat :: x < |hs| ==> (hs[x] in xs <==> x in places))
  }

  lemma HoldsBoth(hs: seq<nat>, a: set<nat>, xs: seq<nat>, b: set<nat>, ys: seq<nat>)
    requires Distinct(hs) && a !! b && Holds(hs, a, xs) && Holds(hs, b, ys)
    ensures Holds(hs, a + b, xs + ys)
  {
    forall h | h in xs ensures h !in ys {
      var x: nat :| x < |hs| && hs[x] == h;
      assert x in a && x !in b;
    }
    var zs := xs + ys;
    forall i, j | 0 <= i < j < |zs| ensures zs[i] != zs[j] {
      if i < |xs| { assert zs[i] in xs; }
      if j >= |xs| { assert zs[j] in ys; }
    }
  }

  /** The places of the merged stripes' heights with final outcome k. */
  function Places(p: Oracle, v: Verifier, hs: seq<nat>, n: nat, merged: set<nat>, k: Kind): set<nat>
    requires n > 0
  {
    set x: nat | x < |hs| && x % n in merged && Final(p, v, hs, n, x) == k
  }

  /** One more stripe's list merged. */
  lemma MergeStripe(p: Oracle, v: Verifier, hs: seq<nat>, n: nat, merged: set<nat>, k: Kind, xs: seq<nat>, i: nat)
    requires Distinct(hs) && i < n && i !in merged && !k.Present?
    requires Holds(hs, Places(p, v, hs, n, merged, k), xs)
    ensures Holds(hs, Places(p, v, hs, n, merged + {i}, k), xs + Listed(Scan(p, v, Stripe(hs, i, n), 0), k))
  {
    hide Final, Outcomes, Scan, Holds, Stripe;
    StripeHolds(p, v, hs, n, i, k);
    var a, b := Places(p, v, hs, n, merged, k), Places(p, v, hs, n, {i}, k);
    HoldsBoth(hs, a, xs, b, Listed(Scan(p, v, Stripe(hs, i, n), 0), k));
    assert Places(p, v, hs, n, merged + {i}, k) == a + b;
  }

  lemma StripeHolds(p: Oracle, v: Verifier, hs: seq<nat>, n: nat, i: nat, k: Kind)
    requires Distinct(hs) && i < n && !k.Present?
    ensures Holds(hs, Places(p, v, hs, n, {i}, k), Listed(Scan(p, v, Stripe(hs, i, n), 0), k))
  {
    hide Final, Outcomes, Scan, Stripe;
    StripeDistinct(hs, i, n);
    ScanExact(p, v, Stripe(hs, i, n), 0, k);
    var ys := Listed(Scan(p, v, Stripe(hs, i, n), 0), k);
    forall x: nat | x < |hs| ensures hs[x] in ys <==> x in Places(p, v, hs, n, {i}, k) {
      OfStripe(p, v, hs, n, i, k, ys, x);
    }
    assert forall h :: h in ys ==> h in hs;
  }

  lemma OfStripe(p: Oracle, v: Verifier, hs: seq<nat>, n: nat, i: nat, k: Kind, ys: seq<nat>, x: nat)
    requires Distinct(hs) && i < n && x < |hs|
    requires ListExact(Stripe(hs, i, n), Outcomes(p, v, Stripe(hs, i, n), 0), k, ys)
    ensures hs[x] in ys <==> x % n == i && Final(p, v, hs, n, x) == k
  {
    var s := Stripe(hs, i, n);
    InStripe(hs, n, x);
    forall q: nat | q < |s| ensures s[q] == hs[x] ==> x % n == i && q == x / n { StripePlace(hs, n, i, q, x); }
    hide Stripe, Outcome;
    if x % n == i { assert s[x / n] == hs[x]; }
    if hs[x] in ys { assert hs[x] in s; }
  }

  lemma StripePlace(hs: seq<nat>, n: nat, i: nat, q: nat, x: nat)
    requires Distinct(hs) && i < n && q < |Stripe(hs, i, n)| && x < |hs|
    ensures Stripe(hs, i, n)[q] == hs[x] ==> x % n == i && x / n == q
  {
    StripeAt(hs, i, n, q);
    PlaceUnique(i, q, n);
    hide Stripe, Place;
  }

  // ----- the whole scan -----

  function Heights(lo: nat, hi: nat): (hs: seq<nat>)
    requires lo <= hi
    ensures |hs| == hi - lo + 1 && Distinct(hs) && forall x :: 0 <= x < |hs| ==> hs[x] == lo + x
    ensures forall h: nat :: h in hs <==> lo <= h <= hi
  {
    var hs := seq(hi - lo + 1, x requires 0 <= x < hi - lo + 1 => lo + x);
    assert forall h: nat :: lo <= h <= hi ==> h in hs by {
      forall h: nat | lo <= h <= hi ensures h in hs { assert hs[h - lo] == h; }
    }
    hs
  }

  predicate Usage(lo: int, hi: int, threads: int) { 1 <= lo <= hi && threads >= 1 }

  function Threads(lo: nat, hi: nat, threads: nat): (n: nat)
    requires Usage(lo, hi, threads)
    ensures 0 < n <= threads
  {
    if threads < hi - lo + 1 then threads else hi - lo + 1
  }

  function Indices(n: nat): (s: set<nat>)
    ensures forall i: nat :: i in s <==> i < n
  {
    if n == 0 then {} else Indices(n - 1) + {n - 1}
  }

  /** What becomes of a height of the whole scan. */
  function Fate(p: Oracle, v: Verifier, lo: nat, hi: nat, threads: nat, h: nat): Kind
    requires Usage(lo, hi, threads) && lo <= h <= hi
  {
    Final(p, v, Heights(lo, hi), Threads(lo, hi, threads), h - lo)
  }

  /** xs lists the heights with fate k, each once. */
  ghost predicate Reported(p: Oracle, v: Verifier, lo: nat, hi: nat, threads: nat, k: Kind, xs: seq<nat>)
    requires Usage(lo, hi, threads)
  {
    && Distinct(xs)
    && (forall h: nat :: h in xs <==> lo <= h <= hi && Fate(p, v, lo, hi, threads, h) == k)
  }

  ghost predicate AllReported(p: Oracle, v: Verifier, lo: nat, hi: nat, threads: nat, out: Lists)
    requires Usage(lo, hi, threads)
  {
    && Reported(p, v, lo, hi, threads, Missing, out.missing)
    && Reported(p, v, lo, hi, threads, Mismatched, out.mismatched)
    && Reported(p, v, lo, hi, threads, Unknown, out.errors)
  }

  ghost predicate Merged(p: Oracle, v: Verifier, hs: seq<nat>, n: nat, merged: set<nat>, out: Lists)
    requires n > 0
  {
    && Holds(hs, Places(p, v, hs, n, merged, Missing), out.missing)
    && Holds(hs, Places(p, v, hs, n, merged, Mismatched), out.mismatched)
    && Holds(hs, Places(p, v, hs, n, merged, Unknown), out.errors)
  }

  /** The threads' slices merged in whatever order they end. */
  method ScanAll(p: Oracle, v: Verifier, lo: nat, hi: nat, threads: nat) returns (out: Lists)
    requires Usage(lo, hi, threads)
    ensures AllReported(p, v, lo, hi, threads, out)
  {
    var hs, n := Heights(lo, hi), Threads(lo, hi, threads);
    out := Lists([], [], []);
    var running := Indices(n);
    ghost var merged: set<nat> := {};
    hide Final, Outcomes, Scan, Holds, Places, Stripe;
    NothingMerged(p, v, hs, n);
    while running != {}
      invariant running + merged == Indices(n)
      invariant running !! merged
      invariant Merged(p, v, hs, n, merged, out)
    {
      var i :| i in running;
      var r := ScanSlice(p, v, Stripe(hs, i, n));
      MergeStripe(p, v, hs, n, merged, Missing, out.missing, i);
      MergeStripe(p, v, hs, n, merged, Mismatched, out.mismatched, i);
      MergeStripe(p, v, hs, n, merged, Unknown, out.errors, i);
      out := Append(out, r);
      running := running - {i};
      merged := merged + {i};
    }
    assert merged == Indices(n);
    AllMerged(p, v, lo, hi, threads, merged, Missing, out.missing);
    AllMerged(p, v, lo, hi, threads, merged, Mismatched, out.mismatched);
    AllMerged(p, v, lo, hi, threads, merged, Unknown, out.errors);
  }

  lemma NothingMerged(p: Oracle, v: Verifier, hs: seq<nat>, n: nat)
    requires n > 0
    ensures Merged(p, v, hs, n, {}, Lists([], [], []))
  {
    hide Final;
  }

  lemma AllMerged(p: Oracle, v: Verifier, lo: nat, hi: nat, threads: nat, merged: set<nat>, k: Kind, xs: seq<nat>)
    requires Usage(lo, hi, threads) && forall i: nat :: i < Threads(lo, hi, threads) ==> i in merged
    requires Holds(Heights(lo, hi), Places(p, v, Heights(lo, hi), Threads(lo, hi, threads), merged, k), xs)
    ensures Reported(p, v, lo, hi, threads, k, xs)
  {
    hide Final, Heights, Threads;
    var hs, n := Heights(lo, hi), Threads(lo, hi, threads);
    forall h: nat ensures h in xs <==> lo <= h <= hi && Fate(p, v, lo, hi, threads, h) == k {
      if lo <= h <= hi {
        var x: nat := h - lo;
        assert hs[x] == h && x % n < n;
      }
    }
  }

  /**
   * The exit code: 2 on a usage error, 0 exactly when every height got a hash, the verifier's own where it
   * compares.
   */
  method Check(p: Oracle, v: Verifier, lo: int, hi: int, threads: int) returns (code: int, out: Lists)
    ensures code == 2 <==> !Usage(lo, hi, threads)
    ensures Usage(lo, hi, threads) ==> AllReported(p, v, lo, hi, threads, out)
    ensures Usage(lo, hi, threads) ==> (code == 0 <==> forall h :: lo <= h <= hi ==> Verdict(p, v, h).Present?)
    ensures code in {0, 1, 2} && (code == 2 <==> lo < 1 || hi < lo || threads < 1)
    ensures code == 0 ==> forall h :: lo <= h <= hi ==> p(h).Hash? && (v.Compare? ==> v.node(h) == p(h))
    ensures code == 1 ==> exists h :: lo <= h <= hi && !(p(h).Hash? && (v.Compare? ==> v.node(h) == p(h)))
  {
    if !Usage(lo, hi, threads) { return 2, Lists([], [], []); }
    out := ScanAll(p, v, lo, hi, threads);
    code := if out.missing == [] && out.mismatched == [] && out.errors == [] then 0 else 1;
    AllPresent(p, v, lo, hi, threads, out);
    forall h: nat { VerdictExact(p, v, h); }
  }

  lemma AllPresent(p: Oracle, v: Verifier, lo: nat, hi: nat, threads: nat, out: Lists)
    requires Usage(lo, hi, threads) && AllReported(p, v, lo, hi, threads, out)
    ensures out == Lists([], [], []) <==> forall h :: lo <= h <= hi ==> Verdict(p, v, h).Present?
  {
    forall h: nat | lo <= h <= hi
      ensures Fate(p, v, lo, hi, threads, h).Present? ==> Verdict(p, v, h).Present?
      ensures (forall y :: lo <= y <= hi ==> Verdict(p, v, y).Present?) ==> Fate(p, v, lo, hi, threads, h).Present?
    {
      FateExact(p, v, lo, hi, threads, h);
    }
    hide Fate, Verdict;
    if out == Lists([], [], []) {
      forall h | lo <= h <= hi ensures Verdict(p, v, h).Present? {
        assert h !in out.missing && h !in out.mismatched && h !in out.errors;
      }
    }
    var xs := out.missing + out.mismatched + out.errors;
    if xs != [] {
      var x := xs[0];
      assert x in out.missing || x in out.mismatched || x in out.errors;
      assert lo <= x <= hi && !Fate(p, v, lo, hi, threads, x).Present?;
    } else {
      assert out.missing == out.mismatched == out.errors == [];
    }
  }

  /** No height is hidden: one in no list got its hash, one reported missing or mismatched is. */
  lemma FateExact(p: Oracle, v: Verifier, lo: nat, hi: nat, threads: nat, h: nat)
    requires Usage(lo, hi, threads) && lo <= h <= hi
    ensures Fate(p, v, lo, hi, threads, h) in {Unknown, Verdict(p, v, h)}
    ensures (forall y :: lo <= y <= hi ==> Verdict(p, v, y).Present?) ==> Fate(p, v, lo, hi, threads, h).Present?
  {
    hide Final, Verdict;
    FinalExact(p, v, Heights(lo, hi), Threads(lo, hi, threads), h - lo);
  }

  /** Whatever order the threads end in, the reported heights are the same. */
  lemma OrderIrrelevant(p: Oracle, v: Verifier, lo: nat, hi: nat, threads: nat, k: Kind, xs: seq<nat>, ys: seq<nat>)
    requires Usage(lo, hi, threads) && Reported(p, v, lo, hi, threads, k, xs) && Reported(p, v, lo, hi, threads, k, ys)
    ensures multiset(xs) == multiset(ys)
  {
    hide Fate;
    forall h: nat ensures multiset(xs)[h] == multiset(ys)[h] {
      CountOnce(xs, h);
      CountOnce(ys, h);
    }
  }

  lemma {:induction false} CountOnce(xs: seq<nat>, h: nat)
    requires Distinct(xs)
    ensures multiset(xs)[h] == if h in xs then 1 else 0
  {
    if xs != [] {
      CountOnce(xs[1..], h);
      assert xs == [xs[0]] + xs[1..];
    }
  }

  // ----- ranges -----

  datatype Range = Range(lo: nat, hi: nat)

  predicate Covers(r: Range, h: nat) { r.lo <= h <= r.hi }

  predicate Covered(out: seq<Range>, h: nat) { exists i :: 0 <= i < |out| && Covers(out[i], h) }

  /** out lists the runs of s in order, no two touching. */
  ghost predicate Runs(s: set<nat>, out: seq<Range>) {
    && (forall i :: 0 <= i < |out| ==> out[i].lo <= out[i].hi)
    && (forall i, j :: 0 <= i < j < |out| ==> out[i].hi + 1 < out[j].lo)
    && (forall h: nat :: h in s <==> Covered(out, h))
  }

  function Members(xs: seq<nat>): set<nat> { set h | h in xs }

  function Beyond(s: set<nat>, r: Range): set<nat> { set h | h in s && !Covers(r, h) }

  /** `ranges`, before printing. */
  method Ranges(heights: seq<nat>) returns (out: seq<Range>)
    ensures Runs(Members(heights), out)
  {
    var all := Members(heights);
    SortedKeysExact(all);
    var keys := SortedKeys(all);
    out := [];
    hide Runs, SortedKeys, IsSorted, Members;
    NoHeights();
    for i := 0 to |keys|
      invariant Runs(Members(keys[..i]), out)
    {
      var h := keys[i];
      KeysUpTo(all, keys, i);
      AddHeight(Members(keys[..i]), out, h);
      if out != [] && out[|out| - 1].hi + 1 == h {
        out := out[|out| - 1 := Range(out[|out| - 1].lo, h)];
      } else {
        out := out + [Range(h, h)];
      }
    }
    AllKeys(all, keys);
  }

  lemma NoHeights()
    ensures Runs(Members([]), [])
  {
  }

  lemma AllKeys(all: set<nat>, keys: seq<nat>)
    requires IsSorted(keys, all)
    ensures keys[..|keys|] == keys && Members(keys) == all
  {
  }

  lemma KeysUpTo(all: set<nat>, keys: seq<nat>, i: nat)
    requires IsSorted(keys, all) && i < |keys|
    ensures Members(keys[..i + 1]) == Members(keys[..i]) + {keys[i]}
    ensures forall g :: g in Members(keys[..i]) ==> g < keys[i]
  {
    assert keys[..i + 1] == keys[..i] + [keys[i]];
  }

  function Extend(out: seq<Range>, h: nat): seq<Range> {
    if out != [] && out[|out| - 1].hi + 1 == h then out[|out| - 1 := Range(out[|out| - 1].lo, h)]
    else out + [Range(h, h)]
  }

  lemma AddHeight(s: set<nat>, out: seq<Range>, h: nat)
    requires Runs(s, out) && forall g :: g in s ==> g < h
    ensures Runs(s + {h}, Extend(out, h))
  {
    forall i | 0 <= i < |out| ensures out[i].hi < h { assert Covers(out[i], out[i].hi) && Covered(out, out[i].hi); }
    forall g: nat ensures g in s + {h} <==> Covered(Extend(out, h), g) {
      if g == h { assert Covers(Extend(out, h)[|Extend(out, h)| - 1], h); }
      if g != h { CoveredStays(out, h, g); }
    }
  }

  lemma CoveredStays(out: seq<Range>, h: nat, g: nat)
    requires g != h && forall i :: 0 <= i < |out| ==> out[i].lo <= out[i].hi < h
    ensures Covered(Extend(out, h), g) <==> Covered(out, g)
  {
    var next := Extend(out, h);
    if i :| 0 <= i < |out| && Covers(out[i], g) { assert Covers(next[i], g); }
    if i :| 0 <= i < |next| && Covers(next[i], g) { assert Covers(out[i], g); }
  }

  /** Every listed range is maximal: all of it in the set, neither neighbour. */
  lemma RunsMaximal(s: set<nat>, out: seq<Range>, i: nat)
    requires Runs(s, out) && i < |out|
    ensures forall h :: Covers(out[i], h) ==> h in s
    ensures out[i].hi + 1 !in s && (out[i].lo > 0 ==> out[i].lo - 1 !in s)
  {
    forall j | 0 <= j < |out|
      ensures !Covers(out[j], out[i].hi + 1) && (out[i].lo > 0 ==> !Covers(out[j], out[i].lo - 1))
    {
    }
  }

  /** A set has one list of runs. */
  lemma {:induction false} RunsUnique(s: set<nat>, a: seq<Range>, b: seq<Range>)
    requires Runs(s, a) && Runs(s, b)
    ensures a == b
    decreases |a|
  {
    NoRuns(s, a);
    NoRuns(s, b);
    if a != [] && b != [] {
      FirstRun(s, a, b);
      FirstRun(s, b, a);
      RunsTail(s, a);
      RunsTail(s, b);
      RunsUnique(Beyond(s, a[0]), a[1..], b[1..]);
      assert a == [a[0]] + a[1..] && b == [b[0]] + b[1..];
    }
  }

  lemma NoRuns(s: set<nat>, a: seq<Range>)
    requires Runs(s, a)
    ensures s == {} <==> a == []
  {
    if a != [] { assert Covers(a[0], a[0].lo) && Covered(a, a[0].lo); }
  }

  lemma FirstRun(s: set<nat>, a: seq<Range>, b: seq<Range>)
    requires Runs(s, a) && Runs(s, b) && a != [] && b != []
    ensures a[0].lo <= b[0].lo && (a[0].lo == b[0].lo ==> a[0].hi <= b[0].hi)
  {
    assert Covers(b[0], b[0].lo) && Covered(b, b[0].lo);
    var i :| 0 <= i < |a| && Covers(a[i], b[0].lo);
    RunsMaximal(s, a, 0);
    RunsMaximal(s, b, 0);
    var next := b[0].hi + 1;
    assert !Covers(a[0], next);
  }

  lemma RunsTail(s: set<nat>, a: seq<Range>)
    requires Runs(s, a) && a != []
    ensures Runs(Beyond(s, a[0]), a[1..])
  {
    var t, rest := Beyond(s, a[0]), a[1..];
    forall h: nat ensures h in t <==> Covered(rest, h) {
      if h in t {
        var i :| 0 <= i < |a| && Covers(a[i], h);
        assert Covers(rest[i - 1], h);
      }
      if i :| 0 <= i < |rest| && Covers(rest[i], h) { assert Covers(a[i + 1], h); }
    }
  }
}
