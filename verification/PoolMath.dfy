/** Integer AMM mathematics (crates/core/src/pool.rs), u64 amounts with u128 intermediates. */
module PoolMath {
  import opened Arithmetic
  import opened Wrappers

  type Amount = v: int | 0 <= v < TWO64

  /** A u64 sum in a release build. */
  function Wrap(v: nat): Amount { v % TWO64 }

  const FEE_SCALE := 10000

  // The fee lies in 0..=10000: beyond that the source's subtraction underflows.
  type FeeBps = v: int | 0 <= v <= FEE_SCALE

  function Effective(dx: Amount, fee: FeeBps): nat { Quot(dx * (FEE_SCALE - fee), FEE_SCALE) }

  lemma EffectiveAtMost(dx: Amount, fee: FeeBps)
    ensures Effective(dx, fee) <= dx
  {
    FloorDiv(dx * (FEE_SCALE - fee), FEE_SCALE);
    MulMonotone(FEE_SCALE - fee, FEE_SCALE, dx);
  }

  /** What is left of an amount after a fee in ten-thousandths, rounded down. */
  predicate AfterFee(dx: Amount, fee: FeeBps, e: nat) { e * 10000 <= dx * (10000 - fee) < (e + 1) * 10000 }

  lemma EffectiveExact(dx: Amount, fee: FeeBps, e: nat)
    ensures AfterFee(dx, fee, e) <==> e == Effective(dx, fee)
  {
    FloorIsGreatest(dx * (FEE_SCALE - fee), FEE_SCALE, e);
    FloorIsGreatest(dx * (FEE_SCALE - fee), FEE_SCALE, e + 1);
  }

  /** (amount out, new reserve in, new reserve out). */
  function ComputeSwap(ra: Amount, rb: Amount, dx: Amount, fee: FeeBps): Option<(Amount, Amount, Amount)> {
    if dx == 0 || ra == 0 || rb == 0 then None
    else
      var e := Effective(dx, fee);
      if e == 0 then None
      else
        OutputBelowReserve(ra, rb, e);
        var dy := Quot(rb * e, ra + e);
        if dy == 0 || dy >= rb then None
        else if ra + dx >= TWO64 then None
        else Some((dy, ra + dx, rb - dy))
  }

  lemma OutputBelowReserve(ra: Amount, rb: Amount, e: nat)
    requires ra > 0 && rb > 0
    ensures Quot(rb * e, ra + e) < rb
  {
    assert rb * (ra + e) == rb * ra + rb * e;
    assert rb * ra > 0;
    FloorIsGreatest(rb * e, ra + e, rb);
  }

  /** The output is the greatest that keeps the product of the reserves, the input counted after its fee. */
  lemma SwapOutputGreatest(ra: Amount, rb: Amount, dx: Amount, fee: FeeBps, e: nat, y: nat)
    requires ComputeSwap(ra, rb, dx, fee).Some? && AfterFee(dx, fee, e) && y <= rb
    ensures (ra + e) * (rb - y) >= ra * rb <==> y <= ComputeSwap(ra, rb, dx, fee).value.0
  {
    EffectiveExact(dx, fee, e);
    FloorIsGreatest(rb * e, ra + e, y);
    assert (ra + e) * (rb - y) == ra * rb + rb * e - y * (ra + e);
  }

  /** dy is the greatest output that keeps the product, the input counted after its fee. */
  predicate Pays(ra: nat, rb: nat, e: nat, dy: nat) {
    dy < rb && (ra + e) * (rb - (dy + 1)) < ra * rb <= (ra + e) * (rb - dy)
  }

  /** The swap, exactly: when there is one, what it pays and what the reserves become. */
  lemma SwapExact(ra: Amount, rb: Amount, dx: Amount, fee: FeeBps, e: nat, dy: Amount)
    requires AfterFee(dx, fee, e)
    ensures (exists a, b :: ComputeSwap(ra, rb, dx, fee) == Some((dy, a, b)))
            <==> ra > 0 && e > 0 && dy > 0 && ra + dx < TWO64 && Pays(ra, rb, e, dy)
    ensures ComputeSwap(ra, rb, dx, fee).Some? ==>
              ComputeSwap(ra, rb, dx, fee).value == (ComputeSwap(ra, rb, dx, fee).value.0, ra + dx,
                                                     rb - ComputeSwap(ra, rb, dx, fee).value.0)
  {
    EffectiveExact(dx, fee, e);
    if ra > 0 && rb > 0 && e > 0 {
      OutputBelowReserve(ra, rb, e);
      PaysExact(ra, rb, e, dy);
      hide Pays, Quot;
      if dy == Quot(rb * e, ra + e) && 0 < dy && ra + dx < TWO64 {
        assert ComputeSwap(ra, rb, dx, fee) == Some((dy, ra + dx, rb - dy));
      }
    }
  }

  lemma PaysExact(ra: nat, rb: nat, e: nat, dy: nat)
    requires ra > 0 && rb > 0 && e > 0
    ensures Pays(ra, rb, e, dy) <==> dy < rb && dy == Quot(rb * e, ra + e)
  {
    FloorIsGreatest(rb * e, ra + e, dy);
    FloorIsGreatest(rb * e, ra + e, dy + 1);
    assert (ra + e) * (rb - dy) == ra * rb + rb * e - dy * (ra + e);
    assert (ra + e) * (rb - (dy + 1)) == ra * rb + rb * e - (dy + 1) * (ra + e);
  }

  /** A swap never lowers the product of the reserves. */
  lemma SwapKeepsProduct(ra: Amount, rb: Amount, dx: Amount, fee: FeeBps)
    requires ComputeSwap(ra, rb, dx, fee).Some?
    ensures var (dy, a, b) := ComputeSwap(ra, rb, dx, fee).value;
            a * b >= ra * rb && a == ra + dx && b == rb - dy && 0 < dy < rb
  {
    var (dy, a, b) := ComputeSwap(ra, rb, dx, fee).value;
    EffectiveExact(dx, fee, Effective(dx, fee));
    SwapOutputGreatest(ra, rb, dx, fee, Effective(dx, fee), dy);
    EffectiveAtMost(dx, fee);
    MulMonotone(ra + Effective(dx, fee), ra + dx, rb - dy);
  }

  /** Swapping and swapping the proceeds straight back never returns more than went in. */
  lemma RoundTripNoProfit(ra: Amount, rb: Amount, dx: Amount, fee: FeeBps)
    requires ComputeSwap(ra, rb, dx, fee).Some?
    ensures var (dy, a, b) := ComputeSwap(ra, rb, dx, fee).value;
            var back := ComputeSwap(b, a, dy, fee);
            back.Some? ==> back.value.0 <= dx && back.value.1 == rb
  {
    hide ComputeSwap;
    SwapKeepsProduct(ra, rb, dx, fee);
    var (dy, a, b) := ComputeSwap(ra, rb, dx, fee).value;
    var back := ComputeSwap(b, a, dy, fee);
    if back.Some? {
      SwapKeepsProduct(b, a, dy, fee);
      DivideOut(ra, back.value.2, rb);
    }
  }

  // ----- integer square root -----

  ghost predicate IsRoot(r: nat, n: nat) { r * r <= n < (r + 1) * (r + 1) }

  lemma RootUnique(r: nat, s: nat, n: nat)
    requires IsRoot(r, n) && IsRoot(s, n)
    ensures r == s
  {
    if r < s { MulMonotone(r + 1, s, r + 1); MulMonotone(r + 1, s, s); }
    if s < r { MulMonotone(s + 1, r, s + 1); MulMonotone(s + 1, r, r); }
  }

  lemma SquareMonotone(a: nat, b: nat)
    requires a <= b
    ensures a * a <= b * b
  {
  }

  lemma SquareOfDouble(a: int)
    ensures (2 * a) * (2 * a) == 4 * (a * a)
  {
  }

  lemma SquareOfSum(a: int, b: int)
    ensures (a + b) * (a + b) >= 4 * (a * b)
  {
    assert (a + b) * (a + b) - 4 * (a * b) == (a - b) * (a - b);
  }

  /** Newton's step from above never falls below the root. */
  lemma NewtonAbove(n: nat, x: nat)
    requires x > 0
    ensures var y := (x + Quot(n, x)) / 2; n < (y + 1) * (y + 1)
  {
    FloorDiv(n, x);
    hide Quot;
    HalfSumSquared(n, x, Quot(n, x));
  }

  lemma HalfSumSquared(n: nat, x: nat, q: nat)
    requires n < (q + 1) * x
    ensures var y := (x + q) / 2; n < (y + 1) * (y + 1)
  {
    var y := (x + q) / 2;
    var s, t, p := (x + (q + 1)) * (x + (q + 1)), (y + 1) * (y + 1), x * (q + 1);
    SquareOfSum(x, q + 1);
    SquareMonotone(x + q + 1, 2 * (y + 1));
    SquareOfDouble(y + 1);
    assert n < p by { Commutes(x, q + 1); }
    assert 4 * p <= s <= 4 * t;
  }

  lemma Commutes(a: int, b: int)
    ensures a * b == b * a
  {
  }

  method Isqrt(n: nat) returns (x: nat)
    ensures IsRoot(x, n)
    ensures x * x <= n < (x + 1) * (x + 1)
  {
    if n == 0 { return 0; }
    x := n;
    var y := (x + 1) / 2;
    SelfQuotient(n);
    hide Quot;
    while y < x
      invariant 0 < x && y == (x + Quot(n, x)) / 2 && n < (x + 1) * (x + 1)
      decreases x
    {
      NewtonAbove(n, x);
      NonZeroStep(n, y);
      x := y;
      y := (x + Quot(n, x)) / 2;
    }
    FloorDiv(n, x);
    MulMonotone(x, Quot(n, x), x);
  }

  lemma SelfQuotient(n: nat)
    requires n > 0
    ensures Quot(n, n) == 1 && n < (n + 1) * (n + 1)
  {
  }

  lemma NonZeroStep(n: nat, y: nat)
    requires n > 0 && n < (y + 1) * (y + 1)
    ensures y > 0
  {
  }

  /** The square root as a value. */
  function Root(n: nat): (r: nat)
    ensures IsRoot(r, n)
  {
    RootFrom(n, 0)
  }

  function RootFrom(n: nat, r: nat): (s: nat)
    requires r * r <= n
    ensures IsRoot(s, n)
    decreases n - r * r
  {
    if n < (r + 1) * (r + 1) then r else RootFrom(n, r + 1)
  }

  // ----- liquidity -----

  method ComputeInitialLpShares(a: Amount, b: Amount) returns (r: Amount)
    ensures r == InitialShares(a, b)
    ensures r * r <= a * b < (r + 1) * (r + 1)
  {
    InitialFits(a, b);
    var x := Isqrt(a * b);
    RootUnique(x, Root(a * b), a * b);
    return x;
  }

  function InitialShares(a: Amount, b: Amount): Amount {
    InitialFits(a, b);
    Root(a * b)
  }

  lemma InitialExact(a: Amount, b: Amount, r: nat)
    ensures r == InitialShares(a, b) <==> r * r <= a * b < (r + 1) * (r + 1)
  {
    if IsRoot(r, a * b) { RootUnique(r, Root(a * b), a * b); }
  }

  lemma InitialFits(a: Amount, b: Amount)
    ensures Root(a * b) < TWO64
  {
    var r := Root(a * b);
    if r >= TWO64 {
      MulMonotone(TWO64, r, TWO64);
      MulMonotone(TWO64, r, r);
      MulMonotone(a, TWO64 - 1, b);
    }
  }

  /** Shares minted; the cast to u64 drops high bits. */
  function LpShares(da: Amount, db: Amount, ra: Amount, rb: Amount, total: Amount): Option<Amount> {
    if ra == 0 || rb == 0 || total == 0 then None
    else
      var sa := Quot(da * total, ra);
      var sb := Quot(db * total, rb);
      var shares := Wrap(Min(sa, sb));
      if shares == 0 then None else Some(shares)
  }

  lemma WrapAtMost(v: nat)
    ensures Wrap(v) <= v
  {
  }

  /** What a deposit mints never outweighs it on either side of the pool. */
  lemma MintFair(da: Amount, db: Amount, ra: Amount, rb: Amount, total: Amount)
    requires LpShares(da, db, ra, rb, total).Some?
    ensures var m := LpShares(da, db, ra, rb, total).value; m * ra <= da * total && m * rb <= db * total
  {
    var sa := Quot(da * total, ra);
    var sb := Quot(db * total, rb);
    var m := LpShares(da, db, ra, rb, total).value;
    WrapAtMost(Min(sa, sb));
    FloorIsGreatest(da * total, ra, m);
    FloorIsGreatest(db * total, rb, m);
  }

  /** v is the greatest number of shares the deposit is worth on both sides. */
  predicate Worthy(da: nat, db: nat, ra: nat, rb: nat, total: nat, v: nat) {
    && v * ra <= da * total && v * rb <= db * total
    && !((v + 1) * ra <= da * total && (v + 1) * rb <= db * total)
  }

  /** A deposit mints exactly those shares, less what lies above 64 bits, and nothing when that is none. */
  lemma MintExact(da: Amount, db: Amount, ra: Amount, rb: Amount, total: Amount, m: Amount)
    ensures LpShares(da, db, ra, rb, total) == Some(m)
            <==> ra > 0 && rb > 0 && total > 0 && m > 0
                 && exists v: nat :: Worthy(da, db, ra, rb, total, v) && m == v % TWO64
  {
    if ra > 0 && rb > 0 {
      var worth := Min(Quot(da * total, ra), Quot(db * total, rb));
      WorthyExact(da, db, ra, rb, total, worth);
      forall v: nat ensures Worthy(da, db, ra, rb, total, v) ==> v == worth {
        WorthyExact(da, db, ra, rb, total, v);
      }
      hide Worthy, Quot;
    }
  }

  lemma WorthyExact(da: Amount, db: Amount, ra: Amount, rb: Amount, total: Amount, v: nat)
    requires ra > 0 && rb > 0
    ensures Worthy(da, db, ra, rb, total, v) <==> v == Min(Quot(da * total, ra), Quot(db * total, rb))
  {
    FloorIsGreatest(da * total, ra, v);
    FloorIsGreatest(db * total, rb, v);
    FloorIsGreatest(da * total, ra, v + 1);
    FloorIsGreatest(db * total, rb, v + 1);
  }

  function ProRata(shares: Amount, reserve: Amount, total: Amount): nat
    requires 0 < total && shares <= total
  {
    Quot(Times(shares, reserve), total)
  }

  lemma ProRataExact(shares: Amount, reserve: Amount, total: Amount, y: nat)
    requires 0 < total && shares <= total
    ensures ProRata(shares, reserve, total) <= reserve
    ensures y * total <= shares * reserve <==> y <= ProRata(shares, reserve, total)
  {
    FloorIsGreatest(shares * reserve, total, y);
    FloorIsGreatest(shares * reserve, total, reserve + 1);
    MulMonotone(shares, total, reserve);
    assert (reserve + 1) * total == reserve * total + total;
  }

  function RemoveAmounts(shares: Amount, ra: Amount, rb: Amount, total: Amount): (r: Option<(Amount, Amount)>)
    ensures r.Some? ==> 0 < shares <= total && r.value.0 <= ra && r.value.1 <= rb
  {
    if total == 0 || shares == 0 || shares > total then None
    else
      ProRataExact(shares, ra, total, 0);
      ProRataExact(shares, rb, total, 0);
      Some((ProRata(shares, ra, total), ProRata(shares, rb, total)))
  }

  /** x is the greatest amount within the shares' part of the reserve. */
  predicate PartOf(x: nat, shares: nat, reserve: nat, total: nat) {
    x * total <= shares * reserve < (x + 1) * total
  }

  /** A burn pays exactly its part of each reserve, and is refused for no shares or more than there are. */
  lemma BurnExact(s: Amount, ra: Amount, rb: Amount, total: Amount, x: Amount, y: Amount)
    ensures RemoveAmounts(s, ra, rb, total) == Some((x, y))
            <==> 0 < s <= total && PartOf(x, s, ra, total) && PartOf(y, s, rb, total)
    ensures RemoveAmounts(s, ra, rb, total) == None <==> !(0 < s <= total)
  {
    if 0 < s <= total {
      PartExact(s, ra, total, x);
      PartExact(s, rb, total, y);
      hide ProRata, PartOf;
    }
  }

  lemma PartExact(shares: Amount, reserve: Amount, total: Amount, x: nat)
    requires 0 < total && shares <= total
    ensures PartOf(x, shares, reserve, total) <==> x == ProRata(shares, reserve, total)
  {
    FloorIsGreatest(shares * reserve, total, x);
    FloorIsGreatest(shares * reserve, total, x + 1);
  }

  /** What a burn pays out never outweighs the shares on either side of the pool. */
  lemma BurnFair(s: Amount, ra: Amount, rb: Amount, total: Amount)
    requires RemoveAmounts(s, ra, rb, total).Some?
    ensures var (da, db) := RemoveAmounts(s, ra, rb, total).value;
            da <= ra && db <= rb && da * total <= s * ra && db * total <= s * rb
  {
    ProRataExact(s, ra, total, ProRata(s, ra, total));
    ProRataExact(s, rb, total, ProRata(s, rb, total));
  }

  // ----- what one share is worth -----

  /** Per share, the later pool holds at least the product of the earlier one. */
  predicate NotDiluted(ra: nat, rb: nat, t: nat, ra': nat, rb': nat, t': nat) {
    (ra * rb) * (t' * t') <= (ra' * rb') * (t * t)
  }

  lemma SidesGiveProduct(ra: nat, rb: nat, t: nat, ra': nat, rb': nat, t': nat)
    requires ra * t' <= ra' * t && rb * t' <= rb' * t
    ensures NotDiluted(ra, rb, t, ra', rb', t')
  {
    MulMonotone(ra * t', ra' * t, rb * t');
    MulMonotone(rb * t', rb' * t, ra' * t);
    assert (ra * t') * (rb * t') == (ra * rb) * (t' * t');
    assert (ra' * t) * (rb' * t) == (ra' * rb') * (t * t);
  }

  lemma MintNotDiluting(da: Amount, db: Amount, ra: Amount, rb: Amount, total: Amount)
    requires LpShares(da, db, ra, rb, total).Some?
    ensures NotDiluted(ra, rb, total, ra + da, rb + db, total + LpShares(da, db, ra, rb, total).value)
  {
    var m := LpShares(da, db, ra, rb, total).value;
    MintFair(da, db, ra, rb, total);
    assert ra * (total + m) == ra * total + m * ra && (ra + da) * total == ra * total + da * total;
    assert rb * (total + m) == rb * total + m * rb && (rb + db) * total == rb * total + db * total;
    SidesGiveProduct(ra, rb, total, ra + da, rb + db, total + m);
  }

  lemma BurnNotDiluting(s: Amount, ra: Amount, rb: Amount, total: Amount, da: nat, db: nat)
    requires s <= total && da <= ra && db <= rb && da * total <= s * ra && db * total <= s * rb
    ensures NotDiluted(ra, rb, total, ra - da, rb - db, total - s)
  {
    assert ra * (total - s) == ra * total - s * ra && (ra - da) * total == ra * total - da * total;
    assert rb * (total - s) == rb * total - s * rb && (rb - db) * total == rb * total - db * total;
    SidesGiveProduct(ra, rb, total, ra - da, rb - db, total - s);
  }

  lemma SwapNotDiluting(ra: nat, rb: nat, t: nat, ra': nat, rb': nat)
    requires ra * rb <= ra' * rb'
    ensures NotDiluted(ra, rb, t, ra', rb', t)
  {
    MulMonotone(ra * rb, ra' * rb', t * t);
  }

  lemma NotDilutedTransitive(a0: nat, b0: nat, t0: nat, a1: nat, b1: nat, t1: nat, a2: nat, b2: nat, t2: nat)
    requires t1 > 0
    requires NotDiluted(a0, b0, t0, a1, b1, t1) && NotDiluted(a1, b1, t1, a2, b2, t2)
    ensures NotDiluted(a0, b0, t0, a2, b2, t2)
  {
    Chain(a0 * b0, t0 * t0, a1 * b1, t1 * t1, a2 * b2, t2 * t2);
  }

  lemma Chain(k0: nat, s0: nat, k1: nat, s1: nat, k2: nat, s2: nat)
    requires s1 > 0
    requires k0 * s1 <= k1 * s0 && k1 * s2 <= k2 * s1
    ensures k0 * s2 <= k2 * s0
  {
    MulMonotone(k0 * s1, k1 * s0, s2);
    MulMonotone(k1 * s2, k2 * s1, s0);
    assert (k0 * s1) * s2 == (k0 * s2) * s1;
    assert (k1 * s0) * s2 == (k1 * s2) * s0;
    assert (k2 * s1) * s0 == (k2 * s0) * s1;
    DivideOut(k0 * s2, k2 * s0, s1);
  }
}
