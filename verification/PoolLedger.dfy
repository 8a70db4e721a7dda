/**
 * Pool transactions against the consensus rules and over whole runs: the AMM conservation check
 * (crates/core/src/validation/amm.rs) accepts what the CLI builds, and shares, DOLI, tokens and the
 * worth of a share behave over any sequence of them.
 */
module PoolLedger {
  import opened PoolMath
  import opened PoolTx
  import opened Wrappers
  import opened Arithmetic

  // ----- the consensus check -----

  function UserTokens(os: seq<Output>, asset: Id): nat {
    if os == [] then 0
    else (if os[0].TokenOut? && os[0].asset == asset then os[0].tokens else 0) + UserTokens(os[1..], asset)
  }

  function SatSub(a: Amount, b: Amount): Amount { if a < b then 0 else a - b }

  predicate CheckSwap(p: Pool, q: Pool) { q.ra * q.rb >= p.ra * p.rb }

  predicate CheckRemove(p: Pool, q: Pool, os: seq<Output>) {
    && q.shares < p.shares && |os| > 0
    && UserTokens(os[1..], p.assetB) <= SatSub(p.rb, q.rb)
    && var most := RemoveAmounts(p.shares - q.shares, p.ra, p.rb, p.shares);
       most.Some? && SatSub(p.ra, q.ra) <= most.value.0 && SatSub(p.rb, q.rb) <= most.value.1
  }

  predicate CheckAdd(p: Pool, q: Pool) {
    && p.shares <= q.shares && p.ra <= q.ra && p.rb <= q.rb
    && var most := LpShares(q.ra - p.ra, q.rb - p.rb, p.ra, p.rb, p.shares);
       most.Some? && q.shares - p.shares <= most.value
  }

  // The three values the check takes of an output.
  function DoliValue(o: Output): nat { if o.NormalOut? then o.amount else if o.PoolOut? then o.pool.ra else 0 }

  function TokenValue(o: Output, asset: Id): nat {
    if o.TokenOut? && o.asset == asset then o.tokens else if o.PoolOut? then o.pool.rb else 0
  }

  function LpValue(o: Output, poolId: Id): nat { if o.LpOut? && o.poolId == poolId then o.share else 0 }

  /** The sums over a list, for the assets of pool p. */
  function Sums(os: seq<Output>, p: Pool): Value {
    if os == [] then Value(0, 0, 0)
    else
      var rest := Sums(os[1..], p);
      Value(DoliValue(os[0]) + rest.doli, TokenValue(os[0], p.assetB) + rest.token, LpValue(os[0], p.id) + rest.lp)
  }

  /** The node values outputs as the CLI's conservation does. */
  lemma {:induction false} SumsExact(os: seq<Output>, p: Pool)
    ensures Sums(os, p) == Total(os, p)
  {
    if os != [] { SumsExact(os[1..], p); }
  }

  /** `verify_amm_conservation`: the DOLI surplus when accepted, cast to 64 bits. */
  function VerifyAmm(kind: Kind, consumed: seq<Output>, os: seq<Output>): Option<Amount> {
    if consumed == [] || !consumed[0].PoolOut? || os == [] || !os[0].PoolOut? then None
    else
      var p, q := consumed[0].pool, os[0].pool;
      var i, o := Sums(consumed, p), Sums(os, p);
      if exists k :: 0 <= k < |os| && os[k].TokenOut? && os[k].asset != p.assetB then None
      else if i.doli < o.doli || i.token < o.token || q.shares + i.lp != p.shares + o.lp then None
      else if (kind == Swap && CheckSwap(p, q)) || (kind == RemoveLiquidity && CheckRemove(p, q, os))
              || (kind == AddLiquidity && CheckAdd(p, q))
      then Some(Wrap(i.doli - o.doli)) else None
  }

  predicate CheckKind(tx: Tx, p: Pool, q: Pool) {
    match tx.kind
    case Swap => CheckSwap(p, q)
    case RemoveLiquidity => CheckRemove(p, q, tx.outputs)
    case AddLiquidity => CheckAdd(p, q)
    case CreatePool => false
  }

  /** What goes in beyond the fee is not less than nothing, and shares are exact. */
  predicate Sufficient(x: Excess) { x.doli >= 0 && x.token >= 0 && x.share == 0 }

  /** Accepted exactly when its excess suffices and its kind's own check passes; the surplus then reads as the fee. */
  lemma MovesJudged(tx: Tx, p: Pool, q: Pool, fee: Amount, x: Excess)
    requires Moves(tx, p, q, fee, x)
    ensures VerifyAmm(tx.kind, OutputsOf(tx.inputs), tx.outputs)
            == if Sufficient(x) && CheckKind(tx, p, q) then Some(fee) else None
  {
    SumsExact(OutputsOf(tx.inputs), p);
    SumsExact(tx.outputs, p);
    hide Total, Sums, CheckSwap, CheckRemove, CheckAdd;
    if x.doli >= 0 { ModUnique(fee + x.doli * TWO64, TWO64, x.doli, fee); }
  }

  /** A conserving transaction that passes its kind's own check is accepted, with the fee as its whole surplus. */
  lemma ConservingAccepted(tx: Tx, p: Pool, q: Pool, fee: Amount)
    requires Conserves(tx, p, q, fee) && CheckKind(tx, p, q)
    ensures VerifyAmm(tx.kind, OutputsOf(tx.inputs), tx.outputs) == Some(fee)
  {
    hide VerifyAmm, Moves, CheckKind;
    MovesJudged(tx, p, q, fee, NOTHING_OVER);
  }

  lemma {:induction false} UserTokensCounted(os: seq<Output>, p: Pool)
    ensures UserTokens(os, p.assetB) <= Total(os, p).token
  {
    if os != [] { UserTokensCounted(os[1..], p); }
  }

  /** A withdrawal passes the pro-rata check, token outputs included. */
  lemma RemovePasses(tx: Tx, p: Pool, burn: Amount, x: Excess)
    requires BuiltWith(tx, p, RemoveAction(burn), x) && x.token == 0
    ensures CheckRemove(p, Next(p, RemoveAction(burn)).value, tx.outputs)
  {
    hide RemoveAmounts;
    UserTokensCounted(tx.outputs[1..], p);
    TotalCons(tx.outputs[0], tx.outputs[1..], p);
    assert tx.outputs == [tx.outputs[0]] + tx.outputs[1..];
  }

  lemma BuiltJudged(tx: Tx, p: Pool, a: Action, x: Excess)
    requires BuiltWith(tx, p, a, x) && (a.RemoveAction? ==> x.token == 0)
    ensures VerifyAmm(tx.kind, OutputsOf(tx.inputs), tx.outputs) == if Sufficient(x) then Some(FeeOf(a)) else None
  {
    match a {
      case SwapAction(a2b, dx) => SwapMoves(p, a2b, dx);
      case AddAction(d, t) =>
      case RemoveAction(s) => RemovePasses(tx, p, s, x);
    }
    hide VerifyAmm, Moves, RemoveAmounts, ComputeSwap, LpShares, CheckRemove, Sufficient;
    MovesJudged(tx, p, Next(p, a).value, FeeOf(a), x);
  }

  /** Every swap, add and remove built for its action on the current pool passes the consensus check. */
  lemma BuiltAccepted(tx: Tx, p: Pool, a: Action)
    requires BuiltFor(tx, p, a)
    ensures VerifyAmm(tx.kind, OutputsOf(tx.inputs), tx.outputs) == Some(FeeOf(a))
  {
    hide VerifyAmm, BuiltWith;
    BuiltJudged(tx, p, a, NOTHING_OVER);
  }

  /**
   * The consensus check accepts what the CLI writes on the current pool exactly when the coins picked leave
   * 64 bits at least as often as the needs (shares just as often) and a deposit's pool stays within them.
   */
  lemma WrittenJudged(tx: Tx, p: Pool, utxos: seq<Coin>, a: Action)
    requires Written(tx, p, utxos, a)
    ensures VerifyAmm(tx.kind, OutputsOf(tx.inputs), tx.outputs)
            == if Next(p, a).Some? && Sufficient(ExcessOf(p, utxos, a)) then Some(FeeOf(a)) else None
  {
    if Next(p, a).None? {
      OvergrownRefused(tx, p, a.doli, a.tokens);
    } else {
      hide VerifyAmm, BuiltWith, Over, Sufficient;
      BuiltJudged(tx, p, a, ExcessOf(p, utxos, a));
    }
  }

  /** A deposit whose pool leaves 64 bits lowers a reserve or the shares. */
  lemma OvergrownRefused(tx: Tx, p: Pool, d: Amount, t: Amount)
    requires tx.kind == AddLiquidity && |tx.inputs| > 0 && tx.inputs[0].output == PoolOut(p)
    requires |tx.outputs| > 0 && tx.outputs[0] == PoolOut(Overgrown(p, d, t)) && Enlarged(p, d, t).None?
    ensures VerifyAmm(tx.kind, OutputsOf(tx.inputs), tx.outputs) == None
  {
    OvergrownFails(p, d, t);
    assert OutputsOf(tx.inputs)[0] == PoolOut(p);
    hide Total, Sums, CheckAdd, CheckSwap, CheckRemove, Overgrown, Enlarged, OutputsOf;
  }

  lemma OvergrownFails(p: Pool, d: Amount, t: Amount)
    requires Enlarged(p, d, t).None?
    ensures !CheckAdd(p, Overgrown(p, d, t))
  {
    hide LpShares, Wrap;
    NoShares(p);
    var m := LpShares(d, t, p.ra, p.rb, p.shares);
    if m.Some? {
      WrapDrops(p.ra, d);
      WrapDrops(p.rb, t);
      WrapDrops(p.shares, m.value);
    }
  }

  lemma WrapDrops(a: Amount, b: Amount)
    ensures a + b >= TWO64 ==> Wrap(a + b) < a
  {
  }

  /** An unchanged pool earns no shares. */
  lemma NoShares(p: Pool)
    ensures LpShares(0, 0, p.ra, p.rb, p.shares).None?
  {
  }

  /** From a wallet none of whose totals leaves 64 bits, it passes exactly when it conserves. */
  lemma FitsJudged(tx: Tx, p: Pool, utxos: seq<Coin>, a: Action)
    requires Written(tx, p, utxos, a) && Fits(p, utxos)
    ensures VerifyAmm(tx.kind, OutputsOf(tx.inputs), tx.outputs).Some? <==> BuiltFor(tx, p, a)
  {
    hide VerifyAmm, Written, BuiltFor, Coins, Sum, Chosen, Carry, Wrap;
    WrittenJudged(tx, p, utxos, a);
    WrittenExact(tx, p, utxos, a);
    ExcessWhenFits(p, utxos, a);
  }

  /** Its coins never leave 64 bits, so nothing is over. */
  lemma ExcessWhenFits(p: Pool, utxos: seq<Coin>, a: Action)
    requires Fits(p, utxos)
    ensures var x := ExcessOf(p, utxos, a); x.doli <= 0 && x.token <= 0 && x.share <= 0
  {
    forall needed: nat ensures Over(Coins(utxos, p, Doli), needed) <= 0 {
      OverWhenSmall(Coins(utxos, p, Doli), needed);
    }
    forall needed: nat ensures Over(Coins(utxos, p, Token), needed) <= 0 {
      OverWhenSmall(Coins(utxos, p, Token), needed);
    }
    forall needed: nat ensures Over(Coins(utxos, p, Share), needed) <= 0 {
      OverWhenSmall(Coins(utxos, p, Share), needed);
    }
    hide Over, Coins, Sum;
  }

  lemma OverWhenSmall(cs: seq<Coin>, needed: nat)
    requires Sum(cs) < TWO64
    ensures Over(cs, needed) <= 0
  {
    SumPrefix(cs, Chosen(cs, Wrap(needed)));
    hide Sum, Chosen;
  }

  // ----- the check, said without floors -----

  /** A swap keeps the product; a burn takes no more than its part, a mint gives no more than it is worth. */
  ghost predicate Allows(kind: Kind, p: Pool, q: Pool, os: seq<Output>) {
    match kind
    case Swap => p.ra * p.rb <= q.ra * q.rb
    case RemoveLiquidity =>
      && q.shares < p.shares && os != []
      && (p.ra - q.ra) * p.shares <= (p.shares - q.shares) * p.ra
      && (p.rb - q.rb) * p.shares <= (p.shares - q.shares) * p.rb
      && UserTokens(os[1..], p.assetB) <= if q.rb <= p.rb then p.rb - q.rb else 0
    case AddLiquidity =>
      && p.shares <= q.shares && p.ra <= q.ra && p.rb <= q.rb && p.ra > 0 && p.rb > 0 && p.shares > 0
      && exists v: nat ::
           && Worthy(q.ra - p.ra, q.rb - p.rb, p.ra, p.rb, p.shares, v)
           && v % TWO64 > 0 && q.shares - p.shares <= v % TWO64
    case CreatePool => false
  }

  /** The check, exactly: nothing created, no foreign token, shares booked, the kind's rule kept, the surplus told. */
  lemma AcceptedExact(kind: Kind, consumed: seq<Output>, os: seq<Output>, fee: Amount)
    ensures VerifyAmm(kind, consumed, os) == Some(fee)
            <==> && consumed != [] && consumed[0].PoolOut? && os != [] && os[0].PoolOut?
                 && var p, q := consumed[0].pool, os[0].pool;
                    && (forall x :: x in os && x.TokenOut? ==> x.asset == p.assetB)
                    && Total(os, p).doli <= Total(consumed, p).doli && Total(os, p).token <= Total(consumed, p).token
                    && q.shares + Total(consumed, p).lp == p.shares + Total(os, p).lp
                    && (Total(consumed, p).doli - Total(os, p).doli) % TWO64 == fee
                    && Allows(kind, p, q, os)
  {
    if consumed != [] && consumed[0].PoolOut? && os != [] && os[0].PoolOut? {
      var p, q := consumed[0].pool, os[0].pool;
      SumsExact(consumed, p);
      SumsExact(os, p);
      KindAllowed(kind, p, q, os);
      hide Total, Sums, Allows, CheckSwap, CheckRemove, CheckAdd;
    }
  }

  lemma KindAllowed(kind: Kind, p: Pool, q: Pool, os: seq<Output>)
    requires os != []
    ensures Allows(kind, p, q, os)
            <==> (kind == Swap && CheckSwap(p, q)) || (kind == RemoveLiquidity && CheckRemove(p, q, os))
                 || (kind == AddLiquidity && CheckAdd(p, q))
  {
    RemoveAllowed(p, q, os);
    AddAllowed(p, q, os);
    hide CheckRemove, CheckAdd, Worthy;
  }

  lemma RemoveAllowed(p: Pool, q: Pool, os: seq<Output>)
    ensures CheckRemove(p, q, os) <==> Allows(RemoveLiquidity, p, q, os)
  {
    if q.shares < p.shares {
      PartTaken(p.shares - q.shares, p.shares, p.ra, q.ra);
      PartTaken(p.shares - q.shares, p.shares, p.rb, q.rb);
      hide ProRata, UserTokens;
    }
  }

  lemma PartTaken(s: Amount, total: Amount, r: Amount, r': Amount)
    requires 0 < s <= total
    ensures SatSub(r, r') <= ProRata(s, r, total) <==> (r - r') * total <= s * r
  {
    ProRataExact(s, r, total, SatSub(r, r'));
    if r < r' { MulMonotone(0, r' - r, total); }
  }

  lemma AddAllowed(p: Pool, q: Pool, os: seq<Output>)
    ensures CheckAdd(p, q) <==> Allows(AddLiquidity, p, q, os)
  {
    if p.ra <= q.ra && p.rb <= q.rb {
      var da, db := q.ra - p.ra, q.rb - p.rb;
      var most := LpShares(da, db, p.ra, p.rb, p.shares);
      hide LpShares, Worthy;
      if most.Some? { MintExact(da, db, p.ra, p.rb, p.shares, most.value); }
      if Allows(AddLiquidity, p, q, os) {
        var v: nat :| Worthy(da, db, p.ra, p.rb, p.shares, v) && v % TWO64 > 0 && q.shares - p.shares <= v % TWO64;
        MintExact(da, db, p.ra, p.rb, p.shares, v % TWO64);
      }
    }
  }

  /**
   * Whoever wrote it: a transaction the check accepts creates no DOLI and no tokens, moves the pool's share count
   * with the share outputs, and, a swap leaving that count alone, takes nothing from what stands behind a share.
   */
  lemma AcceptedSafe(kind: Kind, consumed: seq<Output>, os: seq<Output>)
    requires VerifyAmm(kind, consumed, os).Some? && (kind.Swap? ==> os[0].pool.shares == consumed[0].pool.shares)
    ensures var p, q := consumed[0].pool, os[0].pool;
            && Total(consumed, p).doli >= Total(os, p).doli && Total(consumed, p).token >= Total(os, p).token
            && q.shares + Total(consumed, p).lp == p.shares + Total(os, p).lp
            && NotDiluted(p.ra, p.rb, p.shares, q.ra, q.rb, q.shares)
  {
    var p, q := consumed[0].pool, os[0].pool;
    SumsExact(consumed, p);
    SumsExact(os, p);
    KindSafe(kind, p, q, os);
    hide Total, Sums, NotDiluted;
  }

  lemma KindSafe(kind: Kind, p: Pool, q: Pool, os: seq<Output>)
    requires match kind
             case Swap => CheckSwap(p, q) && q.shares == p.shares
             case RemoveLiquidity => CheckRemove(p, q, os)
             case AddLiquidity => CheckAdd(p, q)
             case CreatePool => false
    ensures NotDiluted(p.ra, p.rb, p.shares, q.ra, q.rb, q.shares)
  {
    match kind
    case Swap => SwapNotDiluting(p.ra, p.rb, p.shares, q.ra, q.rb);
    case RemoveLiquidity => RemoveSafe(p, q, os);
    case AddLiquidity => AddSafe(p, q);
  }

  lemma AddSafe(p: Pool, q: Pool)
    requires CheckAdd(p, q)
    ensures NotDiluted(p.ra, p.rb, p.shares, q.ra, q.rb, q.shares)
  {
    var da, db, m := q.ra - p.ra, q.rb - p.rb, LpShares(q.ra - p.ra, q.rb - p.rb, p.ra, p.rb, p.shares).value;
    MintFair(da, db, p.ra, p.rb, p.shares);
    hide LpShares, NotDiluted;
    var s := q.shares - p.shares;
    MulMonotone(s, m, p.ra);
    MulMonotone(s, m, p.rb);
    OneSide(p.ra, da, p.shares, s);
    OneSide(p.rb, db, p.shares, s);
    SidesGiveProduct(p.ra, p.rb, p.shares, q.ra, q.rb, q.shares);
  }

  lemma OneSide(r: nat, d: nat, t: nat, s: nat)
    requires s * r <= d * t
    ensures r * (t + s) <= (r + d) * t
  {
    assert r * (t + s) == r * t + s * r && (r + d) * t == r * t + d * t;
  }

  lemma RemoveSafe(p: Pool, q: Pool, os: seq<Output>)
    requires CheckRemove(p, q, os)
    ensures NotDiluted(p.ra, p.rb, p.shares, q.ra, q.rb, q.shares)
  {
    var s := p.shares - q.shares;
    BurnFair(s, p.ra, p.rb, p.shares);
    var (da, db) := RemoveAmounts(s, p.ra, p.rb, p.shares).value;
    hide RemoveAmounts, NotDiluted, UserTokens;
    TakenSide(p.ra, q.ra, da, p.shares, s);
    TakenSide(p.rb, q.rb, db, p.shares, s);
    SidesGiveProduct(p.ra, p.rb, p.shares, q.ra, q.rb, q.shares);
  }

  lemma TakenSide(r: nat, r': nat, d: nat, t: nat, s: nat)
    requires r <= r' + d && d * t <= s * r && s <= t
    ensures r * (t - s) <= r' * t
  {
    MulMonotone(r, r' + d, t);
    assert (r' + d) * t == r' * t + d * t;
    assert r * (t - s) == r * t - s * r;
  }

  // ----- pool creation -----

  function Native(os: seq<Output>): nat {
    if os == [] then 0 else (if os[0].NormalOut? then os[0].amount else 0) + Native(os[1..])
  }

  /**
   * The node's own rule for creation: the declared reserves are backed by what goes in beyond the change
   * (crates/core/src/validation/utxo.rs:791-852).
   */
  predicate CreateBacked(consumed: seq<Output>, os: seq<Output>) {
    && os != [] && os[0].PoolOut? && Native(consumed) < TWO64
    && var p := os[0].pool;
       && Less(Native(consumed), Native(os)) >= p.ra
       && Less(UserTokens(consumed, p.assetB), UserTokens(os[1..], p.assetB)) >= p.rb
  }

  function Less(a: nat, b: nat): nat { if a < b then 0 else a - b }

  lemma {:induction false} PlainTotal(os: seq<Output>, p: Pool)
    requires forall o :: o in os ==> !o.PoolOut?
    ensures Native(os) == Total(os, p).doli && UserTokens(os, p.assetB) == Total(os, p).token
  {
    if os != [] {
      assert os[0] in os && forall o :: o in os[1..] ==> o in os;
      PlainTotal(os[1..], p);
    }
  }

  lemma {:induction false} PlainOutputs(cs: seq<Coin>)
    requires forall c :: c in cs ==> !c.output.PoolOut?
    ensures forall o :: o in OutputsOf(cs) ==> !o.PoolOut?
  {
    if cs != [] {
      assert cs[0] in cs && forall c :: c in cs[1..] ==> c in cs;
      PlainOutputs(cs[1..]);
    }
  }

  /**
   * What `pool create` writes is backed exactly when its native coins sum up below 2^64 and both assets' coins
   * leave 64 bits at least as often as what they are picked for.
   */
  lemma CreateJudged(tx: Tx, p: Pool, utxos: seq<Coin>)
    requires WrittenCreate(tx, p, utxos) && p.ra > 0 && p.rb > 0
    ensures CreateBacked(OutputsOf(tx.inputs), tx.outputs)
            <==> && Total(OutputsOf(tx.inputs), p).doli < TWO64
                 && Over(Coins(utxos, p, Doli), p.ra + POOL_AND_SHARE_FEE) >= 0
                 && Over(Coins(utxos, p, Token), p.rb) >= 0
  {
    hide Over, Coins;
    var rest := tx.outputs[1..];
    PlainOutputs(tx.inputs);
    PlainTotal(OutputsOf(tx.inputs), p);
    PlainTotal(rest, p);
    assert tx.outputs == [tx.outputs[0]] + rest;
    TotalCons(tx.outputs[0], rest, p);
    assert Native(tx.outputs) == Native(rest);
    hide Native, UserTokens, Total, OutputsOf;
  }

  /** From a wallet whose totals stay below 2^64: exactly when the deposit with its fee does too. */
  lemma CreateFitsJudged(tx: Tx, p: Pool, utxos: seq<Coin>)
    requires WrittenCreate(tx, p, utxos) && p.ra > 0 && p.rb > 0 && Fits(p, utxos)
    ensures CreateBacked(OutputsOf(tx.inputs), tx.outputs) <==> p.ra + POOL_AND_SHARE_FEE < TWO64
  {
    hide WrittenCreate, Total, OutputsOf, Over, Coins, CreateBacked, Sum, Chosen, Wrap;
    CreateJudged(tx, p, utxos);
    ChosenSmall(tx, p, utxos);
    OverWhenSmall(Coins(utxos, p, Doli), p.ra + POOL_AND_SHARE_FEE);
    OverWhenSmall(Coins(utxos, p, Token), p.rb);
    BalancedWhenSmall(Coins(utxos, p, Doli), p.ra + POOL_AND_SHARE_FEE);
    BalancedWhenSmall(Coins(utxos, p, Token), p.rb);
  }

  lemma ChosenSmall(tx: Tx, p: Pool, utxos: seq<Coin>)
    requires WrittenCreate(tx, p, utxos) && Fits(p, utxos)
    ensures Total(OutputsOf(tx.inputs), p).doli < TWO64
  {
    hide Total, OutputsOf, PoolFirst, Coins, Sum, Over, Wrap;
    SumPrefix(Coins(utxos, p, Doli), Chosen(Coins(utxos, p, Doli), Wrap(p.ra + POOL_AND_SHARE_FEE)));
  }

  // ----- the ledger -----

  /** Worth of all unspent outputs. */
  ghost function Bag(m: multiset<Output>, p: Pool): Value
    decreases |m|
  {
    if |m| == 0 then Value(0, 0, 0)
    else
      var o :| o in m;
      Worth(o, p).Plus(Bag(m - multiset{o}, p))
  }

  lemma BagPick(m: multiset<Output>, p: Pool) returns (o: Output)
    requires |m| > 0
    ensures o in m && Bag(m, p) == Worth(o, p).Plus(Bag(m - multiset{o}, p))
  {
    o :| o in m && Bag(m, p) == Worth(o, p).Plus(Bag(m - multiset{o}, p));
  }

  lemma PlusSwap(a: Value, b: Value, c: Value)
    ensures a.Plus(b.Plus(c)) == b.Plus(a.Plus(c))
  {
  }

  lemma {:induction false} BagTake(m: multiset<Output>, o: Output, p: Pool)
    requires o in m
    ensures Bag(m, p) == Worth(o, p).Plus(Bag(m - multiset{o}, p))
    decreases |m|
  {
    hide Worth, Bag, Value.Plus;
    var x := BagPick(m, p);
    if x != o {
      var rest := m - multiset{x} - multiset{o};
      assert rest == m - multiset{o} - multiset{x};
      BagTake(m - multiset{x}, o, p);
      BagTake(m - multiset{o}, x, p);
      PlusSwap(Worth(x, p), Worth(o, p), Bag(rest, p));
    }
  }

  lemma BagPut(m: multiset<Output>, o: Output, p: Pool)
    ensures Bag(m + multiset{o}, p) == Worth(o, p).Plus(Bag(m, p))
  {
    BagTake(m + multiset{o}, o, p);
    assert m + multiset{o} - multiset{o} == m;
  }

  lemma BagCons(m: multiset<Output>, os: seq<Output>)
    requires os != []
    ensures m + multiset(os) == m + multiset(os[1..]) + multiset{os[0]}
  {
    assert os == [os[0]] + os[1..];
  }

  lemma {:induction false} BagAdd(m: multiset<Output>, os: seq<Output>, p: Pool)
    ensures Bag(m + multiset(os), p) == Bag(m, p).Plus(Total(os, p))
    decreases |os|
  {
    if os == [] {
      assert m + multiset(os) == m;
    } else {
      BagCons(m, os);
      assert Total(os, p) == Worth(os[0], p).Plus(Total(os[1..], p));
      hide Worth, Bag, Total, Value.Plus;
      BagAdd(m, os[1..], p);
      BagPut(m + multiset(os[1..]), os[0], p);
      PlusSwap(Worth(os[0], p), Bag(m, p), Total(os[1..], p));
    }
  }

  lemma BagSpend(m: multiset<Output>, spent: seq<Output>, made: seq<Output>, p: Pool)
    requires multiset(spent) <= m
    ensures Bag(m - multiset(spent) + multiset(made), p).Plus(Total(spent, p)) == Bag(m, p).Plus(Total(made, p))
  {
    hide Bag, Total;
    BagAdd(m - multiset(spent), spent, p);
    assert m - multiset(spent) + multiset(spent) == m;
    BagAdd(m - multiset(spent), made, p);
  }

  lemma BagYardstick(m: multiset<Output>, p: Pool, q: Pool)
    requires q.id == p.id && q.assetB == p.assetB
    ensures Bag(m, p) == Bag(m, q)
    decreases |m|
  {
    if |m| > 0 {
      var o :| o in m;
      BagTake(m, o, p);
      BagTake(m, o, q);
      BagYardstick(m - multiset{o}, p, q);
    }
  }

  /** The pool and everything unspent, of all owners. */
  datatype Ledger = Ledger(pool: Pool, unspent: multiset<Output>)

  /** Locked liquidity and live shares make up the pool's share count; there is a reserve on both sides. */
  ghost predicate SharesBacked(l: Ledger) {
    && l.pool.shares == MINIMUM_LIQUIDITY + Bag(l.unspent, l.pool).lp
    && l.pool.ra > 0 && l.pool.rb > 0
  }

  /** A transaction of the CLI for `a`, confirmed: what it spends was unspent. */
  ghost predicate Confirms(l: Ledger, a: Action, tx: Tx, r: Ledger) {
    && BuiltFor(tx, l.pool, a)
    && multiset(OutputsOf(tx.inputs)) <= l.unspent
    && r == Ledger(Next(l.pool, a).value, l.unspent - multiset(OutputsOf(tx.inputs)) + multiset(tx.outputs))
  }

  datatype Confirmed = Confirmed(wallet: seq<Coin>, action: Action, tx: Tx, after: Ledger)

  ghost predicate IsRun(l: Ledger, run: seq<Confirmed>)
    decreases |run|
  {
    run == [] || (Confirms(l, run[0].action, run[0].tx, run[0].after) && IsRun(run[0].after, run[1..]))
  }

  function EndOf(l: Ledger, run: seq<Confirmed>): Ledger { if run == [] then l else run[|run| - 1].after }

  function Fees(run: seq<Confirmed>): nat { if run == [] then 0 else FeeOf(run[0].action) + Fees(run[1..]) }

  lemma ConfirmMoves(l: Ledger, a: Action, tx: Tx, r: Ledger)
    requires Confirms(l, a, tx, r)
    ensures var x, y := Bag(l.unspent, l.pool), Bag(r.unspent, r.pool);
            && x.doli == y.doli + FeeOf(a) && x.token == y.token
            && r.pool.shares + x.lp == l.pool.shares + y.lp
            && r.pool.id == l.pool.id && r.pool.assetB == l.pool.assetB
  {
    hide Bag, Total, Next;
    BagSpend(l.unspent, OutputsOf(tx.inputs), tx.outputs, l.pool);
    BagYardstick(r.unspent, l.pool, r.pool);
  }

  /** No action lowers what stands behind one share. */
  lemma ActionNotDiluting(p: Pool, a: Action)
    requires Next(p, a).Some?
    ensures var q := Next(p, a).value; NotDiluted(p.ra, p.rb, p.shares, q.ra, q.rb, q.shares)
  {
    hide ComputeSwap, LpShares, RemoveAmounts, NotDiluted;
    match a
    case SwapAction(a2b, dx) =>
      SwapMoves(p, a2b, dx);
      SwapNotDiluting(p.ra, p.rb, p.shares, Next(p, a).value.ra, Next(p, a).value.rb);
    case AddAction(d, t) => MintNotDiluting(d, t, p.ra, p.rb, p.shares);
    case RemoveAction(s) =>
      BurnFair(s, p.ra, p.rb, p.shares);
      var out := RemoveAmounts(s, p.ra, p.rb, p.shares).value;
      BurnNotDiluting(s, p.ra, p.rb, p.shares, out.0, out.1);
  }

  /** While shares stay locked no action empties a reserve. */
  lemma ReservesStay(p: Pool, a: Action)
    requires Next(p, a).Some? && p.ra > 0 && p.rb > 0 && Next(p, a).value.shares > 0
    ensures Next(p, a).value.ra > 0 && Next(p, a).value.rb > 0
  {
    hide NotDiluted;
    var q := Next(p, a).value;
    ActionNotDiluting(p, a);
    ProductPositive(p.ra, p.rb, p.shares, q.ra, q.rb, q.shares);
  }

  lemma ProductPositive(ra: nat, rb: nat, t: nat, ra': nat, rb': nat, t': nat)
    requires NotDiluted(ra, rb, t, ra', rb', t') && ra > 0 && rb > 0 && t' > 0
    ensures ra' > 0 && rb' > 0
  {
    Positive(ra, rb);
    Positive(t', t');
    Positive(ra * rb, t' * t');
    assert (ra' * rb') * (t * t) > 0;
  }

  lemma Positive(a: nat, b: nat)
    requires a > 0 && b > 0
    ensures a * b > 0
  {
  }

  /** One confirmed transaction: shares stay backed, exactly the fee leaves, tokens move, no share is diluted. */
  lemma ConfirmKeeps(l: Ledger, a: Action, tx: Tx, r: Ledger)
    requires SharesBacked(l) && Confirms(l, a, tx, r)
    ensures SharesBacked(r) && r.pool.shares > 0
    ensures Bag(l.unspent, l.pool).doli == Bag(r.unspent, r.pool).doli + FeeOf(a)
    ensures Bag(l.unspent, l.pool).token == Bag(r.unspent, r.pool).token
    ensures NotDiluted(l.pool.ra, l.pool.rb, l.pool.shares, r.pool.ra, r.pool.rb, r.pool.shares)
  {
    ConfirmMoves(l, a, tx, r);
    hide Bag, Next, Conserves, NotDiluted;
    ActionNotDiluting(l.pool, a);
    ReservesStay(l.pool, a);
  }

  /**
   * Share, DOLI and token conservation over every run: total shares stay the locked ones plus the live
   * ones, the ledger loses exactly the fees, and tokens are only moved.
   */
  lemma {:induction false} RunConserves(l: Ledger, run: seq<Confirmed>)
    requires SharesBacked(l) && IsRun(l, run)
    ensures SharesBacked(EndOf(l, run))
    ensures Bag(l.unspent, l.pool).doli == Bag(EndOf(l, run).unspent, EndOf(l, run).pool).doli + Fees(run)
    ensures Bag(l.unspent, l.pool).token == Bag(EndOf(l, run).unspent, EndOf(l, run).pool).token
    decreases |run|
  {
    if run != [] {
      FirstConfirmed(l, run);
      hide Bag, Confirms, SharesBacked, NotDiluted, IsRun, EndOf, Fees, FeeOf;
      ConfirmKeeps(l, run[0].action, run[0].tx, run[0].after);
      RunConserves(run[0].after, run[1..]);
    }
  }

  /** A run is its first transaction and a run from there. */
  lemma FirstConfirmed(l: Ledger, run: seq<Confirmed>)
    requires IsRun(l, run) && run != []
    ensures Confirms(l, run[0].action, run[0].tx, run[0].after) && IsRun(run[0].after, run[1..])
    ensures EndOf(l, run) == EndOf(run[0].after, run[1..]) && Fees(run) == FeeOf(run[0].action) + Fees(run[1..])
  {
    hide Confirms;
  }

  /** Once every issued share is burned the locked ones are all that is left. */
  lemma AllBurnedLeavesLocked(l: Ledger, run: seq<Confirmed>)
    requires SharesBacked(l) && IsRun(l, run)
    ensures var e := EndOf(l, run);
            Bag(e.unspent, e.pool).lp == 0 <==> e.pool.shares == MINIMUM_LIQUIDITY
  {
    RunConserves(l, run);
  }

  /** Over every run a share's claim on the product of the reserves never shrinks. */
  lemma {:induction false} RunNotDiluting(l: Ledger, run: seq<Confirmed>)
    requires SharesBacked(l) && IsRun(l, run)
    ensures var p, q := l.pool, EndOf(l, run).pool; NotDiluted(p.ra, p.rb, p.shares, q.ra, q.rb, q.shares)
    decreases |run|
  {
    hide Bag, Confirms, SharesBacked, NotDiluted;
    if run == [] {
      SwapNotDiluting(l.pool.ra, l.pool.rb, l.pool.shares, l.pool.ra, l.pool.rb);
    } else {
      FirstConfirmed(l, run);
      hide IsRun, EndOf;
      ConfirmKeeps(l, run[0].action, run[0].tx, run[0].after);
      RunNotDiluting(run[0].after, run[1..]);
      var p, m, q := l.pool, run[0].after.pool, EndOf(l, run).pool;
      NotDilutedTransitive(p.ra, p.rb, p.shares, m.ra, m.rb, m.shares, q.ra, q.rb, q.shares);
    }
  }

  /** A confirmed create starts such a run. */
  lemma CreateStarts(before: multiset<Output>, tx: Tx, p: Pool)
    requires Bag(before, p).lp == 0 && multiset(OutputsOf(tx.inputs)) <= before
    requires p.ra > 0 && p.rb > 0
    requires Total(OutputsOf(tx.inputs), p).lp == 0 && p.shares == MINIMUM_LIQUIDITY + Total(tx.outputs, p).lp
    ensures SharesBacked(Ledger(p, before - multiset(OutputsOf(tx.inputs)) + multiset(tx.outputs)))
  {
    BagSpend(before, OutputsOf(tx.inputs), tx.outputs, p);
  }

  // ----- wallets -----

  predicate Within(a: Value, b: Value) { a.doli <= b.doli && a.token <= b.token && a.lp <= b.lp }

  /** The coins of one class are worth no more than all of them. */
  lemma {:induction false} ClassWithin(cs: seq<Coin>, p: Pool, k: Class)
    ensures Within(Total(OutputsOf(Coins(cs, p, k)), p), Total(OutputsOf(cs), p))
  {
    if cs != [] {
      var rest := Coins(cs[1..], p, k);
      ClassWithin(cs[1..], p, k);
      assert ([cs[0]] + rest)[1..] == rest && [] + rest == rest;
      TotalCons(cs[0].output, OutputsOf(rest), p);
      TotalCons(cs[0].output, OutputsOf(cs[1..]), p);
      hide Total, Worth, Holds;
    }
  }

  lemma ClassSum(cs: seq<Coin>, p: Pool, k: Class)
    ensures Within(Of(k, Sum(Coins(cs, p, k))), Total(OutputsOf(cs), p))
  {
    ClassWithin(cs, p, k);
    forall c | c in Coins(cs, p, k) ensures Holds(c, p, k) { CoinsHold(cs, p, k, c); }
    ClassWorth(Coins(cs, p, k), p, k);
    hide Total, Coins, Sum, OutputsOf;
  }

  lemma PartWithin(m: multiset<Output>, os: seq<Output>, p: Pool)
    requires multiset(os) <= m
    ensures Within(Total(os, p), Bag(m, p))
  {
    hide Bag, Total;
    var rest := m - multiset(os);
    BagAdd(rest, os, p);
    assert rest + multiset(os) == m;
  }

  /** A wallet of unspent outputs fits wherever the ledger's DOLI and tokens stay below 2^64; its shares always do. */
  lemma WalletFits(l: Ledger, utxos: seq<Coin>)
    requires SharesBacked(l) && multiset(OutputsOf(utxos)) <= l.unspent
    requires Bag(l.unspent, l.pool).doli < TWO64 && Bag(l.unspent, l.pool).token < TWO64
    ensures Fits(l.pool, utxos)
  {
    hide Bag, Total, OutputsOf, Sum, Coins;
    PartWithin(l.unspent, OutputsOf(utxos), l.pool);
    ClassSum(utxos, l.pool, Doli);
    ClassSum(utxos, l.pool, Token);
    ClassSum(utxos, l.pool, Share);
  }

  /** What the CLI writes from unspent outputs, the consensus check accepts, and the ledger takes over. */
  ghost predicate Accepts(l: Ledger, c: Confirmed) {
    && multiset(OutputsOf(c.wallet)) <= l.unspent && Written(c.tx, l.pool, c.wallet, c.action)
    && VerifyAmm(c.tx.kind, OutputsOf(c.tx.inputs), c.tx.outputs).Some?
    && multiset(OutputsOf(c.tx.inputs)) <= l.unspent
    && c.after == Ledger(c.tx.outputs[0].pool,
                         l.unspent - multiset(OutputsOf(c.tx.inputs)) + multiset(c.tx.outputs))
  }

  ghost predicate IsAccepted(l: Ledger, run: seq<Confirmed>)
    decreases |run|
  {
    run == [] || (Accepts(l, run[0]) && IsAccepted(run[0].after, run[1..]))
  }

  predicate Bounded(v: Value) { v.doli < TWO64 && v.token < TWO64 }

  lemma AcceptsConfirms(l: Ledger, c: Confirmed)
    requires SharesBacked(l) && Bounded(Bag(l.unspent, l.pool)) && Accepts(l, c)
    ensures Confirms(l, c.action, c.tx, c.after)
  {
    WalletFits(l, c.wallet);
    hide Bag, VerifyAmm, Fits, Written, Next, SharesBacked, Total;
    FitsJudged(c.tx, l.pool, c.wallet, c.action);
    hide OutputsOf;
  }

  /**
   * Where DOLI and tokens stay below 2^64 a run of accepted transactions is a run of conserving ones: all that
   * holds of those holds of whatever the CLI writes and the consensus check lets through.
   */
  lemma {:induction false} AcceptedIsRun(l: Ledger, run: seq<Confirmed>)
    requires SharesBacked(l) && Bounded(Bag(l.unspent, l.pool)) && IsAccepted(l, run)
    ensures IsRun(l, run)
    decreases |run|
  {
    if run != [] {
      FirstAccepted(l, run);
      hide *;
      AcceptedIsRun(run[0].after, run[1..]);
      RunOf(l, run);
    }
  }

  lemma FirstAccepted(l: Ledger, run: seq<Confirmed>)
    requires SharesBacked(l) && Bounded(Bag(l.unspent, l.pool)) && IsAccepted(l, run) && run != []
    ensures var c := run[0];
            && Confirms(l, c.action, c.tx, c.after) && IsAccepted(c.after, run[1..])
            && SharesBacked(c.after) && Bounded(Bag(c.after.unspent, c.after.pool))
  {
    hide Bag, Accepts, Confirms, SharesBacked, NotDiluted;
    var c := run[0];
    AcceptsConfirms(l, c);
    ConfirmKeeps(l, c.action, c.tx, c.after);
  }

  lemma RunOf(l: Ledger, run: seq<Confirmed>)
    requires run != [] && Confirms(l, run[0].action, run[0].tx, run[0].after) && IsRun(run[0].after, run[1..])
    ensures IsRun(l, run)
  {
    hide Confirms;
  }

  /** DOLI ever issued (crates/core/src/consensus/constants.rs:522). */
  const TOTAL_SUPPLY: nat := 2_522_880_000_000_000

  /**
   * So after every run from a ledger within the DOLI supply and 2^64 tokens, every wallet fits, and what
   * the CLI builds for it conserves: a swap of tokens and a withdrawal always, a swap of DOLI and a
   * deposit exactly when the amount with its fee stays below 2^64 (and the enlarged pool does).
   */
  lemma RunBuildsConserve(l: Ledger, run: seq<Confirmed>, utxos: seq<Coin>, dx: Amount, tokens: Amount)
    requires SharesBacked(l) && IsRun(l, run)
    requires Bag(l.unspent, l.pool).doli <= TOTAL_SUPPLY && Bag(l.unspent, l.pool).token < TWO64
    requires multiset(OutputsOf(utxos)) <= EndOf(l, run).unspent
    ensures var p := EndOf(l, run).pool;
            && SwapBalanced(p, utxos, false, dx)
            && Balanced(Coins(utxos, p, Share), dx) && Balanced(Coins(utxos, p, Doli), POOL_FEE)
            && Balanced(Coins(utxos, p, Token), tokens)
            && (SwapBalanced(p, utxos, true, dx) <==> dx + POOL_FEE < TWO64)
            && (Balanced(Coins(utxos, p, Doli), dx + POOL_AND_SHARE_FEE) <==> dx + POOL_AND_SHARE_FEE < TWO64)
  {
    hide Bag, IsRun, EndOf, SharesBacked, Balanced, SwapBalanced, Coins, Fits;
    RunConserves(l, run);
    WalletFits(EndOf(l, run), utxos);
    FitsBalanced(EndOf(l, run).pool, utxos, dx, tokens);
    FitsBalanced(EndOf(l, run).pool, utxos, dx, dx);
  }
}
