/**
 * The pool transactions of the CLI (bins/cli/src/cmd_pool.rs): coin selection and the inputs and
 * outputs of create, swap, add and remove.
 */
module PoolTx {
  import opened PoolMath
  import opened Wrappers
  import opened Arithmetic

  const MINIMUM_LIQUIDITY := 1000
  const MAX_FEE_BPS := 1000
  const BASE_FEE := 1
  const FEE_PER_BYTE := 1
  const FEE_DIVISOR := 100
  const POOL_METADATA_SIZE := 116
  const LP_SHARE_METADATA_SIZE := 33

  type Id = nat

  /** The pool state an output carries; the price accumulator and slots pass through unchanged. */
  datatype Pool = Pool(id: Id, assetB: Id, ra: Amount, rb: Amount, shares: Amount, twap: Twap, fee: FeeBps)
  datatype Twap = Twap(cumulative: nat, lastSlot: nat, creationSlot: nat)

  datatype Output =
    | PoolOut(pool: Pool)
    | NormalOut(amount: Amount)
    | TokenOut(tokens: Amount, asset: Id)
    | LpOut(share: Amount, poolId: Id)

  /** A wallet or pool UTXO: where it is, what it holds. */
  datatype Coin = Coin(outpoint: nat, output: Output, spendable: bool)

  datatype Kind = CreatePool | Swap | AddLiquidity | RemoveLiquidity

  datatype Tx = Tx(kind: Kind, inputs: seq<Coin>, outputs: seq<Output>)

  datatype Error = ZeroAmount | FeeTooHigh | PoolExists | TooSmall | InsufficientDoli | InsufficientTokens
                 | SwapFailed | Slippage | SharesFailed | BurnTooLarge | RemovalFailed | InsufficientShares

  datatype Result<+T> = Ok(value: T) | Err(error: Error)

  // ----- what outputs are worth -----

  /** DOLI, units of the pool's token, LP shares of the pool. */
  datatype Value = Value(doli: nat, token: nat, lp: nat) {
    function Plus(v: Value): Value { Value(doli + v.doli, token + v.token, lp + v.lp) }
  }

  function Worth(o: Output, p: Pool): Value {
    match o
    case PoolOut(q) => Value(q.ra, q.rb, 0)
    case NormalOut(a) => Value(a, 0, 0)
    case TokenOut(a, asset) => Value(0, if asset == p.assetB then a else 0, 0)
    case LpOut(a, id) => Value(0, 0, if id == p.id then a else 0)
  }

  function Total(os: seq<Output>, p: Pool): Value {
    if os == [] then Value(0, 0, 0) else Worth(os[0], p).Plus(Total(os[1..], p))
  }

  function OutputsOf(cs: seq<Coin>): seq<Output> {
    if cs == [] then [] else [cs[0].output] + OutputsOf(cs[1..])
  }

  lemma TotalCons(x: Output, ys: seq<Output>, p: Pool)
    ensures Total([x] + ys, p) == Worth(x, p).Plus(Total(ys, p))
  {
    assert ([x] + ys)[1..] == ys;
  }

  lemma TotalNil(ys: seq<Output>, p: Pool)
    ensures Total([], p).Plus(Total(ys, p)) == Total(ys, p)
  {
    assert Total([], p) == Value(0, 0, 0);
    hide Total;
    var v := Total(ys, p);
    assert v == Value(v.doli, v.token, v.lp);
  }

  lemma PlusAssociates(a: Value, b: Value, c: Value)
    ensures a.Plus(b).Plus(c) == a.Plus(b.Plus(c))
  {
  }

  lemma {:induction false} TotalConcat(xs: seq<Output>, ys: seq<Output>, p: Pool)
    ensures Total(xs + ys, p) == Total(xs, p).Plus(Total(ys, p))
    decreases |xs|
  {
    hide Total, Worth;
    if xs == [] {
      assert xs + ys == ys;
      TotalNil(ys, p);
    } else {
      var rest := xs[1..];
      TotalConcat(rest, ys, p);
      TotalCons(xs[0], rest, p);
      TotalCons(xs[0], rest + ys, p);
      hide Value.Plus;
      PlusAssociates(Worth(xs[0], p), Total(rest, p), Total(ys, p));
      assert [xs[0]] + rest == xs;
      assert [xs[0]] + (rest + ys) == xs + ys;
    }
  }

  lemma {:induction false} OutputsConcat(xs: seq<Coin>, ys: seq<Coin>)
    ensures OutputsOf(xs + ys) == OutputsOf(xs) + OutputsOf(ys)
  {
    if xs == [] {
      assert xs + ys == ys;
    } else {
      OutputsConcat(xs[1..], ys);
      assert (xs + ys)[1..] == xs[1..] + ys;
    }
  }

  // ----- coin selection -----

  /** What a coin is picked for: spendable DOLI, the pool's token, the pool's shares. */
  datatype Class = Doli | Token | Share

  predicate Holds(c: Coin, p: Pool, k: Class) {
    match k
    case Doli => c.output.NormalOut? && c.spendable
    case Token => c.output.TokenOut? && c.output.asset == p.assetB
    case Share => c.output.LpOut? && c.output.poolId == p.id
  }

  function Coins(cs: seq<Coin>, p: Pool, k: Class): seq<Coin> {
    if cs == [] then [] else (if Holds(cs[0], p, k) then [cs[0]] else []) + Coins(cs[1..], p, k)
  }

  function AmountOf(c: Coin): Amount {
    match c.output
    case PoolOut(_) => 0
    case NormalOut(a) => a
    case TokenOut(a, _) => a
    case LpOut(a, _) => a
  }

  function Sum(cs: seq<Coin>): nat {
    if cs == [] then 0 else Sum(cs[..|cs| - 1]) + AmountOf(cs[|cs| - 1])
  }

  /** How many coins the greedy loop holds when it stops, holding k. */
  function Reach(cs: seq<Coin>, required: nat, k: nat): (n: nat)
    requires k <= |cs|
    ensures k <= n <= |cs|
    decreases |cs| - k
  {
    if k == |cs| || Wrap(Sum(cs[..k])) >= required then k else Reach(cs, required, k + 1)
  }

  function Chosen(cs: seq<Coin>, required: nat): seq<Coin> { cs[..Reach(cs, required, 0)] }

  /** The shortest prefix whose (wrapping) total reaches what is required, or everything. */
  ghost predicate Picked(cs: seq<Coin>, required: nat, sel: seq<Coin>) {
    && sel <= cs
    && (Wrap(Sum(sel)) < required ==> sel == cs)
    && forall k :: 0 <= k < |sel| ==> Wrap(Sum(cs[..k])) < required
  }

  /** The greedy choice is the only prefix of that kind. */
  lemma {:induction false} ReachExact(cs: seq<Coin>, required: nat, k: nat, sel: seq<Coin>)
    requires k <= |cs| && forall j :: 0 <= j < k ==> Wrap(Sum(cs[..j])) < required
    ensures Picked(cs, required, sel) <==> sel == cs[..Reach(cs, required, k)]
    decreases |cs| - k
  {
    hide Wrap, Sum;
    if k == |cs| || Wrap(Sum(cs[..k])) >= required {
      assert cs[..|cs|] == cs;
      if Picked(cs, required, sel) { assert sel == cs[..|sel|]; }
    } else {
      ReachExact(cs, required, k + 1, sel);
    }
  }

  lemma ChosenExact(cs: seq<Coin>, required: nat, sel: seq<Coin>)
    ensures Picked(cs, required, sel) <==> sel == Chosen(cs, required)
  {
    ReachExact(cs, required, 0, sel);
  }

  lemma EmptySum()
    ensures Wrap(Sum([])) == 0
  {
  }

  lemma SumSnoc(cs: seq<Coin>, c: Coin)
    ensures Wrap(Sum(cs + [c])) == Wrap(Wrap(Sum(cs)) + AmountOf(c))
  {
    assert (cs + [c])[..|cs|] == cs;
  }

  method Select(cs: seq<Coin>, required: nat) returns (sel: seq<Coin>, total: Amount)
    ensures sel == Chosen(cs, required) && total == Wrap(Sum(sel))
  {
    sel, total := [], 0;
    hide Wrap, Sum;
    EmptySum();
    for k := 0 to |cs|
      invariant sel == cs[..k] && total == Wrap(Sum(sel))
      invariant Reach(cs, required, 0) == Reach(cs, required, k)
    {
      if total >= required { return; }
      assert cs[..k + 1] == cs[..k] + [cs[k]];
      SumSnoc(sel, cs[k]);
      sel := sel + [cs[k]];
      total := Wrap(total + AmountOf(cs[k]));
    }
  }

  lemma {:induction false} SumPrefix(cs: seq<Coin>, sel: seq<Coin>)
    requires sel <= cs
    ensures Sum(sel) <= Sum(cs)
    decreases |cs|
  {
    if |sel| < |cs| {
      assert sel <= cs[..|cs| - 1];
      SumPrefix(cs[..|cs| - 1], sel);
    } else {
      assert sel == cs;
    }
  }

  /** How often a sum leaves 64 bits. */
  function Carry(v: nat): nat { v / TWO64 }

  lemma CarryExact(v: nat)
    ensures v == Carry(v) * TWO64 + Wrap(v) && (Carry(v) == 0 <==> v < TWO64)
  {
  }

  /** How much more often the coins picked for a need leave 64 bits than the need does. */
  function Over(cs: seq<Coin>, needed: nat): int { Carry(Sum(Chosen(cs, Wrap(needed)))) - Carry(needed) }

  /** They do so just as often. */
  predicate Balanced(cs: seq<Coin>, needed: nat) { Over(cs, needed) == 0 }

  /** Coins that sum up below 2^64 are balanced exactly when the need stays there too. */
  lemma BalancedWhenSmall(cs: seq<Coin>, needed: nat)
    requires Sum(cs) < TWO64
    ensures Balanced(cs, needed) <==> needed < TWO64
  {
    SumPrefix(cs, Chosen(cs, Wrap(needed)));
    hide Sum, Chosen;
  }

  /** The change is the rest of the picked coins less 2^64 for every time they are over: all of it when balanced. */
  lemma ChangeExact(cs: seq<Coin>, needed: nat)
    ensures var s := Sum(Chosen(cs, Wrap(needed)));
            && s - needed == Wrap(s) - Wrap(needed) + Over(cs, needed) * TWO64
            && (Balanced(cs, needed) <==> s - needed == Wrap(s) - Wrap(needed))
  {
    CarryExact(Sum(Chosen(cs, Wrap(needed))));
    CarryExact(needed);
    hide Sum, Chosen, Wrap, Carry;
  }

  function Of(k: Class, v: nat): Value {
    match k
    case Doli => Value(v, 0, 0)
    case Token => Value(0, v, 0)
    case Share => Value(0, 0, v)
  }

  lemma {:induction false} CoinsHold(cs: seq<Coin>, p: Pool, k: Class, c: Coin)
    ensures c in Coins(cs, p, k) ==> c in cs && Holds(c, p, k)
  {
    if cs != [] { CoinsHold(cs[1..], p, k, c); }
  }

  /** The class's coins are those of the wallet that hold it, DOLI only where it is spendable, and in its order. */
  lemma {:induction false} CoinsExact(cs: seq<Coin>, p: Pool, k: Class, c: Coin)
    ensures c in Coins(cs, p, k)
            <==> c in cs && match c.output
                            case PoolOut(_) => false
                            case NormalOut(_) => k.Doli? && c.spendable
                            case TokenOut(_, asset) => k.Token? && asset == p.assetB
                            case LpOut(_, id) => k.Share? && id == p.id
  {
    if cs != [] { CoinsExact(cs[1..], p, k, c); }
  }

  lemma {:induction false} CoinsInOrder(cs: seq<Coin>, ds: seq<Coin>, p: Pool, k: Class)
    ensures Coins(cs + ds, p, k) == Coins(cs, p, k) + Coins(ds, p, k)
  {
    if cs == [] {
      assert cs + ds == ds && Coins([], p, k) + Coins(ds, p, k) == Coins(ds, p, k);
    } else {
      var head := if Holds(cs[0], p, k) then [cs[0]] else [];
      CoinsInOrder(cs[1..], ds, p, k);
      FirstCoin(cs, p, k);
      FirstCoin(cs + ds, p, k);
      assert (cs + ds)[1..] == cs[1..] + ds;
      hide Coins, Holds;
      assert head + (Coins(cs[1..], p, k) + Coins(ds, p, k)) == (head + Coins(cs[1..], p, k)) + Coins(ds, p, k);
    }
  }

  lemma FirstCoin(cs: seq<Coin>, p: Pool, k: Class)
    requires cs != []
    ensures Coins(cs, p, k) == (if Holds(cs[0], p, k) then [cs[0]] else []) + Coins(cs[1..], p, k)
  {
  }

  /** Coins of one class are worth their amounts in that class and nothing else. */
  lemma {:induction false} ClassWorth(cs: seq<Coin>, p: Pool, k: Class)
    requires forall c :: c in cs ==> Holds(c, p, k)
    ensures Total(OutputsOf(cs), p) == Of(k, Sum(cs))
    decreases |cs|
  {
    hide Total, OutputsOf, Holds, Worth;
    if cs == [] {
      NoWorth(p);
    } else {
      var init, last := cs[..|cs| - 1], cs[|cs| - 1];
      ClassWorth(init, p, k);
      assert cs == init + [last] && last in cs;
      OutputsConcat(init, [last]);
      TotalConcat(OutputsOf(init), OutputsOf([last]), p);
      OneWorth(last, p, k);
    }
  }

  lemma NoWorth(p: Pool)
    ensures Total(OutputsOf([]), p) == Value(0, 0, 0)
  {
  }

  lemma OneWorth(c: Coin, p: Pool, k: Class)
    requires Holds(c, p, k)
    ensures Total(OutputsOf([c]), p) == Of(k, AmountOf(c))
  {
    assert OutputsOf([c]) == [c.output];
    TotalOne(c.output, p);
  }

  /** A selection is worth its coins' sum in their own asset and nothing in the others. */
  lemma ChosenWorth(all: seq<Coin>, p: Pool, k: Class, required: nat)
    ensures var sel := Chosen(Coins(all, p, k), required); Total(OutputsOf(sel), p) == Of(k, Sum(sel))
  {
    var sel := Chosen(Coins(all, p, k), required);
    forall c | c in sel ensures Holds(c, p, k) {
      CoinsHold(all, p, k, c);
    }
    ClassWorth(sel, p, k);
  }

  // ----- the transactions -----

  function FeeUnits(extraBytes: nat): nat { BASE_FEE + extraBytes * FEE_PER_BYTE / FEE_DIVISOR }

  const POOL_FEE: nat := FeeUnits(POOL_METADATA_SIZE)
  const POOL_AND_SHARE_FEE: nat := FeeUnits(POOL_METADATA_SIZE + LP_SHARE_METADATA_SIZE)

  /** Both fees come to two units. */
  lemma FeesAreTwo()
    ensures POOL_FEE == 2 == POOL_AND_SHARE_FEE
  {
  }

  /** An output pushed only when it holds something. */
  function Change(o: Output, amount: nat): seq<Output> { if amount > 0 then [o] else [] }

  function CreatorShares(shares: Amount): Result<Amount> {
    if shares <= MINIMUM_LIQUIDITY then Err(TooSmall) else Ok(shares - MINIMUM_LIQUIDITY)
  }

  function CreateOutputs(p: Pool, creator: Amount, doliChange: Amount, tokenChange: Amount): seq<Output> {
    [PoolOut(p), LpOut(creator, p.id)] + Change(NormalOut(doliChange), doliChange)
    + Change(TokenOut(tokenChange, p.assetB), tokenChange)
  }

  /** Proceeds and change of a swap: tokens out for DOLI in, or the other way round. */
  function SwapOutputs(q: Pool, a2b: bool, out: Amount, doliChange: Amount, tokenChange: Amount): seq<Output> {
    if a2b then [PoolOut(q), TokenOut(out, q.assetB)] + Change(NormalOut(doliChange), doliChange)
    else [PoolOut(q), NormalOut(out)] + Change(TokenOut(tokenChange, q.assetB), tokenChange)
         + Change(NormalOut(doliChange), doliChange)
  }

  function AddOutputs(q: Pool, minted: Amount, doliChange: Amount, tokenChange: Amount): seq<Output> {
    [PoolOut(q), LpOut(minted, q.id)] + Change(NormalOut(doliChange), doliChange)
    + Change(TokenOut(tokenChange, q.assetB), tokenChange)
  }

  function RemoveOutputs(q: Pool, da: Amount, db: Amount, lpChange: Amount, feeChange: Amount): seq<Output> {
    [PoolOut(q)] + Change(NormalOut(da), da) + Change(TokenOut(db, q.assetB), db)
    + Change(LpOut(lpChange, q.id), lpChange) + Change(NormalOut(feeChange), feeChange)
  }

  lemma TotalOne(o: Output, p: Pool)
    ensures Total([o], p) == Worth(o, p)
  {
    assert [o][1..] == [];
  }

  lemma TotalChange(o: Output, amount: nat, p: Pool)
    requires amount == 0 ==> Worth(o, p) == Value(0, 0, 0)
    ensures Total(Change(o, amount), p) == Worth(o, p)
  {
    if amount > 0 { TotalOne(o, p); }
  }

  lemma CreateWorth(p: Pool, creator: Amount, doliChange: Amount, tokenChange: Amount)
    ensures Total(CreateOutputs(p, creator, doliChange, tokenChange), p)
            == Value(p.ra + doliChange, p.rb + tokenChange, creator)
  {
    hide Change, Total;
    var d, t := Change(NormalOut(doliChange), doliChange), Change(TokenOut(tokenChange, p.assetB), tokenChange);
    TotalChange(NormalOut(doliChange), doliChange, p);
    TotalChange(TokenOut(tokenChange, p.assetB), tokenChange, p);
    TotalConcat([PoolOut(p), LpOut(creator, p.id)] + d, t, p);
    TotalConcat([PoolOut(p), LpOut(creator, p.id)], d, p);
    TotalConcat([PoolOut(p)], [LpOut(creator, p.id)], p);
    assert [PoolOut(p)] + [LpOut(creator, p.id)] == [PoolOut(p), LpOut(creator, p.id)];
    TotalOne(PoolOut(p), p);
    TotalOne(LpOut(creator, p.id), p);
  }

  lemma AddWorth(p: Pool, q: Pool, minted: Amount, doliChange: Amount, tokenChange: Amount)
    requires q.id == p.id && q.assetB == p.assetB
    ensures Total(AddOutputs(q, minted, doliChange, tokenChange), p)
            == Value(q.ra + doliChange, q.rb + tokenChange, minted)
  {
    CreateWorth(q, minted, doliChange, tokenChange);
    SameYardstick(AddOutputs(q, minted, doliChange, tokenChange), p, q);
  }

  /** Worth depends on the pool only through its id and token. */
  lemma {:induction false} SameYardstick(os: seq<Output>, p: Pool, q: Pool)
    requires q.id == p.id && q.assetB == p.assetB
    ensures Total(os, p) == Total(os, q)
  {
    if os != [] { SameYardstick(os[1..], p, q); }
  }

  lemma SwapWorth(q: Pool, a2b: bool, out: Amount, doliChange: Amount, tokenChange: Amount)
    requires a2b ==> tokenChange == 0
    ensures Total(SwapOutputs(q, a2b, out, doliChange, tokenChange), q)
            == Value(q.ra + doliChange + (if a2b then 0 else out), q.rb + tokenChange + (if a2b then out else 0), 0)
  {
    hide Change, Total;
    var first := if a2b then TokenOut(out, q.assetB) else NormalOut(out);
    var d, t := Change(NormalOut(doliChange), doliChange), Change(TokenOut(tokenChange, q.assetB), tokenChange);
    TotalChange(NormalOut(doliChange), doliChange, q);
    TotalChange(TokenOut(tokenChange, q.assetB), tokenChange, q);
    TotalConcat([PoolOut(q)], [first], q);
    assert [PoolOut(q)] + [first] == [PoolOut(q), first];
    TotalOne(PoolOut(q), q);
    TotalOne(first, q);
    if a2b {
      TotalConcat([PoolOut(q), first], d, q);
    } else {
      TotalConcat([PoolOut(q), first] + t, d, q);
      TotalConcat([PoolOut(q), first], t, q);
    }
  }

  lemma RemoveWorth(q: Pool, da: Amount, db: Amount, lpChange: Amount, feeChange: Amount)
    ensures Total(RemoveOutputs(q, da, db, lpChange, feeChange), q)
            == Value(q.ra + da + feeChange, q.rb + db, lpChange)
  {
    hide Change, Total;
    var a, b := Change(NormalOut(da), da), Change(TokenOut(db, q.assetB), db);
    var l, f := Change(LpOut(lpChange, q.id), lpChange), Change(NormalOut(feeChange), feeChange);
    TotalChange(NormalOut(da), da, q);
    TotalChange(TokenOut(db, q.assetB), db, q);
    TotalChange(LpOut(lpChange, q.id), lpChange, q);
    TotalChange(NormalOut(feeChange), feeChange, q);
    TotalConcat([PoolOut(q)] + a + b + l, f, q);
    TotalConcat([PoolOut(q)] + a + b, l, q);
    TotalConcat([PoolOut(q)] + a, b, q);
    TotalConcat([PoolOut(q)], a, q);
    TotalOne(PoolOut(q), q);
  }

  // ----- conservation -----

  datatype Action =
    | SwapAction(a2b: bool, dx: Amount)
    | AddAction(doli: Amount, tokens: Amount)
    | RemoveAction(burn: Amount)

  function SwapOf(p: Pool, a2b: bool, dx: Amount): Option<(Amount, Amount, Amount)> {
    if a2b then ComputeSwap(p.ra, p.rb, dx, p.fee) else ComputeSwap(p.rb, p.ra, dx, p.fee)
  }

  function Swapped(p: Pool, a2b: bool, dx: Amount): Option<Pool> {
    match SwapOf(p, a2b, dx)
    case None => None
    case Some(s) => Some(if a2b then p.(ra := s.1, rb := s.2) else p.(ra := s.2, rb := s.1))
  }

  function Enlarged(p: Pool, d: Amount, t: Amount): Option<Pool> {
    match LpShares(d, t, p.ra, p.rb, p.shares)
    case None => None
    case Some(m) =>
      if p.ra + d < TWO64 && p.rb + t < TWO64 && p.shares + m < TWO64
      then Some(p.(ra := p.ra + d, rb := p.rb + t, shares := p.shares + m)) else None
  }

  function Reduced(p: Pool, s: Amount): Option<Pool> {
    match RemoveAmounts(s, p.ra, p.rb, p.shares)
    case None => None
    case Some(out) => Some(p.(ra := p.ra - out.0, rb := p.rb - out.1, shares := p.shares - s))
  }

  /** The pool an action leads to, if the pool mathematics allows it and nothing leaves 64 bits. */
  function Next(p: Pool, a: Action): Option<Pool> {
    match a
    case SwapAction(a2b, dx) => Swapped(p, a2b, dx)
    case AddAction(d, t) => Enlarged(p, d, t)
    case RemoveAction(s) => Reduced(p, s)
  }

  function KindOf(a: Action): Kind {
    match a case SwapAction(_, _) => Swap case AddAction(_, _) => AddLiquidity case RemoveAction(_) => RemoveLiquidity
  }

  function FeeOf(a: Action): nat { if a.AddAction? then POOL_AND_SHARE_FEE else POOL_FEE }

  /** The pool first, and behind it no other pool and no foreign token. */
  predicate PoolFirst(os: seq<Output>, q: Pool) {
    && |os| > 0 && os[0] == PoolOut(q)
    && forall i :: 1 <= i < |os| ==> !os[i].PoolOut? && (os[i].TokenOut? ==> os[i].asset == q.assetB)
  }

  /**
   * The transaction moves pool `p` to `q` and conserves every asset: DOLI in equals DOLI out plus the
   * fee, tokens in equal tokens out, and the pool's share count moves with the shares spent and created.
   */
  ghost predicate Conserves(tx: Tx, p: Pool, q: Pool, fee: nat) { Moves(tx, p, q, fee, NOTHING_OVER) }

  /** By how many times 2^64 more of each asset goes in than comes out. */
  datatype Excess = Excess(doli: int, token: int, share: int)

  const NOTHING_OVER := Excess(0, 0, 0)

  /** The same but for what is over. */
  ghost predicate Moves(tx: Tx, p: Pool, q: Pool, fee: nat, x: Excess) {
    var i, o := Total(OutputsOf(tx.inputs), p), Total(tx.outputs, p);
    && q.id == p.id && q.assetB == p.assetB && q.fee == p.fee && q.twap == p.twap
    && |tx.inputs| > 0 && tx.inputs[0].output == PoolOut(p)
    && PoolFirst(tx.outputs, q)
    && i.doli == o.doli + fee + x.doli * TWO64 && i.token == o.token + x.token * TWO64
    && q.shares + i.lp == p.shares + o.lp + x.share * TWO64
  }

  /** What is over is determined by the transaction. */
  lemma ExcessUnique(tx: Tx, p: Pool, q: Pool, fee: nat, x: Excess, y: Excess)
    requires Moves(tx, p, q, fee, x) && Moves(tx, p, q, fee, y)
    ensures x == y
  {
    hide Total, OutputsOf, PoolFirst;
  }

  /** What the coins picked for an action leave over. */
  function ExcessOf(p: Pool, utxos: seq<Coin>, a: Action): Excess {
    var doli, token, share := Coins(utxos, p, Doli), Coins(utxos, p, Token), Coins(utxos, p, Share);
    match a
    case SwapAction(true, dx) => Excess(Over(doli, dx + POOL_FEE), 0, 0)
    case SwapAction(false, dx) => Excess(Over(doli, POOL_FEE), Over(token, dx), 0)
    case AddAction(d, t) => Excess(Over(doli, d + POOL_AND_SHARE_FEE), Over(token, t), 0)
    case RemoveAction(s) => Excess(Over(doli, POOL_FEE), 0, Over(share, s))
  }

  /** A transaction for `a` with that excess; a removal spends no tokens but the pool's own. */
  ghost predicate BuiltWith(tx: Tx, p: Pool, a: Action, x: Excess) {
    && tx.kind == KindOf(a) && Next(p, a).Some?
    && Moves(tx, p, Next(p, a).value, FeeOf(a), x)
    && (a.RemoveAction? ==> Total(OutputsOf(tx.inputs), p).token == p.rb)
  }

  /** A conserving transaction for `a`. */
  ghost predicate BuiltFor(tx: Tx, p: Pool, a: Action) { BuiltWith(tx, p, a, NOTHING_OVER) }

  /** What the CLI writes for `a` from a wallet; where a deposit's pool leaves 64 bits, with the wrapped pool. */
  ghost predicate Written(tx: Tx, p: Pool, utxos: seq<Coin>, a: Action) {
    if Next(p, a).Some? then BuiltWith(tx, p, a, ExcessOf(p, utxos, a))
    else
      && a.AddAction? && tx.kind == AddLiquidity
      && |tx.inputs| > 0 && tx.inputs[0].output == PoolOut(p)
      && |tx.outputs| > 0 && tx.outputs[0] == PoolOut(Overgrown(p, a.doli, a.tokens))
  }

  /** The pool a deposit writes where a sum leaves 64 bits. */
  function Overgrown(p: Pool, d: Amount, t: Amount): Pool {
    match LpShares(d, t, p.ra, p.rb, p.shares)
    case None => p
    case Some(m) => p.(ra := Wrap(p.ra + d), rb := Wrap(p.rb + t), shares := Wrap(p.shares + m))
  }

  /** A transaction written for an action conserves exactly when nothing is over. */
  lemma WrittenExact(tx: Tx, p: Pool, utxos: seq<Coin>, a: Action)
    requires Written(tx, p, utxos, a)
    ensures BuiltFor(tx, p, a) <==> Next(p, a).Some? && ExcessOf(p, utxos, a) == NOTHING_OVER
  {
    hide Next, ExcessOf, Moves, Overgrown;
    if BuiltFor(tx, p, a) { ExcessUnique(tx, p, Next(p, a).value, FeeOf(a), ExcessOf(p, utxos, a), NOTHING_OVER); }
  }

  /** No total of the wallet's coins of one class leaves 64 bits. */
  ghost predicate Fits(p: Pool, utxos: seq<Coin>) {
    && Sum(Coins(utxos, p, Doli)) < TWO64
    && Sum(Coins(utxos, p, Token)) < TWO64
    && Sum(Coins(utxos, p, Share)) < TWO64
  }

  lemma InputWorth(pool: Coin, p: Pool, xs: seq<Coin>, ys: seq<Coin>, vx: Value, vy: Value)
    requires pool.output == PoolOut(p)
    requires Total(OutputsOf(xs), p) == vx && Total(OutputsOf(ys), p) == vy
    ensures Total(OutputsOf([pool] + xs + ys), p) == Value(p.ra, p.rb, 0).Plus(vx).Plus(vy)
  {
    OutputsConcat([pool] + xs, ys);
    OutputsConcat([pool], xs);
    assert OutputsOf([pool]) == [PoolOut(p)];
    TotalConcat(OutputsOf([pool] + xs), OutputsOf(ys), p);
    TotalConcat([PoolOut(p)], OutputsOf(xs), p);
    TotalOne(PoolOut(p), p);
  }

  /** Of a transaction of the right shape only the three sums are left to compare. */
  lemma SumsDecide(tx: Tx, p: Pool, q: Pool, fee: nat, x: Excess, i: Value, o: Value)
    requires q == p.(ra := q.ra, rb := q.rb, shares := q.shares)
    requires |tx.inputs| > 0 && tx.inputs[0].output == PoolOut(p) && PoolFirst(tx.outputs, q)
    requires i == Total(OutputsOf(tx.inputs), p) && o == Total(tx.outputs, p)
    ensures Moves(tx, p, q, fee, x)
            <==> && i.doli == o.doli + fee + x.doli * TWO64 && i.token == o.token + x.token * TWO64
                 && q.shares + i.lp == p.shares + o.lp + x.share * TWO64
  {
    hide Total, OutputsOf, PoolFirst;
  }

  // ----- the builders -----

  /** The wallet's coins of one class cover what is needed, as the source adds them up. */
  predicate Covers(utxos: seq<Coin>, p: Pool, k: Class, needed: nat) {
    Wrap(Sum(Chosen(Coins(utxos, p, k), Wrap(needed)))) >= Wrap(needed)
  }

  /** Where nothing leaves 64 bits: the wallet has that much of it. */
  lemma CoversExact(utxos: seq<Coin>, p: Pool, k: Class, needed: nat)
    requires Sum(Coins(utxos, p, k)) < TWO64 && needed < TWO64
    ensures Covers(utxos, p, k, needed) <==> Sum(Coins(utxos, p, k)) >= needed
  {
    var cs := Coins(utxos, p, k);
    AlreadySmall(needed);
    var sel := Chosen(cs, needed);
    ChosenExact(cs, needed, sel);
    SumPrefix(cs, sel);
    AlreadySmall(Sum(sel));
    hide Sum, Coins, Chosen, Wrap;
  }

  /** Everything `pool create` asks for before it builds. */
  predicate CreateAllowed(p: Pool, exists_: bool, utxos: seq<Coin>) {
    && p.ra > 0 && p.rb > 0 && p.fee <= MAX_FEE_BPS && !exists_
    && p.shares == InitialShares(p.ra, p.rb) > MINIMUM_LIQUIDITY
    && Covers(utxos, p, Doli, p.ra + POOL_AND_SHARE_FEE) && Covers(utxos, p, Token, p.rb)
  }

  /** What `pool create` writes from a wallet: the pool first, the coins chosen, and the excess of both assets. */
  ghost predicate WrittenCreate(tx: Tx, p: Pool, utxos: seq<Coin>) {
    var i, o := Total(OutputsOf(tx.inputs), p), Total(tx.outputs, p);
    && tx.kind == CreatePool && PoolFirst(tx.outputs, p) && (forall c :: c in tx.inputs ==> !c.output.PoolOut?)
    && i == Value(Sum(Chosen(Coins(utxos, p, Doli), Wrap(p.ra + POOL_AND_SHARE_FEE))),
                  Sum(Chosen(Coins(utxos, p, Token), Wrap(p.rb))), 0)
    && i.doli == o.doli + POOL_AND_SHARE_FEE + Over(Coins(utxos, p, Doli), p.ra + POOL_AND_SHARE_FEE) * TWO64
    && i.token == o.token + Over(Coins(utxos, p, Token), p.rb) * TWO64
  }

  lemma NoPoolChosen(all: seq<Coin>, p: Pool, k: Class, required: nat)
    ensures forall c :: c in Chosen(Coins(all, p, k), required) ==> !c.output.PoolOut?
  {
    forall c | c in Chosen(Coins(all, p, k), required) ensures !c.output.PoolOut? { CoinsHold(all, p, k, c); }
  }

  /**
   * Create: the wallet funds the first reserves, MINIMUM_LIQUIDITY shares stay locked. DOLI and tokens
   * are conserved exactly when the coins picked overflow just as often as what they are picked for.
   */
  method BuildCreate(p0: Pool, exists_: bool, utxos: seq<Coin>) returns (r: Result<Tx>)
    requires p0.shares == 0
    ensures r.Err? && r.error.ZeroAmount? <==> p0.ra == 0 || p0.rb == 0
    ensures r.Ok? <==> CreateAllowed(p0.(shares := InitialShares(p0.ra, p0.rb)), exists_, utxos)
    ensures r.Ok? <==> && p0.ra > 0 && p0.rb > 0 && p0.fee <= 1000 && !exists_ && InitialShares(p0.ra, p0.rb) > 1000
                       && Covers(utxos, p0, Doli, p0.ra + 2) && Covers(utxos, p0, Token, p0.rb)
    ensures r.Ok? ==>
              var p := p0.(shares := InitialShares(p0.ra, p0.rb));
              && r.value.kind == CreatePool && PoolFirst(r.value.outputs, p) && |r.value.outputs| >= 2
              && r.value.outputs[1] == LpOut(p.shares - MINIMUM_LIQUIDITY, p.id)
              && var i, o := Total(OutputsOf(r.value.inputs), p), Total(r.value.outputs, p);
                 && i.lp == 0 && p.shares == MINIMUM_LIQUIDITY + o.lp
                 && (i.doli == o.doli + POOL_AND_SHARE_FEE
                     <==> Balanced(Coins(utxos, p, Doli), p.ra + POOL_AND_SHARE_FEE))
                 && (i.token == o.token <==> Balanced(Coins(utxos, p, Token), p.rb))
    ensures r.Ok? ==> WrittenCreate(r.value, p0.(shares := InitialShares(p0.ra, p0.rb)), utxos)
  {
    hide InitialShares, Total, OutputsOf, Sum, Coins, CreateOutputs, Chosen, Worth, Wrap, Over, PoolFirst;
    FeesAreTwo();
    CoversApart(utxos, p0, InitialShares(p0.ra, p0.rb));
    if p0.ra == 0 || p0.rb == 0 { return Err(ZeroAmount); }
    if p0.fee > MAX_FEE_BPS { return Err(FeeTooHigh); }
    if exists_ { return Err(PoolExists); }
    var shares := ComputeInitialLpShares(p0.ra, p0.rb);
    if CreatorShares(shares).Err? { return Err(TooSmall); }
    var creator := CreatorShares(shares).value;
    var p := p0.(shares := shares);
    AlreadySmall(p.rb);
    var required := Wrap(p.ra + POOL_AND_SHARE_FEE);
    var sel, total := Select(Coins(utxos, p, Doli), required);
    if total < required { return Err(InsufficientDoli); }
    var tsel, ttotal := Select(Coins(utxos, p, Token), p.rb);
    if ttotal < p.rb { return Err(InsufficientTokens); }
    r := Ok(Tx(CreatePool, sel + tsel, CreateOutputs(p, creator, total - required, ttotal - p.rb)));
    CreateShape(p, creator, total - required, ttotal - p.rb);
    CreateWorth(p, creator, total - required, ttotal - p.rb);
    ChosenWorth(utxos, p, Doli, required);
    ChosenWorth(utxos, p, Token, p.rb);
    NoPoolChosen(utxos, p, Doli, required);
    NoPoolChosen(utxos, p, Token, p.rb);
    OutputsConcat(sel, tsel);
    TotalConcat(OutputsOf(sel), OutputsOf(tsel), p);
    ChangeExact(Coins(utxos, p, Doli), p.ra + POOL_AND_SHARE_FEE);
    ChangeExact(Coins(utxos, p, Token), p.rb);
  }

  /** Coins are told by the pool's id and token alone. */
  lemma {:induction false} SameCoins(cs: seq<Coin>, p: Pool, q: Pool, k: Class)
    requires q.id == p.id && q.assetB == p.assetB
    ensures Coins(cs, p, k) == Coins(cs, q, k)
  {
    if cs != [] { SameCoins(cs[1..], p, q, k); }
  }

  lemma CoversApart(utxos: seq<Coin>, p: Pool, shares: Amount)
    ensures forall k, needed :: Covers(utxos, p, k, needed) <==> Covers(utxos, p.(shares := shares), k, needed)
  {
    forall k { SameCoins(utxos, p, p.(shares := shares), k); }
    hide Coins;
  }

  lemma AlreadySmall(v: Amount)
    ensures Wrap(v) == v
  {
  }

  lemma CreateShape(p: Pool, creator: Amount, doliChange: Amount, tokenChange: Amount)
    ensures var os := CreateOutputs(p, creator, doliChange, tokenChange);
            PoolFirst(os, p) && |os| >= 2 && os[1] == LpOut(creator, p.id)
  {
  }

  /** A wallet of one unit of DOLI funds a pool that states 2^64 - 1 of them: the requirement wraps to one unit. */
  lemma CreateUnderfunded(p: Pool, utxos: seq<Coin>)
    requires p.ra == TWO64 - 1 && p.rb == 1 && p.fee <= MAX_FEE_BPS && p.shares == InitialShares(p.ra, p.rb)
    requires utxos == [Coin(0, NormalOut(1), true), Coin(1, TokenOut(1, p.assetB), true)]
    ensures CreateAllowed(p, false, utxos) && !Balanced(Coins(utxos, p, Doli), p.ra + POOL_AND_SHARE_FEE)
    ensures Total(OutputsOf(Coins(utxos, p, Doli)), p).doli == 1
  {
    hide InitialShares, Total, Coins, Sum, Chosen, OutputsOf, Worth, Wrap, Carry;
    var c, d := utxos[0], utxos[1];
    ManyShares(p.ra);
    ApartCoins(p, c, d);
    OneChosen(c);
    OneChosen(d);
    NeedWraps();
    OutputsOfOne(c);
    OneWorth(c, p, Doli);
  }

  lemma NeedWraps()
    ensures Wrap(TWO64 - 1 + POOL_AND_SHARE_FEE) == 1 == Wrap(1)
    ensures Carry(TWO64 - 1 + POOL_AND_SHARE_FEE) == 1 && Carry(1) == 0
  {
  }

  lemma OutputsOfOne(c: Coin)
    ensures OutputsOf([c]) == [c.output]
  {
  }

  lemma ApartCoins(p: Pool, c: Coin, d: Coin)
    requires Holds(c, p, Doli) && Holds(d, p, Token)
    ensures Coins([c, d], p, Doli) == [c] && Coins([c, d], p, Token) == [d]
  {
    assert [c, d][1..] == [d] && [d][1..] == [];
    assert Coins([d], p, Doli) == [] && Coins([d], p, Token) == [d];
  }

  lemma ManyShares(n: Amount)
    requires n == TWO64 - 1
    ensures InitialShares(n, 1) > MINIMUM_LIQUIDITY
  {
    var r := Root(n);
    if r <= MINIMUM_LIQUIDITY { SquareMonotone(r + 1, MINIMUM_LIQUIDITY + 1); }
  }

  lemma OneChosen(c: Coin)
    requires AmountOf(c) == 1
    ensures Sum([c]) == 1 && Chosen([c], 1) == [c]
  {
    assert [c][..0] == [] && [c][..1] == [c];
    assert Sum([c]) == Sum([c][..0]) + AmountOf(c);
  }

  /** What a swap takes from the wallet: the amount with the fee, or the tokens and the fee apart. */
  predicate SwapCovered(p: Pool, utxos: seq<Coin>, a2b: bool, dx: Amount) {
    if a2b then Covers(utxos, p, Doli, dx + POOL_FEE)
    else Covers(utxos, p, Token, dx) && Covers(utxos, p, Doli, POOL_FEE)
  }

  predicate SwapBalanced(p: Pool, utxos: seq<Coin>, a2b: bool, dx: Amount) {
    if a2b then Balanced(Coins(utxos, p, Doli), dx + POOL_FEE)
    else Balanced(Coins(utxos, p, Token), dx) && Balanced(Coins(utxos, p, Doli), POOL_FEE)
  }

  /** dy is what the pool pays for dx at its fee. */
  ghost predicate Price(ra: Amount, rb: Amount, dx: Amount, fee: FeeBps, dy: nat) {
    dy > 0 && ra + dx < TWO64 && exists e: nat :: AfterFee(dx, fee, e) && Pays(ra, rb, e, dy)
  }

  /** The pool with its reserves moved, then the proceeds at the pool's price: tokens for DOLI or DOLI for tokens. */
  ghost predicate SwapWritten(p: Pool, a2b: bool, dx: Amount, os: seq<Output>) {
    && |os| >= 2
    && if a2b then
         os[1].TokenOut? && os[1].asset == p.assetB && Price(p.ra, p.rb, dx, p.fee, os[1].tokens)
         && os[0] == PoolOut(p.(ra := p.ra + dx, rb := p.rb - os[1].tokens))
       else
         os[1].NormalOut? && Price(p.rb, p.ra, dx, p.fee, os[1].amount)
         && os[0] == PoolOut(p.(ra := p.ra - os[1].amount, rb := p.rb + dx))
  }

  lemma SwapOutputsExact(p: Pool, a2b: bool, dx: Amount, doliChange: Amount, tokenChange: Amount)
    requires SwapOf(p, a2b, dx).Some?
    ensures SwapWritten(p, a2b, dx, SwapOutputs(Swapped(p, a2b, dx).value, a2b, SwapOf(p, a2b, dx).value.0, doliChange,
                                                tokenChange))
  {
    var e, s := Effective(dx, p.fee), SwapOf(p, a2b, dx).value;
    EffectiveExact(dx, p.fee, e);
    var (ra, rb) := if a2b then (p.ra, p.rb) else (p.rb, p.ra);
    SwapExact(ra, rb, dx, p.fee, e, s.0);
    hide ComputeSwap, Pays, AfterFee;
    assert Price(ra, rb, dx, p.fee, s.0);
  }

  /** What is asked for before a swap is built: a price of at least `minOut`, and coins for the input and the fee. */
  lemma SwapAsked(p: Pool, utxos: seq<Coin>, a2b: bool, dx: Amount, minOut: Amount)
    ensures SwapOf(p, a2b, dx).Some? && SwapOf(p, a2b, dx).value.0 >= minOut
            <==> exists y: Amount :: y >= minOut && if a2b then Price(p.ra, p.rb, dx, p.fee, y)
                                                    else Price(p.rb, p.ra, dx, p.fee, y)
    ensures SwapCovered(p, utxos, a2b, dx)
            <==> if a2b then Covers(utxos, p, Doli, dx + 2)
                 else Covers(utxos, p, Token, dx) && Covers(utxos, p, Doli, 2)
  {
    var (ra, rb) := if a2b then (p.ra, p.rb) else (p.rb, p.ra);
    forall y: Amount
      ensures Price(ra, rb, dx, p.fee, y) <==> SwapOf(p, a2b, dx).Some? && SwapOf(p, a2b, dx).value.0 == y
    {
      PriceExact(ra, rb, dx, p.fee, y);
    }
    hide Price, ComputeSwap, Covers;
    if SwapOf(p, a2b, dx).Some? { assert Price(ra, rb, dx, p.fee, SwapOf(p, a2b, dx).value.0); }
  }

  lemma PriceExact(ra: Amount, rb: Amount, dx: Amount, fee: FeeBps, y: Amount)
    ensures Price(ra, rb, dx, fee, y)
            <==> ComputeSwap(ra, rb, dx, fee).Some? && ComputeSwap(ra, rb, dx, fee).value.0 == y
  {
    forall e: nat ensures AfterFee(dx, fee, e) ==> e == Effective(dx, fee) { EffectiveExact(dx, fee, e); }
    var e := Effective(dx, fee);
    EffectiveExact(dx, fee, e);
    SwapExact(ra, rb, dx, fee, e, y);
    if y > 0 && (ra == 0 || e == 0) { PaysNothing(ra, rb, e, y); }
    hide ComputeSwap, Pays, AfterFee;
  }

  /** Without a reserve or an input nothing is paid. */
  lemma PaysNothing(ra: nat, rb: nat, e: nat, dy: nat)
    requires dy > 0 && (ra == 0 || e == 0)
    ensures !Pays(ra, rb, e, dy)
  {
    if ra > 0 && dy < rb {
      assert (ra + e) * (rb - dy) == ra * rb - ra * dy;
      MulAtLeast(ra, dy);
    }
  }

  /** Swap: DOLI into tokens or tokens into DOLI, at the pool's own fee, for at least `minOut`. */
  method BuildSwap(pool: Coin, p: Pool, utxos: seq<Coin>, a2b: bool, amountIn: Amount, minOut: Amount)
    returns (r: Result<Tx>)
    requires pool.output == PoolOut(p)
    ensures r.Ok? <==> && amountIn > 0 && SwapOf(p, a2b, amountIn).Some? && SwapOf(p, a2b, amountIn).value.0 >= minOut
                       && SwapCovered(p, utxos, a2b, amountIn)
    ensures r.Ok? <==> && amountIn > 0
                       && (exists y: Amount :: y >= minOut && if a2b then Price(p.ra, p.rb, amountIn, p.fee, y)
                                                              else Price(p.rb, p.ra, amountIn, p.fee, y))
                       && if a2b then Covers(utxos, p, Doli, amountIn + 2)
                          else Covers(utxos, p, Token, amountIn) && Covers(utxos, p, Doli, 2)
    ensures r.Ok? ==> r.value.kind == Swap && Next(p, SwapAction(a2b, amountIn)).Some?
    ensures r.Ok? ==> (BuiltFor(r.value, p, SwapAction(a2b, amountIn)) <==> SwapBalanced(p, utxos, a2b, amountIn))
    ensures r.Ok? ==> Written(r.value, p, utxos, SwapAction(a2b, amountIn))
    ensures r.Ok? ==> SwapWritten(p, a2b, amountIn, r.value.outputs)
  {
    SwapAsked(p, utxos, a2b, amountIn, minOut);
    hide SwapOf, SwapCovered, SwapBalanced, Moves, ExcessOf, SwapWritten, Price, Covers;
    if amountIn == 0 { return Err(ZeroAmount); }
    var s := SwapOf(p, a2b, amountIn);
    if s.None? { return Err(SwapFailed); }
    if s.value.0 < minOut { return Err(Slippage); }
    if a2b {
      r := SwapDoliIn(pool, p, utxos, amountIn);
    } else {
      r := SwapTokensIn(pool, p, utxos, amountIn);
    }
  }

  lemma SwapMoves(p: Pool, a2b: bool, dx: Amount)
    requires SwapOf(p, a2b, dx).Some?
    ensures var q, out := Swapped(p, a2b, dx).value, SwapOf(p, a2b, dx).value.0;
            && q == p.(ra := q.ra, rb := q.rb)
            && (a2b ==> q.ra == p.ra + dx && q.rb == p.rb - out)
            && (!a2b ==> q.rb == p.rb + dx && q.ra == p.ra - out)
            && q.ra * q.rb >= p.ra * p.rb
  {
    hide ComputeSwap;
    if a2b { SwapKeepsProduct(p.ra, p.rb, dx, p.fee); } else { SwapKeepsProduct(p.rb, p.ra, dx, p.fee); }
  }

  method SwapDoliIn(pool: Coin, p: Pool, utxos: seq<Coin>, amountIn: Amount) returns (r: Result<Tx>)
    requires pool.output == PoolOut(p) && SwapOf(p, true, amountIn).Some?
    ensures r.Ok? <==> SwapCovered(p, utxos, true, amountIn)
    ensures r.Ok? ==> Written(r.value, p, utxos, SwapAction(true, amountIn))
    ensures r.Ok? ==> SwapWritten(p, true, amountIn, r.value.outputs)
    ensures r.Ok? ==> (BuiltFor(r.value, p, SwapAction(true, amountIn)) <==> SwapBalanced(p, utxos, true, amountIn))
  {
    hide SwapOf, Total, OutputsOf, Sum, Coins, SwapOutputs, Moves, Chosen, Wrap, Over;
    SwapMoves(p, true, amountIn);
    forall d, t { SwapOutputsExact(p, true, amountIn, d, t); }
    hide SwapWritten;
    var out, q := SwapOf(p, true, amountIn).value.0, Swapped(p, true, amountIn).value;
    hide Swapped;
    var required := Wrap(amountIn + POOL_FEE);
    var sel, total := Select(Coins(utxos, p, Doli), required);
    if total < required { return Err(InsufficientDoli); }
    r := Ok(Tx(Swap, [pool] + sel, SwapOutputs(q, true, out, total - required, 0)));
    ChosenWorth(utxos, p, Doli, required);
    ChangeExact(Coins(utxos, p, Doli), amountIn + POOL_FEE);
    var x := ExcessOf(p, utxos, SwapAction(true, amountIn));
    DoliSwapMoves(pool, p, q, sel, Sum(sel), out, total - required, POOL_FEE, x);
    WrittenExact(r.value, p, utxos, SwapAction(true, amountIn));
  }

  method SwapTokensIn(pool: Coin, p: Pool, utxos: seq<Coin>, amountIn: Amount) returns (r: Result<Tx>)
    requires pool.output == PoolOut(p) && SwapOf(p, false, amountIn).Some?
    ensures r.Ok? <==> SwapCovered(p, utxos, false, amountIn)
    ensures r.Ok? ==> Written(r.value, p, utxos, SwapAction(false, amountIn))
    ensures r.Ok? ==> SwapWritten(p, false, amountIn, r.value.outputs)
    ensures r.Ok? ==> (BuiltFor(r.value, p, SwapAction(false, amountIn)) <==> SwapBalanced(p, utxos, false, amountIn))
  {
    hide SwapOf, Total, OutputsOf, Sum, Coins, SwapOutputs, Moves, Chosen, Wrap, Over;
    SwapMoves(p, false, amountIn);
    forall d, t { SwapOutputsExact(p, false, amountIn, d, t); }
    hide SwapWritten;
    var out, q := SwapOf(p, false, amountIn).value.0, Swapped(p, false, amountIn).value;
    hide Swapped;
    AlreadySmall(amountIn);
    AlreadySmall(POOL_FEE);
    var tsel, ttotal := Select(Coins(utxos, p, Token), amountIn);
    if ttotal < amountIn { return Err(InsufficientTokens); }
    var sel, total := Select(Coins(utxos, p, Doli), POOL_FEE);
    if total < POOL_FEE { return Err(InsufficientDoli); }
    r := Ok(Tx(Swap, [pool] + tsel + sel, SwapOutputs(q, false, out, total - POOL_FEE, ttotal - amountIn)));
    ChosenWorth(utxos, p, Token, amountIn);
    ChosenWorth(utxos, p, Doli, POOL_FEE);
    ChangeExact(Coins(utxos, p, Token), amountIn);
    ChangeExact(Coins(utxos, p, Doli), POOL_FEE);
    var x := ExcessOf(p, utxos, SwapAction(false, amountIn));
    TokenSwapMoves(pool, p, q, tsel, sel, Sum(tsel), Sum(sel), out, total - POOL_FEE, ttotal - amountIn, POOL_FEE, x);
    WrittenExact(r.value, p, utxos, SwapAction(false, amountIn));
  }

  lemma DoliSwapMoves(pool: Coin, p: Pool, q: Pool, sel: seq<Coin>, doli: nat, out: Amount, change: Amount, fee: nat,
                      x: Excess)
    requires pool.output == PoolOut(p) && q == p.(ra := q.ra, rb := q.rb)
    requires Total(OutputsOf(sel), p) == Value(doli, 0, 0)
    ensures Moves(Tx(Swap, [pool] + sel, SwapOutputs(q, true, out, change, 0)), p, q, fee, x)
            <==> p.ra + doli == q.ra + change + fee + x.doli * TWO64
                 && p.rb == q.rb + out + x.token * TWO64 && x.share == 0
  {
    hide Total, OutputsOf, SwapOutputs, Moves, PoolFirst;
    var os := SwapOutputs(q, true, out, change, 0);
    NoWorth(p);
    InputWorth(pool, p, sel, [], Value(doli, 0, 0), Value(0, 0, 0));
    assert [pool] + sel + [] == [pool] + sel;
    SwapWorth(q, true, out, change, 0);
    SameYardstick(os, p, q);
    SwapShape(q, true, out, change, 0);
    SumsDecide(Tx(Swap, [pool] + sel, os), p, q, fee, x, Value(p.ra + doli, p.rb, 0), Total(os, p));
  }

  lemma TokenSwapMoves(pool: Coin, p: Pool, q: Pool, tsel: seq<Coin>, sel: seq<Coin>, tokens: nat, doli: nat,
                       out: Amount, change: Amount, tokenChange: Amount, fee: nat, x: Excess)
    requires pool.output == PoolOut(p) && q == p.(ra := q.ra, rb := q.rb)
    requires Total(OutputsOf(tsel), p) == Value(0, tokens, 0) && Total(OutputsOf(sel), p) == Value(doli, 0, 0)
    ensures Moves(Tx(Swap, [pool] + tsel + sel, SwapOutputs(q, false, out, change, tokenChange)), p, q, fee, x)
            <==> p.ra + doli == q.ra + change + out + fee + x.doli * TWO64
                 && p.rb + tokens == q.rb + tokenChange + x.token * TWO64 && x.share == 0
  {
    hide Total, OutputsOf, SwapOutputs, Moves, PoolFirst;
    var os := SwapOutputs(q, false, out, change, tokenChange);
    InputWorth(pool, p, tsel, sel, Value(0, tokens, 0), Value(doli, 0, 0));
    SwapWorth(q, false, out, change, tokenChange);
    SameYardstick(os, p, q);
    SwapShape(q, false, out, change, tokenChange);
    SumsDecide(Tx(Swap, [pool] + tsel + sel, os), p, q, fee, x, Value(p.ra + doli, p.rb + tokens, 0), Total(os, p));
  }

  lemma SwapShape(q: Pool, a2b: bool, out: Amount, doliChange: Amount, tokenChange: Amount)
    ensures var os := SwapOutputs(q, a2b, out, doliChange, tokenChange); PoolFirst(os, q)
  {
  }

  /** A swap the pool allows needs 2^64 or more with its fee at one input only, which then needs nothing. */
  lemma SwapNeedExact(p: Pool, dx: Amount)
    requires SwapOf(p, true, dx).Some?
    ensures dx + POOL_FEE >= TWO64 <==> p.ra == 1 && dx == TWO64 - POOL_FEE
    ensures dx + POOL_FEE >= TWO64 ==> Wrap(dx + POOL_FEE) == 0
  {
    SwapMoves(p, true, dx);
    hide Swapped;
  }

  /** There the swap is allowed, and built for nothing: any wallet that fits covers a requirement wrapped to zero. */
  lemma SwapUnpaid(p: Pool, utxos: seq<Coin>)
    requires p.ra == 1 && p.rb == 1000 && p.fee == 0 && Fits(p, utxos)
    ensures var dx: Amount := TWO64 - POOL_FEE;
            && SwapOf(p, true, dx).Some? && SwapCovered(p, utxos, true, dx) && !SwapBalanced(p, utxos, true, dx)
  {
    var dx: Amount := TWO64 - POOL_FEE;
    hide Coins, Sum, Chosen, Balanced;
    SmallPool(dx);
    BalancedWhenSmall(Coins(utxos, p, Doli), dx + POOL_FEE);
  }

  lemma SmallPool(dx: Amount)
    requires dx == TWO64 - 2
    ensures ComputeSwap(1, 1000, dx, 0) == Some((999, TWO64 - 1, 1))
  {
  }

  /** Add: a deposit on both sides for newly minted shares. */
  method BuildAdd(pool: Coin, p: Pool, utxos: seq<Coin>, doli: Amount, tokens: Amount) returns (r: Result<Tx>)
    requires pool.output == PoolOut(p)
    ensures r.Ok? <==> && doli > 0 && tokens > 0 && LpShares(doli, tokens, p.ra, p.rb, p.shares).Some?
                       && Covers(utxos, p, Doli, doli + POOL_AND_SHARE_FEE) && Covers(utxos, p, Token, tokens)
    ensures r.Ok? ==> r.value.kind == AddLiquidity
    ensures r.Ok? ==> (BuiltFor(r.value, p, AddAction(doli, tokens))
                       <==> && Next(p, AddAction(doli, tokens)).Some?
                            && Balanced(Coins(utxos, p, Doli), doli + POOL_AND_SHARE_FEE)
                            && Balanced(Coins(utxos, p, Token), tokens))
    ensures r.Ok? ==> Written(r.value, p, utxos, AddAction(doli, tokens))
    ensures r.Ok? ==> var m := LpShares(doli, tokens, p.ra, p.rb, p.shares).value;
                      && |r.value.outputs| >= 2 && r.value.outputs[1] == LpOut(m, p.id)
                      && r.value.outputs[0] == PoolOut(p.(ra := Wrap(p.ra + doli), rb := Wrap(p.rb + tokens),
                                                          shares := Wrap(p.shares + m)))
  {
    hide LpShares, Total, OutputsOf, Sum, Coins, AddOutputs, Moves, Chosen, Over, Wrap;
    if doli == 0 || tokens == 0 { return Err(ZeroAmount); }
    var m := LpShares(doli, tokens, p.ra, p.rb, p.shares);
    if m.None? { return Err(SharesFailed); }
    AlreadySmall(tokens);
    var required := Wrap(doli + POOL_AND_SHARE_FEE);
    var sel, total := Select(Coins(utxos, p, Doli), required);
    if total < required { return Err(InsufficientDoli); }
    var tsel, ttotal := Select(Coins(utxos, p, Token), tokens);
    if ttotal < tokens { return Err(InsufficientTokens); }
    var q := p.(ra := Wrap(p.ra + doli), rb := Wrap(p.rb + tokens), shares := Wrap(p.shares + m.value));
    r := Ok(Tx(AddLiquidity, [pool] + sel + tsel, AddOutputs(q, m.value, total - required, ttotal - tokens)));
    AddShape(q, m.value, total - required, ttotal - tokens);
    if Next(p, AddAction(doli, tokens)).Some? {
      AlreadySmall(p.ra + doli);
      AlreadySmall(p.rb + tokens);
      AlreadySmall(p.shares + m.value);
      ChosenWorth(utxos, p, Doli, required);
      ChosenWorth(utxos, p, Token, tokens);
      ChangeExact(Coins(utxos, p, Doli), doli + POOL_AND_SHARE_FEE);
      ChangeExact(Coins(utxos, p, Token), tokens);
      AddMoves(pool, p, q, sel, tsel, Sum(sel), Sum(tsel), m.value, total - required, ttotal - tokens,
               POOL_AND_SHARE_FEE, ExcessOf(p, utxos, AddAction(doli, tokens)));
    }
    WrittenExact(r.value, p, utxos, AddAction(doli, tokens));
  }

  lemma AddMoves(pool: Coin, p: Pool, q: Pool, xs: seq<Coin>, ys: seq<Coin>, doli: nat, tokens: nat,
                 minted: Amount, doliChange: Amount, tokenChange: Amount, fee: nat, x: Excess)
    requires pool.output == PoolOut(p)
    requires q == p.(ra := q.ra, rb := q.rb, shares := q.shares) && q.shares == p.shares + minted
    requires Total(OutputsOf(xs), p) == Value(doli, 0, 0) && Total(OutputsOf(ys), p) == Value(0, tokens, 0)
    ensures Moves(Tx(AddLiquidity, [pool] + xs + ys, AddOutputs(q, minted, doliChange, tokenChange)), p, q, fee, x)
            <==> p.ra + doli == q.ra + doliChange + fee + x.doli * TWO64
                 && p.rb + tokens == q.rb + tokenChange + x.token * TWO64 && x.share == 0
  {
    hide Total, OutputsOf, AddOutputs, Moves, PoolFirst;
    var os := AddOutputs(q, minted, doliChange, tokenChange);
    InputWorth(pool, p, xs, ys, Value(doli, 0, 0), Value(0, tokens, 0));
    AddWorth(p, q, minted, doliChange, tokenChange);
    AddShape(q, minted, doliChange, tokenChange);
    SumsDecide(Tx(AddLiquidity, [pool] + xs + ys, os), p, q, fee, x, Value(p.ra + doli, p.rb + tokens, 0),
               Total(os, p));
  }

  lemma AddShape(q: Pool, minted: Amount, doliChange: Amount, tokenChange: Amount)
    ensures var os := AddOutputs(q, minted, doliChange, tokenChange);
            PoolFirst(os, q) && |os| >= 2 && os[1] == LpOut(minted, q.id)
  {
  }

  /** Remove: shares burned for their part of both reserves. */
  method BuildRemove(pool: Coin, p: Pool, utxos: seq<Coin>, burn: Amount, minDoli: Amount, minTokens: Amount)
    returns (r: Result<Tx>)
    requires pool.output == PoolOut(p)
    ensures r.Ok? <==> var m := RemoveAmounts(burn, p.ra, p.rb, p.shares);
                       && m.Some? && m.value.0 >= minDoli && m.value.1 >= minTokens
                       && Covers(utxos, p, Share, burn) && Covers(utxos, p, Doli, POOL_FEE)
    ensures r.Ok? ==> r.value.kind == RemoveLiquidity && Next(p, RemoveAction(burn)).Some?
    ensures r.Ok? ==> (BuiltFor(r.value, p, RemoveAction(burn))
                       <==> Balanced(Coins(utxos, p, Share), burn) && Balanced(Coins(utxos, p, Doli), POOL_FEE))
    ensures r.Ok? ==> Written(r.value, p, utxos, RemoveAction(burn))
    ensures r.Ok? ==> var (da, db) := RemoveAmounts(burn, p.ra, p.rb, p.shares).value;
                      && r.value.outputs != []
                      && r.value.outputs[0] == PoolOut(p.(ra := p.ra - da, rb := p.rb - db, shares := p.shares - burn))
                      && (da > 0 ==> NormalOut(da) in r.value.outputs)
                      && (db > 0 ==> TokenOut(db, p.assetB) in r.value.outputs)
  {
    hide RemoveAmounts, Total, OutputsOf, Sum, Coins, RemoveOutputs, Chosen, Over, Wrap, Moves;
    RemoveRefused(burn, p);
    if burn == 0 { return Err(ZeroAmount); }
    if burn > p.shares { return Err(BurnTooLarge); }
    var m := RemoveAmounts(burn, p.ra, p.rb, p.shares);
    if m.None? { return Err(RemovalFailed); }
    BurnFair(burn, p.ra, p.rb, p.shares);
    var (da, db) := m.value;
    if da < minDoli || db < minTokens { return Err(Slippage); }
    AlreadySmall(burn);
    AlreadySmall(POOL_FEE);
    var lsel, ltotal := Select(Coins(utxos, p, Share), burn);
    if ltotal < burn { return Err(InsufficientShares); }
    var sel, total := Select(Coins(utxos, p, Doli), POOL_FEE);
    if total < POOL_FEE { return Err(InsufficientDoli); }
    var q := p.(ra := p.ra - da, rb := p.rb - db, shares := p.shares - burn);
    r := Ok(Tx(RemoveLiquidity, [pool] + lsel + sel, RemoveOutputs(q, da, db, ltotal - burn, total - POOL_FEE)));
    ChosenWorth(utxos, p, Share, burn);
    ChosenWorth(utxos, p, Doli, POOL_FEE);
    ChangeExact(Coins(utxos, p, Share), burn);
    ChangeExact(Coins(utxos, p, Doli), POOL_FEE);
    RemoveShape(q, da, db, ltotal - burn, total - POOL_FEE);
    RemovePays(q, da, db, ltotal - burn, total - POOL_FEE);
    RemoveMoves(pool, p, q, lsel, sel, Sum(lsel), Sum(sel), da, db, ltotal - burn, total - POOL_FEE, POOL_FEE,
                ExcessOf(p, utxos, RemoveAction(burn)));
    WrittenExact(r.value, p, utxos, RemoveAction(burn));
  }

  lemma RemoveRefused(burn: Amount, p: Pool)
    ensures burn == 0 || burn > p.shares ==> RemoveAmounts(burn, p.ra, p.rb, p.shares).None?
  {
  }

  lemma RemoveMoves(pool: Coin, p: Pool, q: Pool, lsel: seq<Coin>, sel: seq<Coin>, shares: nat, doli: nat,
                    da: Amount, db: Amount, lpChange: Amount, change: Amount, fee: nat, x: Excess)
    requires pool.output == PoolOut(p) && q == p.(ra := q.ra, rb := q.rb, shares := q.shares)
    requires Total(OutputsOf(lsel), p) == Value(0, 0, shares) && Total(OutputsOf(sel), p) == Value(doli, 0, 0)
    ensures var tx := Tx(RemoveLiquidity, [pool] + lsel + sel, RemoveOutputs(q, da, db, lpChange, change));
            && Total(OutputsOf(tx.inputs), p).token == p.rb
            && (Moves(tx, p, q, fee, x)
                <==> p.ra + doli == q.ra + da + change + fee + x.doli * TWO64
                     && p.rb == q.rb + db + x.token * TWO64
                     && q.shares + shares == p.shares + lpChange + x.share * TWO64)
  {
    hide Total, OutputsOf, RemoveOutputs, Moves, PoolFirst;
    var os := RemoveOutputs(q, da, db, lpChange, change);
    InputWorth(pool, p, lsel, sel, Value(0, 0, shares), Value(doli, 0, 0));
    RemoveWorth(q, da, db, lpChange, change);
    SameYardstick(os, p, q);
    RemoveShape(q, da, db, lpChange, change);
    SumsDecide(Tx(RemoveLiquidity, [pool] + lsel + sel, os), p, q, fee, x, Value(p.ra + doli, p.rb, shares),
               Total(os, p));
  }

  lemma RemoveShape(q: Pool, da: Amount, db: Amount, lpChange: Amount, feeChange: Amount)
    ensures var os := RemoveOutputs(q, da, db, lpChange, feeChange); PoolFirst(os, q)
  {
  }

  lemma RemovePays(q: Pool, da: Amount, db: Amount, lpChange: Amount, feeChange: Amount)
    ensures var os := RemoveOutputs(q, da, db, lpChange, feeChange);
            (da > 0 ==> NormalOut(da) in os) && (db > 0 ==> TokenOut(db, q.assetB) in os)
  {
    var os := RemoveOutputs(q, da, db, lpChange, feeChange);
    if da > 0 { assert os[1] == NormalOut(da); }
    if db > 0 { assert os[if da > 0 then 2 else 1] == TokenOut(db, q.assetB); }
  }

  // ----- wallets that fit -----

  /**
   * For a wallet none of whose totals leaves 64 bits a swap, an add and a remove are built for their
   * action exactly when the amount with its fee stays below 2^64 (and the enlarged pool does).
   */
  lemma FitsBalanced(p: Pool, utxos: seq<Coin>, dx: Amount, tokens: Amount)
    requires Fits(p, utxos)
    ensures SwapBalanced(p, utxos, true, dx) <==> dx + POOL_FEE < TWO64
    ensures SwapBalanced(p, utxos, false, dx)
    ensures Balanced(Coins(utxos, p, Doli), dx + POOL_AND_SHARE_FEE) <==> dx + POOL_AND_SHARE_FEE < TWO64
    ensures Balanced(Coins(utxos, p, Token), tokens) && Balanced(Coins(utxos, p, Share), tokens)
    ensures Balanced(Coins(utxos, p, Doli), POOL_FEE)
  {
    hide Sum, Coins, Balanced;
    BalancedWhenSmall(Coins(utxos, p, Doli), dx + POOL_FEE);
    BalancedWhenSmall(Coins(utxos, p, Doli), dx + POOL_AND_SHARE_FEE);
    BalancedWhenSmall(Coins(utxos, p, Doli), POOL_FEE);
    BalancedWhenSmall(Coins(utxos, p, Token), dx);
    BalancedWhenSmall(Coins(utxos, p, Token), tokens);
    BalancedWhenSmall(Coins(utxos, p, Share), tokens);
  }
}
