/**
 * The in-memory node of the integration tests (testing/common/mod.rs): adding blocks, reverting them,
 * and what a partition heal by revert-and-adopt comes to.
 */
module TestNode {

  type Hash = nat
  const ZERO: Hash := 0

  datatype Output = Output(amount: nat, owner: Hash)
  datatype Outpoint = Outpoint(txHash: Hash, index: nat)
  datatype Entry = Entry(output: Output, height: nat, isCoinbase: bool, isEpochReward: bool)

  /** Hash results are values of the block and the transaction; BLAKE3 itself is not modelled. */
  datatype Tx = Tx(hash: Hash, inputs: seq<Outpoint>, outputs: seq<Output>, isEpochReward: bool)
  datatype Block = Block(hash: Hash, prevHash: Hash, slot: nat, txs: seq<Tx>)

  type Utxos = map<Outpoint, Entry>

  datatype State = State(blocks: map<Hash, Block>, bestHash: Hash, bestHeight: nat, utxos: Utxos)

  datatype Outcome<+T> = Ok(value: T) | Err

  // ----- effect of a block on the UTXO set -----

  function Created(tx: Tx): set<Outpoint> {
    set i | 0 <= i < |tx.outputs| :: Outpoint(tx.hash, i)
  }

  function Spent(tx: Tx): set<Outpoint> { set o | o in tx.inputs }

  function NewEntries(tx: Tx, n: nat, height: nat, isCoinbase: bool): Utxos
    requires n <= |tx.outputs|
  {
    map o | o in Created(tx) && o.index < n :: Entry(tx.outputs[o.index], height, isCoinbase, tx.isEpochReward)
  }

  lemma NewEntriesStep(tx: Tx, k: nat, height: nat, isCoinbase: bool)
    requires k < |tx.outputs|
    ensures NewEntries(tx, k + 1, height, isCoinbase)
            == var entry := Entry(tx.outputs[k], height, isCoinbase, tx.isEpochReward);
               NewEntries(tx, k, height, isCoinbase)[Outpoint(tx.hash, k) := entry]
  {
  }

  lemma NoEntries(u: Utxos, tx: Tx, height: nat, isCoinbase: bool)
    ensures u + NewEntries(tx, 0, height, isCoinbase) == u
  {
  }

  /** Outputs go in before inputs come out. */
  function ApplyTx(u: Utxos, tx: Tx, height: nat, isCoinbase: bool): Utxos {
    u + NewEntries(tx, |tx.outputs|, height, isCoinbase) - Spent(tx)
  }

  function ApplyTxs(u: Utxos, txs: seq<Tx>, n: nat, height: nat): Utxos
    requires n <= |txs|
  {
    if n == 0 then u
    else ApplyTx(ApplyTxs(u, txs, n - 1, height), txs[n - 1], height, n == 1)
  }

  function ApplyBlock(u: Utxos, b: Block): Utxos {
    ApplyTxs(u, b.txs, |b.txs|, b.slot)
  }

  function CreatedBy(txs: seq<Tx>, n: nat): set<Outpoint>
    requires n <= |txs|
  {
    if n == 0 then {} else CreatedBy(txs, n - 1) + Created(txs[n - 1])
  }

  function TouchedBy(txs: seq<Tx>, n: nat): set<Outpoint>
    requires n <= |txs|
  {
    if n == 0 then {} else TouchedBy(txs, n - 1) + Created(txs[n - 1]) + Spent(txs[n - 1])
  }

  function Outputs(b: Block): set<Outpoint> { CreatedBy(b.txs, |b.txs|) }

  function Touched(b: Block): set<Outpoint> { TouchedBy(b.txs, |b.txs|) }

  lemma ApplyTxExact(v: Utxos, u: Utxos, c: set<Outpoint>, t: set<Outpoint>, tx: Tx, height: nat, isCoinbase: bool)
    requires v - c == u - t
    ensures ApplyTx(v, tx, height, isCoinbase) - (c + Created(tx)) == u - (t + Created(tx) + Spent(tx))
  {
    hide Spent;
    var l := ApplyTx(v, tx, height, isCoinbase) - (c + Created(tx));
    var r := u - (t + Created(tx) + Spent(tx));
    var added := NewEntries(tx, |tx.outputs|, height, isCoinbase).Keys;
    assert added <= Created(tx);
    hide Created, NewEntries;
    forall o ensures o in l <==> o in r {
      assert o in l <==> o in v - c && o !in Created(tx) && o !in Spent(tx);
      assert o in r <==> o in u - t && o !in Created(tx) && o !in Spent(tx);
    }
    forall o | o in l ensures l[o] == r[o] {
      assert l[o] == v[o] == (v - c)[o];
      assert r[o] == u[o] == (u - t)[o];
    }
  }

  lemma NthTx(u: Utxos, txs: seq<Tx>, n: nat, height: nat)
    requires 0 < n <= |txs|
    ensures ApplyTxs(u, txs, n, height) == ApplyTx(ApplyTxs(u, txs, n - 1, height), txs[n - 1], height, n == 1)
    ensures CreatedBy(txs, n) == CreatedBy(txs, n - 1) + Created(txs[n - 1])
    ensures TouchedBy(txs, n) == TouchedBy(txs, n - 1) + Created(txs[n - 1]) + Spent(txs[n - 1])
  {
    hide ApplyTx, Created, Spent;
  }

  lemma NoTx(u: Utxos, txs: seq<Tx>, height: nat)
    ensures ApplyTxs(u, txs, 0, height) == u && CreatedBy(txs, 0) == {} == TouchedBy(txs, 0)
  {
  }

  lemma ApplyNext(u: Utxos, txs: seq<Tx>, n: nat, height: nat)
    requires 0 < n <= |txs|
    requires ApplyTxs(u, txs, n - 1, height) - CreatedBy(txs, n - 1) == u - TouchedBy(txs, n - 1)
    ensures ApplyTxs(u, txs, n, height) - CreatedBy(txs, n) == u - TouchedBy(txs, n)
  {
    NthTx(u, txs, n, height);
    var v, c, t := ApplyTxs(u, txs, n - 1, height), CreatedBy(txs, n - 1), TouchedBy(txs, n - 1);
    var w, d, s := ApplyTxs(u, txs, n, height), CreatedBy(txs, n), TouchedBy(txs, n);
    hide *;
    ApplyTxExact(v, u, c, t, txs[n - 1], height, n == 1);
    assert w - d == w - (c + Created(txs[n - 1]));
    assert u - s == u - (t + Created(txs[n - 1]) + Spent(txs[n - 1]));
  }

  lemma {:induction false} ApplyTxsExact(u: Utxos, txs: seq<Tx>, n: nat, height: nat)
    requires n <= |txs|
    ensures ApplyTxs(u, txs, n, height) - CreatedBy(txs, n) == u - TouchedBy(txs, n)
  {
    hide *;
    if n == 0 {
      NoTx(u, txs, height);
    } else {
      ApplyTxsExact(u, txs, n - 1, height);
      ApplyNext(u, txs, n, height);
    }
  }

  /** Reverting a block leaves the UTXO set without anything the block created or spent. */
  lemma RevertAfterApply(u: Utxos, b: Block)
    ensures ApplyBlock(u, b) - Outputs(b) == u - Touched(b)
  {
    ApplyTxsExact(u, b.txs, |b.txs|, b.slot);
  }

  /** So revert undoes a block exactly when the block neither spends nor overwrites an existing UTXO. */
  lemma RevertUndoesExactly(u: Utxos, b: Block)
    ensures ApplyBlock(u, b) - Outputs(b) == u <==> u.Keys !! Touched(b)
  {
    RevertAfterApply(u, b);
    if o :| o in u.Keys && o in Touched(b) {
      assert o !in u - Touched(b);
    }
  }

  // ----- outpoint by outpoint -----

  predicate Makes(txs: seq<Tx>, n: nat, o: Outpoint)
    requires n < |txs|
  {
    o.txHash == txs[n].hash && o.index < |txs[n].outputs|
  }

  predicate Takes(txs: seq<Tx>, n: nat, o: Outpoint)
    requires n < |txs|
  {
    o in txs[n].inputs
  }

  /** Of the transactions n is the last to create or spend the outpoint. */
  predicate LastTouch(txs: seq<Tx>, n: nat, o: Outpoint) {
    && n < |txs| && (Makes(txs, n, o) || Takes(txs, n, o))
    && forall m :: n < m < |txs| ==> !Makes(txs, m, o) && !Takes(txs, m, o)
  }

  predicate Untouched(txs: seq<Tx>, o: Outpoint) {
    forall m :: 0 <= m < |txs| ==> !Makes(txs, m, o) && !Takes(txs, m, o)
  }

  /**
   * What a block leaves at an outpoint: the output last created there and not spent by the same transaction, with
   * the block's slot as height and the first transaction as coinbase; or, untouched, what was there before.
   */
  ghost predicate Leaves(u: Utxos, txs: seq<Tx>, height: nat, o: Outpoint, e: Entry) {
    || (exists n: nat :: LastTouch(txs, n, o) && !Takes(txs, n, o)
                    && e == Entry(txs[n].outputs[o.index], height, n == 0, txs[n].isEpochReward))
    || (Untouched(txs, o) && o in u && e == u[o])
  }

  lemma ApplyTxAt(u: Utxos, tx: Tx, height: nat, isCoinbase: bool, o: Outpoint)
    ensures var r := ApplyTx(u, tx, height, isCoinbase);
            var made := o.txHash == tx.hash && o.index < |tx.outputs|;
            && (o in r <==> o !in tx.inputs && (made || o in u))
            && (o in r ==> r[o] == if made then Entry(tx.outputs[o.index], height, isCoinbase, tx.isEpochReward)
                                   else u[o])
  {
    assert o in Created(tx) <==> o.txHash == tx.hash && o.index < |tx.outputs|;
  }

  /** A transaction spends its inputs, its own outputs too, and puts in what it then still has. */
  ghost predicate TxLeft(u: Utxos, tx: Tx, height: nat, isCoinbase: bool, r: Utxos) {
    forall o: Outpoint ::
      var made := o.txHash == tx.hash && o.index < |tx.outputs|;
      && (o in r <==> o !in tx.inputs && (made || o in u))
      && (o in r ==> r[o] == if made then Entry(tx.outputs[o.index], height, isCoinbase, tx.isEpochReward) else u[o])
  }

  lemma TxLeaves(u: Utxos, tx: Tx, height: nat, isCoinbase: bool)
    ensures TxLeft(u, tx, height, isCoinbase, ApplyTx(u, tx, height, isCoinbase))
  {
    hide ApplyTx;
    forall o { ApplyTxAt(u, tx, height, isCoinbase, o); }
  }

  lemma NewSet(u: Utxos, tx: Tx, height: nat, isCoinbase: bool)
    ensures u + NewEntries(tx, |tx.outputs|, height, isCoinbase) - Spent(tx) == ApplyTx(u, tx, height, isCoinbase)
  {
  }

  lemma LeavesNext(u: Utxos, txs: seq<Tx>, height: nat, o: Outpoint, e: Entry)
    requires txs != []
    ensures var n := |txs| - 1;
            Leaves(u, txs, height, o, e)
            <==> if Makes(txs, n, o) || Takes(txs, n, o)
                 then !Takes(txs, n, o) && e == Entry(txs[n].outputs[o.index], height, n == 0, txs[n].isEpochReward)
                 else Leaves(u, txs[..n], height, o, e)
  {
    var n, init := |txs| - 1, txs[..|txs| - 1];
    assert forall m :: 0 <= m < n ==>
        (Makes(init, m, o) <==> Makes(txs, m, o)) && (Takes(init, m, o) <==> Takes(txs, m, o));
    hide Makes, Takes;
    if Makes(txs, n, o) || Takes(txs, n, o) {
      assert LastTouch(txs, n, o);
      forall k | LastTouch(txs, k, o) ensures k == n {}
    } else {
      assert Untouched(txs, o) <==> Untouched(init, o);
      forall k: nat ensures LastTouch(txs, k, o) <==> LastTouch(init, k, o) {}
      assert forall k: nat :: k < n ==> init[k] == txs[k];
      if k: nat :| LastTouch(txs, k, o) && !Takes(txs, k, o)
                   && e == Entry(txs[k].outputs[o.index], height, k == 0, txs[k].isEpochReward) {
        assert LastTouch(init, k, o);
      }
      if k: nat :| LastTouch(init, k, o) && !Takes(init, k, o)
                   && e == Entry(init[k].outputs[o.index], height, k == 0, init[k].isEpochReward) {
        assert LastTouch(txs, k, o);
      }
    }
  }

  lemma {:induction false} AppliedExact(u: Utxos, txs: seq<Tx>, height: nat, o: Outpoint, e: Entry)
    ensures var r := ApplyTxs(u, txs, |txs|, height); (o in r && r[o] == e) <==> Leaves(u, txs, height, o, e)
    decreases |txs|
  {
    if txs == [] {
      NoTx(u, txs, height);
      hide ApplyTxs;
    } else {
      hide *;
      AppliedExact(u, txs[..|txs| - 1], height, o, e);
      PrefixApplied(u, txs, |txs| - 1, |txs| - 1, height);
      AppliedNext(u, txs, height, o, e);
    }
  }

  lemma AppliedNext(u: Utxos, txs: seq<Tx>, height: nat, o: Outpoint, e: Entry)
    requires txs != []
    requires var n := |txs| - 1;
             var v := ApplyTxs(u, txs, n, height); (o in v && v[o] == e) <==> Leaves(u, txs[..n], height, o, e)
    ensures var r := ApplyTxs(u, txs, |txs|, height); (o in r && r[o] == e) <==> Leaves(u, txs, height, o, e)
  {
    var n := |txs| - 1;
    hide ApplyTxs, ApplyTx, Leaves;
    NthTx(u, txs, n + 1, height);
    LeavesNext(u, txs, height, o, e);
    ApplyTxAt(ApplyTxs(u, txs, n, height), txs[n], height, n == 0, o);
  }

  lemma {:induction false} PrefixApplied(u: Utxos, txs: seq<Tx>, n: nat, k: nat, height: nat)
    requires k <= n <= |txs|
    ensures ApplyTxs(u, txs[..n], k, height) == ApplyTxs(u, txs, k, height)
    decreases k
  {
    if k > 0 { PrefixApplied(u, txs, n, k - 1, height); }
    hide ApplyTx;
  }

  /** At every outpoint the UTXO set holds exactly what the block leaves there. */
  ghost predicate LeftBy(u: Utxos, b: Block, r: Utxos) {
    forall o, e :: (o in r && r[o] == e) <==> Leaves(u, b.txs, b.slot, o, e)
  }

  lemma BlockLeaves(u: Utxos, b: Block)
    ensures LeftBy(u, b, ApplyBlock(u, b))
  {
    hide Leaves;
    forall o, e ensures (o in ApplyBlock(u, b) && ApplyBlock(u, b)[o] == e) <==> Leaves(u, b.txs, b.slot, o, e) {
      AppliedExact(u, b.txs, b.slot, o, e);
    }
  }

  // ----- add_block and revert_blocks as values -----

  predicate Known(s: State, h: Hash) { h in s.blocks || h == ZERO }

  predicate Admits(s: State, b: Block) {
    (b.slot > 0 ==> Known(s, b.prevHash)) && b.hash !in s.blocks
  }

  function Added(s: State, b: Block): State {
    State(s.blocks[b.hash := b], b.hash, b.slot, ApplyBlock(s.utxos, b))
  }

  function RevertedOne(s: State, b: Block): State {
    s.(bestHash := b.prevHash, bestHeight := if s.bestHeight == 0 then 0 else s.bestHeight - 1,
       utxos := s.utxos - Outputs(b))
  }

  /** The state after up to n reverts, and whether a tip was missing on the way. */
  function Reverted(s: State, n: nat): (State, bool)
    decreases n
  {
    if n == 0 then (s, true)
    else if s.bestHash !in s.blocks then (s, false)
    else Reverted(RevertedOne(s, s.blocks[s.bestHash]), n - 1)
  }

  // ----- what a revert comes to -----

  /** The hash under a chain of blocks taken off the tip. */
  function Under(tip: Hash, bs: seq<Block>): Hash { if bs == [] then tip else bs[|bs| - 1].prevHash }

  /** bs are the blocks under the tip, newest first. */
  predicate Chain(blocks: map<Hash, Block>, tip: Hash, bs: seq<Block>) {
    forall k :: 0 <= k < |bs| ==> Under(tip, bs[..k]) in blocks && blocks[Under(tip, bs[..k])] == bs[k]
  }

  predicate MadeBy(bs: seq<Block>, o: Outpoint) {
    exists k, n :: 0 <= k < |bs| && 0 <= n < |bs[k].txs| && Makes(bs[k].txs, n, o)
  }

  /** Those blocks taken off: tip and height below them, and nothing left of what their transactions created. */
  ghost predicate TakenOff(s: State, bs: seq<Block>, r: State) {
    && Chain(s.blocks, s.bestHash, bs) && r.blocks == s.blocks
    && r.bestHash == Under(s.bestHash, bs)
    && r.bestHeight == (if s.bestHeight < |bs| then 0 else s.bestHeight - |bs|)
    && forall o :: (o in r.utxos <==> o in s.utxos && !MadeBy(bs, o)) && (o in r.utxos ==> r.utxos[o] == s.utxos[o])
  }

  lemma {:induction false} CreatedByExact(txs: seq<Tx>, n: nat, o: Outpoint)
    requires n <= |txs|
    ensures o in CreatedBy(txs, n) <==> exists k :: 0 <= k < n && Makes(txs, k, o)
  {
    if n > 0 {
      CreatedByExact(txs, n - 1, o);
      assert o in Created(txs[n - 1]) <==> Makes(txs, n - 1, o);
    }
  }

  lemma ChainNext(m: map<Hash, Block>, tip: Hash, bs: seq<Block>, b: Block)
    requires Chain(m, tip, bs) && Under(tip, bs) in m && m[Under(tip, bs)] == b
    ensures Chain(m, tip, bs + [b])
  {
    var next := bs + [b];
    assert bs[..|bs|] == bs;
    forall k | 0 <= k < |next| ensures Under(tip, next[..k]) in m && m[Under(tip, next[..k])] == next[k] {
      assert next[..k] == bs[..k];
    }
  }

  lemma MadeNext(bs: seq<Block>, b: Block, o: Outpoint)
    ensures MadeBy(bs + [b], o) <==> MadeBy(bs, o) || o in Outputs(b)
  {
    var next := bs + [b];
    CreatedByExact(b.txs, |b.txs|, o);
    hide Makes;
    if o in Outputs(b) {
      var n :| 0 <= n < |b.txs| && Makes(b.txs, n, o);
      assert next[|bs|] == b && Makes(next[|bs|].txs, n, o);
    }
    if MadeBy(bs, o) {
      var k, n :| 0 <= k < |bs| && 0 <= n < |bs[k].txs| && Makes(bs[k].txs, n, o);
      assert next[k] == bs[k] && Makes(next[k].txs, n, o);
    }
    if MadeBy(next, o) {
      var k, n :| 0 <= k < |next| && 0 <= n < |next[k].txs| && Makes(next[k].txs, n, o);
      if k < |bs| { assert next[k] == bs[k] && Makes(bs[k].txs, n, o); }
    }
  }

  lemma TakenOffNext(s: State, bs: seq<Block>, r: State, b: Block)
    requires TakenOff(s, bs, r) && r.bestHash in r.blocks && r.blocks[r.bestHash] == b
    ensures TakenOff(s, bs + [b], RevertedOne(r, b))
  {
    hide MadeBy, Outputs, Chain;
    ChainNext(s.blocks, s.bestHash, bs, b);
    forall o { MadeNext(bs, b, o); }
  }

  /** A revert takes the blocks under the tip off, n of them or as many as are stored. */
  lemma {:induction false} RevertedExact(s: State, bs: seq<Block>, t: State, n: nat) returns (all: seq<Block>)
    requires TakenOff(s, bs, t)
    ensures var (r, ok) := Reverted(t, n);
            && bs <= all && TakenOff(s, all, r) && |all| <= |bs| + n
            && (ok <==> |all| == |bs| + n) && (!ok ==> Under(s.bestHash, all) !in s.blocks)
    decreases n
  {
    all := bs;
    if n > 0 && t.bestHash in t.blocks {
      var b := t.blocks[t.bestHash];
      TakenOffNext(s, bs, t, b);
      hide TakenOff, RevertedOne;
      all := RevertedExact(s, bs + [b], RevertedOne(t, b), n - 1);
    }
  }

  class Node {
    var blocks: map<Hash, Block>
    var bestHash: Hash
    var bestHeight: nat
    var utxos: Utxos

    constructor ()
      ensures Now() == State(map[], ZERO, 0, map[])
    {
      blocks, bestHash, bestHeight, utxos := map[], ZERO, 0, map[];
    }

    ghost function Now(): State
      reads this
    {
      State(blocks, bestHash, bestHeight, utxos)
    }

    method AddBlock(b: Block) returns (r: Outcome<()>)
      modifies this
      ensures r.Ok? <==> Admits(old(Now()), b)
      ensures Now() == if r.Ok? then Added(old(Now()), b) else old(Now())
      ensures r.Ok? <==> b.hash !in old(blocks) && (b.slot == 0 || b.prevHash == ZERO || b.prevHash in old(blocks))
      ensures r.Ok? ==> blocks == old(blocks)[b.hash := b] && bestHash == b.hash && bestHeight == b.slot
      ensures r.Ok? ==> LeftBy(old(utxos), b, utxos)
    {
      BlockLeaves(utxos, b);
      hide ApplyTx, LeftBy;
      if b.slot > 0 {
        if b.prevHash !in blocks && b.prevHash != ZERO { return Err; }
      }
      if b.hash in blocks { return Err; }
      blocks := blocks[b.hash := b];
      bestHash, bestHeight := b.hash, b.slot;
      for t := 0 to |b.txs|
        invariant blocks == old(blocks)[b.hash := b] && bestHash == b.hash && bestHeight == b.slot
        invariant utxos == ApplyTxs(old(utxos), b.txs, t, b.slot)
      {
        UpdateUtxos(b.txs[t], b.slot, t == 0);
      }
      return Ok(());
    }

    method UpdateUtxos(tx: Tx, height: nat, isCoinbase: bool)
      modifies `utxos
      ensures utxos == ApplyTx(old(utxos), tx, height, isCoinbase)
      ensures TxLeft(old(utxos), tx, height, isCoinbase, utxos)
    {
      TxLeaves(utxos, tx, height, isCoinbase);
      hide NewEntries, Spent, ApplyTx, TxLeft;
      NewSet(utxos, tx, height, isCoinbase);
      AddOutputs(tx, height, isCoinbase);
      SpendInputs(tx);
    }

    method AddOutputs(tx: Tx, height: nat, isCoinbase: bool)
      modifies `utxos
      ensures utxos == old(utxos) + NewEntries(tx, |tx.outputs|, height, isCoinbase)
    {
      NoEntries(utxos, tx, height, isCoinbase);
      hide NewEntries;
      for k := 0 to |tx.outputs|
        invariant utxos == old(utxos) + NewEntries(tx, k, height, isCoinbase)
      {
        NewEntriesStep(tx, k, height, isCoinbase);
        utxos := utxos[Outpoint(tx.hash, k) := Entry(tx.outputs[k], height, isCoinbase, tx.isEpochReward)];
      }
    }

    method SpendInputs(tx: Tx)
      modifies `utxos
      ensures utxos == old(utxos) - Spent(tx)
    {
      for k := 0 to |tx.inputs|
        invariant utxos == old(utxos) - (set o | o in tx.inputs[..k])
      {
        utxos := utxos - {tx.inputs[k]};
      }
      assert tx.inputs[..|tx.inputs|] == tx.inputs;
    }

    method RemoveOutputs(tx: Tx)
      modifies `utxos
      ensures utxos == old(utxos) - Created(tx)
      ensures forall o :: (o in utxos <==> o in old(utxos) && !(o.txHash == tx.hash && o.index < |tx.outputs|))
                          && (o in utxos ==> utxos[o] == old(utxos)[o])
    {
      for k := 0 to |tx.outputs|
        invariant utxos == old(utxos) - (set i | 0 <= i < k :: Outpoint(tx.hash, i))
      {
        utxos := utxos - {Outpoint(tx.hash, k)};
      }
    }

    method RevertBlocks(count: nat) returns (r: Outcome<seq<Block>>)
      modifies this
      ensures Now() == Reverted(old(Now()), count).0
      ensures r.Ok? <==> Reverted(old(Now()), count).1
      ensures r.Ok? ==> |r.value| == count && TakenOff(old(Now()), r.value, Now())
      ensures r.Err? ==> exists bs :: |bs| < count && TakenOff(old(Now()), bs, Now()) && bestHash !in blocks
    {
      hide TakenOff, RevertedOne, Outputs;
      var reverted := [];
      NothingTaken(Now());
      for n := 0 to count
        invariant |reverted| == n && TakenOff(old(Now()), reverted, Now())
        invariant Reverted(Now(), count - n) == Reverted(old(Now()), count)
      {
        if bestHash !in blocks { return Err; }
        var b := blocks[bestHash];
        ghost var before := Now();
        for t := 0 to |b.txs|
          invariant Now() == before.(utxos := before.utxos - CreatedBy(b.txs, t))
        {
          RemoveOutputs(b.txs[t]);
        }
        bestHash := b.prevHash;
        bestHeight := if bestHeight == 0 then 0 else bestHeight - 1;
        AllTaken(before, b, Now());
        TakenOffNext(old(Now()), reverted, before, b);
        reverted := reverted + [b];
      }
      return Ok(reverted);
    }
  }

  lemma NothingTaken(s: State)
    ensures TakenOff(s, [], s)
  {
  }

  lemma AllTaken(s: State, b: Block, r: State)
    requires r == s.(bestHash := b.prevHash, bestHeight := if s.bestHeight == 0 then 0 else s.bestHeight - 1,
                     utxos := s.utxos - CreatedBy(b.txs, |b.txs|))
    ensures r == RevertedOne(s, b)
  {
  }

  // ----- branches -----

  /** Blocks linked from `tip` on, in consecutive slots above `height`. */
  predicate Branch(tip: Hash, height: nat, bs: seq<Block>)
    decreases |bs|
  {
    bs == [] || (bs[0].prevHash == tip && bs[0].slot == height + 1 && Branch(bs[0].hash, height + 1, bs[1..]))
  }

  function AllAdded(s: State, bs: seq<Block>): State
    decreases |bs|
  {
    if bs == [] then s else AllAdded(Added(s, bs[0]), bs[1..])
  }

  predicate AllAdmitted(s: State, bs: seq<Block>)
    decreases |bs|
  {
    bs == [] || (Admits(s, bs[0]) && AllAdmitted(Added(s, bs[0]), bs[1..]))
  }

  function ApplyAll(u: Utxos, bs: seq<Block>): Utxos
    decreases |bs|
  {
    if bs == [] then u else ApplyAll(ApplyBlock(u, bs[0]), bs[1..])
  }

  function OutputsOf(bs: seq<Block>): set<Outpoint> {
    if bs == [] then {} else Outputs(bs[0]) + OutputsOf(bs[1..])
  }

  function TouchedIn(bs: seq<Block>): set<Outpoint> {
    if bs == [] then {} else Touched(bs[0]) + TouchedIn(bs[1..])
  }

  function TipOf(tip: Hash, bs: seq<Block>): Hash { if bs == [] then tip else bs[|bs| - 1].hash }

  /** Distinct hashes, none of them stored before. */
  predicate FreshHashes(s: State, bs: seq<Block>) {
    && (forall i :: 0 <= i < |bs| ==> bs[i].hash !in s.blocks)
    && (forall i, j :: 0 <= i < j < |bs| ==> bs[i].hash != bs[j].hash)
  }

  lemma FirstBlock(s: State, bs: seq<Block>)
    requires bs != [] && Branch(s.bestHash, s.bestHeight, bs) && FreshHashes(s, bs) && Known(s, s.bestHash)
    ensures Admits(s, bs[0])
    ensures var t := Added(s, bs[0]);
            && Branch(t.bestHash, t.bestHeight, bs[1..]) && FreshHashes(t, bs[1..]) && Known(t, t.bestHash)
            && t.bestHeight == s.bestHeight + 1
  {
    hide ApplyBlock;
    assert forall i :: 0 <= i < |bs| - 1 ==> bs[1..][i] == bs[i + 1];
  }

  /** A branch with fresh hashes is admitted block by block. */
  lemma {:induction false} BranchTip(s: State, bs: seq<Block>)
    requires Branch(s.bestHash, s.bestHeight, bs) && FreshHashes(s, bs) && Known(s, s.bestHash)
    ensures AllAdmitted(s, bs)
    ensures var r := AllAdded(s, bs);
            && r.bestHash == TipOf(s.bestHash, bs) && r.bestHeight == s.bestHeight + |bs|
            && r.utxos == ApplyAll(s.utxos, bs)
    decreases |bs|
  {
    if bs != [] {
      FirstBlock(s, bs);
      hide ApplyBlock, Branch, FreshHashes, Admits, Known;
      BranchTip(Added(s, bs[0]), bs[1..]);
    }
  }

  predicate Stored(m: map<Hash, Block>, b: Block) { b.hash in m && m[b.hash] == b }

  /** It leaves the blocks stored before as they were and stores exactly its own. */
  lemma {:induction false} BranchStored(s: State, bs: seq<Block>)
    requires FreshHashes(s, bs)
    ensures var r := AllAdded(s, bs);
            && (forall h :: h in s.blocks ==> h in r.blocks && r.blocks[h] == s.blocks[h])
            && (forall i :: 0 <= i < |bs| ==> Stored(r.blocks, bs[i]))
            && (forall h :: h in r.blocks ==> h in s.blocks || exists i :: 0 <= i < |bs| && bs[i].hash == h)
    decreases |bs|
  {
    if bs != [] {
      var t, rest := Added(s, bs[0]), bs[1..];
      assert t.blocks == s.blocks[bs[0].hash := bs[0]];
      assert AllAdded(s, bs) == AllAdded(t, rest);
      assert forall i :: 0 <= i < |rest| ==> rest[i] == bs[i + 1];
      hide ApplyBlock, Added, AllAdded;
      BranchStored(t, rest);
      var r := AllAdded(t, rest);
      forall i | 0 <= i < |bs| ensures Stored(r.blocks, bs[i]) {
        if i > 0 { assert Stored(r.blocks, rest[i - 1]); } else { assert bs[0].hash in t.blocks; }
      }
      forall h | h in r.blocks && h !in s.blocks ensures exists i :: 0 <= i < |bs| && bs[i].hash == h {
        if h in t.blocks {
          assert bs[0].hash == h;
        } else {
          var i :| 0 <= i < |rest| && rest[i].hash == h;
          assert bs[i + 1].hash == h;
        }
      }
    }
  }

  /** Both: the branch is admitted, its tip is the node's, its blocks are stored and no others. */
  lemma BranchAdmitted(s: State, bs: seq<Block>)
    requires Branch(s.bestHash, s.bestHeight, bs) && FreshHashes(s, bs) && Known(s, s.bestHash)
    ensures AllAdmitted(s, bs)
    ensures var r := AllAdded(s, bs);
            && r.bestHash == TipOf(s.bestHash, bs) && r.bestHeight == s.bestHeight + |bs|
            && r.utxos == ApplyAll(s.utxos, bs)
            && (forall h :: h in s.blocks ==> h in r.blocks && r.blocks[h] == s.blocks[h])
            && (forall i :: 0 <= i < |bs| ==> Stored(r.blocks, bs[i]))
            && (forall h :: h in r.blocks ==> h in s.blocks || exists i :: 0 <= i < |bs| && bs[i].hash == h)
  {
    hide *;
    BranchTip(s, bs);
    BranchStored(s, bs);
  }

  lemma {:induction false} BranchSplit(tip: Hash, height: nat, bs: seq<Block>)
    requires Branch(tip, height, bs) && bs != []
    ensures var n := |bs| - 1;
            && Branch(tip, height, bs[..n])
            && bs[n].prevHash == TipOf(tip, bs[..n]) && bs[n].slot == height + n + 1
    decreases |bs|
  {
    if |bs| > 1 {
      BranchSplit(bs[0].hash, height + 1, bs[1..]);
      var n := |bs| - 1;
      assert bs[1..][..n - 1] == bs[..n][1..];
      assert bs[1..][n - 1] == bs[n];
    }
  }

  lemma {:induction false} OutputsOfLast(bs: seq<Block>)
    requires bs != []
    ensures OutputsOf(bs) == OutputsOf(bs[..|bs| - 1]) + Outputs(bs[|bs| - 1])
  {
    if |bs| > 1 {
      OutputsOfLast(bs[1..]);
      assert bs[1..][..|bs| - 2] == bs[..|bs| - 1][1..];
    }
  }

  /** Reverting a whole stored branch comes back to its root, less everything the branch created. */
  lemma {:induction false} RevertBranch(s: State, tip: Hash, height: nat, bs: seq<Block>)
    requires Branch(tip, height, bs)
    requires forall i :: 0 <= i < |bs| ==> Stored(s.blocks, bs[i])
    requires s.bestHash == TipOf(tip, bs) && s.bestHeight == height + |bs|
    ensures Reverted(s, |bs|) == (s.(bestHash := tip, bestHeight := height, utxos := s.utxos - OutputsOf(bs)), true)
    decreases |bs|
  {
    if bs == [] {
      assert s.utxos - {} == s.utxos;
    } else {
      hide Outputs;
      var n := |bs| - 1;
      BranchSplit(tip, height, bs);
      OutputsOfLast(bs);
      var s1 := RevertedOne(s, bs[n]);
      RevertBranch(s1, tip, height, bs[..n]);
      assert s.utxos - Outputs(bs[n]) - OutputsOf(bs[..n]) == s.utxos - OutputsOf(bs);
    }
  }

  lemma TakenTwice(u: Utxos, a: set<Outpoint>, b: set<Outpoint>)
    ensures u - (a + b) == (u - a) - b == (u - b) - a
  {
  }

  lemma {:induction false} ApplyAllExact(u: Utxos, bs: seq<Block>)
    ensures ApplyAll(u, bs) - OutputsOf(bs) == u - TouchedIn(bs)
    decreases |bs|
  {
    if bs == [] {
      assert u - {} == u;
    } else {
      ApplyTxsExact(u, bs[0].txs, |bs[0].txs|, bs[0].slot);
      hide ApplyTxs, CreatedBy, TouchedBy;
      var v := ApplyBlock(u, bs[0]);
      ApplyAllExact(v, bs[1..]);
      var w := ApplyAll(v, bs[1..]);
      var o, c, t := Outputs(bs[0]), OutputsOf(bs[1..]), TouchedIn(bs[1..]);
      hide ApplyAll, ApplyBlock, Outputs, Touched;
      TakenTwice(w, o, c);
      TakenTwice(v, o, t);
      TakenTwice(u, Touched(bs[0]), t);
    }
  }

  /** Adding a branch and reverting it restores the node's view exactly when the branch touches no older UTXO. */
  lemma RevertRestoresExactly(s: State, bs: seq<Block>)
    requires Branch(s.bestHash, s.bestHeight, bs) && FreshHashes(s, bs) && Known(s, s.bestHash)
    ensures var (r, ok) := Reverted(AllAdded(s, bs), |bs|);
            && ok && r.bestHash == s.bestHash && r.bestHeight == s.bestHeight
            && (r.utxos == s.utxos <==> s.utxos.Keys !! TouchedIn(bs))
  {
    hide AllAdded, ApplyAll, TouchedIn, OutputsOf;
    BranchAdmitted(s, bs);
    RevertBranch(AllAdded(s, bs), s.bestHash, s.bestHeight, bs);
    ApplyAllExact(s.utxos, bs);
    if o :| o in s.utxos.Keys && o in TouchedIn(bs) {
      assert o !in s.utxos - TouchedIn(bs);
    }
    if s.utxos.Keys !! TouchedIn(bs) {
      assert s.utxos - TouchedIn(bs) == s.utxos;
    }
  }

  /**
   * Partition healing: two nodes with one view grow apart by branches of disjoint fresh hashes; the
   * second reverts its own branch and adds the first's. If that own branch touched no UTXO older than
   * the split, tip, height and the whole UTXO map are then equal.
   */
  lemma HealConverges(a: State, b: State, sa: seq<Block>, sb: seq<Block>)
    requires a.bestHash == b.bestHash && a.bestHeight == b.bestHeight && a.utxos == b.utxos
    requires Known(a, a.bestHash) && Known(b, b.bestHash)
    requires Branch(a.bestHash, a.bestHeight, sa) && FreshHashes(a, sa) && FreshHashes(b, sa)
    requires Branch(b.bestHash, b.bestHeight, sb) && FreshHashes(b, sb)
    requires forall i, j :: 0 <= i < |sa| && 0 <= j < |sb| ==> sa[i].hash != sb[j].hash
    requires b.utxos.Keys !! TouchedIn(sb)
    ensures var back := Reverted(AllAdded(b, sb), |sb|).0;
            && AllAdmitted(a, sa) && AllAdmitted(b, sb) && Reverted(AllAdded(b, sb), |sb|).1 && AllAdmitted(back, sa)
            && var one, two := AllAdded(a, sa), AllAdded(back, sa);
            one.bestHash == two.bestHash && one.bestHeight == two.bestHeight && one.utxos == two.utxos
  {
    hide AllAdded, AllAdmitted, ApplyAll, TouchedIn, OutputsOf, Branch;
    BranchAdmitted(a, sa);
    BranchAdmitted(b, sb);
    RevertBranch(AllAdded(b, sb), b.bestHash, b.bestHeight, sb);
    RevertRestoresExactly(b, sb);
    var back := Reverted(AllAdded(b, sb), |sb|).0;
    assert FreshHashes(back, sa);
    BranchAdmitted(back, sa);
  }

  /** The heal as the tests run it: revert the losing branch, then adopt the winning one block by block. */
  method Heal(node: Node, count: nat, winning: seq<Block>) returns (ok: bool)
    modifies node
    ensures ok ==> Reverted(old(node.Now()), count).1
                   && node.Now() == AllAdded(Reverted(old(node.Now()), count).0, winning)
    ensures Reverted(old(node.Now()), count).1 && AllAdmitted(Reverted(old(node.Now()), count).0, winning) ==> ok
  {
    var r := node.RevertBlocks(count);
    if r.Err? { return false; }
    ghost var back := node.Now();
    for i := 0 to |winning|
      invariant AllAdded(back, winning) == AllAdded(node.Now(), winning[i..])
      invariant AllAdmitted(back, winning) ==> AllAdmitted(node.Now(), winning[i..])
    {
      assert winning[i..][0] == winning[i] && winning[i..][1..] == winning[i + 1..];
      var added := node.AddBlock(winning[i]);
      if added.Err? { return false; }
    }
    return true;
  }
}
