/**
 * The bincode form of a transaction (scripts/gs010_txwire.py): the cursor reader, the encoder,
 * and the law tying them: a read accepts a value exactly when the value is well formed and its
 * encoding stands at the cursor.
 */
module TxWire {
  import opened WireBytes
  import opened Wrappers

  const MAX_OUTPUT_TYPE := 10
  const MAX_TX_TYPE := 40
  const MAX_INPUTS := 4096
  const MAX_OUTPUTS := 65536
  const MAX_OUTPUT_EXTRA := 0x10_0000
  const MAX_TX_EXTRA := 0x80_0000

  datatype Input = Input(prevTxHash: Bytes, outputIndex: U32, signature: Bytes,
                         sighashType: U32, committedOutputCount: U32, publicKey: Option<Bytes>)

  datatype Output = Output(outputType: U32, amount: U64, pubkeyHash: Bytes, lockUntil: U64, extraData: Bytes)

  datatype Tx = Tx(version: U32, txType: U32, inputs: seq<Input>, outputs: seq<Output>, extraData: Bytes)

  // ----- encoder -----

  function BincodeBytes(raw: Bytes): Bytes {
    Le(|raw|, 8) + raw
  }

  function EncodeKey(key: Option<Bytes>): Bytes {
    match key
    case None => [0]
    case Some(raw) => [1] + BincodeBytes(raw)
  }

  // The spent outpoint with its signature, then the sighash fields and the key.
  function EncodeSpend(i: Input): Bytes {
    BincodeBytes(i.prevTxHash) + Le(i.outputIndex, 4) + BincodeBytes(i.signature)
  }

  function EncodeSighash(i: Input): Bytes {
    Le(i.sighashType, 4) + Le(i.committedOutputCount, 4) + EncodeKey(i.publicKey)
  }

  function EncodeInput(i: Input): Bytes {
    EncodeSpend(i) + EncodeSighash(i)
  }

  function EncodeOutput(o: Output): Bytes {
    Le(o.outputType, 4) + Le(o.amount, 8) + BincodeBytes(o.pubkeyHash) + Le(o.lockUntil, 8)
    + BincodeBytes(o.extraData)
  }

  function EncodeMany<T>(encode: T -> Bytes, xs: seq<T>): Bytes {
    if xs == [] then [] else encode(xs[0]) + EncodeMany(encode, xs[1..])
  }

  /** `Vec<T>`: a u64 count, then the elements. */
  function EncodeVec<T>(encode: T -> Bytes, xs: seq<T>): Bytes {
    Le(|xs|, 8) + EncodeMany(encode, xs)
  }

  function EncodeFunding(t: Tx): Bytes {
    Le(t.version, 4) + Le(t.txType, 4) + EncodeVec(EncodeInput, t.inputs)
  }

  function EncodePayout(t: Tx): Bytes {
    EncodeVec(EncodeOutput, t.outputs) + BincodeBytes(t.extraData)
  }

  function EncodeTx(t: Tx): Bytes {
    EncodeFunding(t) + EncodePayout(t)
  }

  // ----- the values the reader admits -----

  predicate KeyOk(key: Option<Bytes>) { key.Some? ==> |key.value| == 32 }

  predicate InputOk(i: Input) {
    |i.prevTxHash| == 32 && |i.signature| == 64 && i.sighashType <= 1 && KeyOk(i.publicKey)
  }

  predicate OutputOk(o: Output) {
    o.outputType <= MAX_OUTPUT_TYPE && |o.pubkeyHash| == 32 && |o.extraData| <= MAX_OUTPUT_EXTRA
  }

  predicate ManyOk<T>(ok: T -> bool, xs: seq<T>) { forall i :: 0 <= i < |xs| ==> ok(xs[i]) }

  predicate TxOk(t: Tx) {
    && t.txType <= MAX_TX_TYPE
    && |t.inputs| <= MAX_INPUTS && ManyOk(InputOk, t.inputs)
    && |t.outputs| <= MAX_OUTPUTS && ManyOk(OutputOk, t.outputs)
    && |t.extraData| <= MAX_TX_EXTRA
  }

  // ----- what reading at a position yields -----

  function TakeAt(b: Bytes, p: nat, n: nat): Parsed<Bytes> {
    if p + n > |b| then Reject else Accept(b[p..p + n], p + n)
  }

  function ReadU8(b: Bytes, p: nat): Parsed<Byte> {
    var (raw, q) :- TakeAt(b, p, 1);
    Accept(raw[0], q)
  }

  function ReadU32(b: Bytes, p: nat): Parsed<U32> {
    var (raw, q) :- TakeAt(b, p, 4);
    PackUnpack(raw); Widths();
    Accept(FromLe(raw), q)
  }

  function ReadU64(b: Bytes, p: nat): Parsed<U64> {
    var (raw, q) :- TakeAt(b, p, 8);
    PackUnpack(raw); Widths();
    Accept(FromLe(raw), q)
  }

  function ReadSized(b: Bytes, p: nat, size: nat): Parsed<Bytes> {
    var (n, q) :- ReadU64(b, p);
    if n != size then Reject else TakeAt(b, q, n)
  }

  function ReadByteVec(b: Bytes, p: nat, limit: nat): Parsed<Bytes> {
    var (n, q) :- ReadU64(b, p);
    if n > limit then Reject else TakeAt(b, q, n)
  }

  function ReadKey(b: Bytes, p: nat): Parsed<Option<Bytes>> {
    var (tag, q) :- ReadU8(b, p);
    if tag == 0 then Accept(None, q)
    else if tag == 1 then
      var (pk, r) :- ReadSized(b, q, 32);
      Accept(Some(pk), r)
    else Reject
  }

  function ReadSpend(b: Bytes, p: nat): Parsed<(Bytes, U32, Bytes)> {
    var (prev, p1) :- ReadSized(b, p, 32);
    var (idx, p2) :- ReadU32(b, p1);
    var (sig, p3) :- ReadSized(b, p2, 64);
    Accept((prev, idx, sig), p3)
  }

  function ReadSighash(b: Bytes, p: nat): Parsed<(U32, U32, Option<Bytes>)> {
    var (sighash, p1) :- ReadU32(b, p);
    if sighash > 1 then Reject else
    var (committed, p2) :- ReadU32(b, p1);
    var (pk, p3) :- ReadKey(b, p2);
    Accept((sighash, committed, pk), p3)
  }

  function ReadInput(b: Bytes, p: nat): Parsed<Input> {
    var (spend, p1) :- ReadSpend(b, p);
    var (tail, p2) :- ReadSighash(b, p1);
    Accept(Input(spend.0, spend.1, spend.2, tail.0, tail.1, tail.2), p2)
  }

  function ReadOutput(b: Bytes, p: nat): Parsed<Output> {
    var (ot, p1) :- ReadU32(b, p);
    if ot > MAX_OUTPUT_TYPE then Reject else
    var (amount, p2) :- ReadU64(b, p1);
    var (pkh, p3) :- ReadSized(b, p2, 32);
    var (lock, p4) :- ReadU64(b, p3);
    var (extra, p5) :- ReadByteVec(b, p4, MAX_OUTPUT_EXTRA);
    Accept(Output(ot, amount, pkh, lock, extra), p5)
  }

  function ReadMany<T>(read: (Bytes, nat) -> Parsed<T>, b: Bytes, p: nat, n: nat): Parsed<seq<T>>
    decreases n
  {
    if n == 0 then Accept([], p) else
    var (x, q) :- read(b, p);
    var (xs, r) :- ReadMany(read, b, q, n - 1);
    Accept([x] + xs, r)
  }

  function ReadVec<T>(read: (Bytes, nat) -> Parsed<T>, b: Bytes, p: nat, limit: nat): Parsed<seq<T>> {
    var (n, q) :- ReadU64(b, p);
    if n > limit then Reject else ReadMany(read, b, q, n)
  }

  function ReadFunding(b: Bytes, p: nat): Parsed<(U32, U32, seq<Input>)> {
    var (version, p1) :- ReadU32(b, p);
    var (txType, p2) :- ReadU32(b, p1);
    if txType > MAX_TX_TYPE then Reject else
    var (inputs, p3) :- ReadVec(ReadInput, b, p2, MAX_INPUTS);
    Accept((version, txType, inputs), p3)
  }

  function ReadPayout(b: Bytes, p: nat): Parsed<(seq<Output>, Bytes)> {
    var (outputs, p1) :- ReadVec(ReadOutput, b, p, MAX_OUTPUTS);
    var (extra, p2) :- ReadByteVec(b, p1, MAX_TX_EXTRA);
    Accept((outputs, extra), p2)
  }

  function ReadTx(b: Bytes, p: nat): Parsed<Tx> {
    var (head, p1) :- ReadFunding(b, p);
    var (tail, p2) :- ReadPayout(b, p1);
    Accept(Tx(head.0, head.1, head.2, tail.0, tail.1), p2)
  }

  // ----- the codec law -----

  /** The read `r` at `p` yields `v` exactly when `v` is admitted and `e`, its encoding, stands at `p`. */
  ghost predicate Exact<T>(r: Parsed<T>, v: T, ok: bool, b: Bytes, p: nat, e: Bytes) {
    && (r == Accept(v, p + |e|) <==> ok && At(b, p, e))
    && (r.Accept? && r.value == v ==> r.next == p + |e|)
  }

  lemma U8Law(b: Bytes, p: nat, v: Byte)
    ensures Exact(ReadU8(b, p), v, true, b, p, [v])
  {
  }

  lemma U32Law(b: Bytes, p: nat, v: U32)
    ensures Exact(ReadU32(b, p), v, true, b, p, Le(v, 4))
  {
    Widths();
    UnpackPack(v, 4);
    if p + 4 <= |b| { PackUnpack(b[p..p + 4]); }
  }

  lemma U64Law(b: Bytes, p: nat, v: U64)
    ensures Exact(ReadU64(b, p), v, true, b, p, Le(v, 8))
  {
    Widths();
    UnpackPack(v, 8);
    if p + 8 <= |b| { PackUnpack(b[p..p + 8]); }
  }

  lemma ByteVecLaw(b: Bytes, p: nat, limit: U64, v: Bytes)
    ensures Exact(ReadByteVec(b, p, limit), v, |v| <= limit, b, p, BincodeBytes(v))
  {
    if |v| <= limit {
      U64Law(b, p, |v|);
      AtSplit(b, p, Le(|v|, 8), v);
    }
  }

  lemma SizedLaw(b: Bytes, p: nat, size: U64, v: Bytes)
    ensures Exact(ReadSized(b, p, size), v, |v| == size, b, p, BincodeBytes(v))
  {
    if |v| == size {
      U64Law(b, p, |v|);
      AtSplit(b, p, Le(|v|, 8), v);
    }
  }

  lemma KeyLaw(b: Bytes, p: nat, v: Option<Bytes>)
    ensures Exact(ReadKey(b, p), v, KeyOk(v), b, p, EncodeKey(v))
  {
    if v.None? {
      U8Law(b, p, 0);
    } else {
      U8Law(b, p, 1);
      SizedLaw(b, p + 1, 32, v.value);
      AtSplit(b, p, [1], BincodeBytes(v.value));
    }
  }

  lemma SpendLaw(b: Bytes, p: nat, v: Input)
    ensures Exact(ReadSpend(b, p), (v.prevTxHash, v.outputIndex, v.signature),
                  |v.prevTxHash| == 32 && |v.signature| == 64, b, p, EncodeSpend(v))
  {
    hide At, Le, BincodeBytes, ReadU32, ReadSized;
    var e1 := BincodeBytes(v.prevTxHash);
    var e2 := e1 + Le(v.outputIndex, 4);
    AtSplit(b, p, e2, BincodeBytes(v.signature));
    AtSplit(b, p, e1, Le(v.outputIndex, 4));
    SizedLaw(b, p, 32, v.prevTxHash);
    U32Law(b, p + |e1|, v.outputIndex);
    SizedLaw(b, p + |e2|, 64, v.signature);
  }

  lemma SighashLaw(b: Bytes, p: nat, v: Input)
    ensures Exact(ReadSighash(b, p), (v.sighashType, v.committedOutputCount, v.publicKey),
                  v.sighashType <= 1 && KeyOk(v.publicKey), b, p, EncodeSighash(v))
  {
    var e1 := Le(v.sighashType, 4);
    var e2 := e1 + Le(v.committedOutputCount, 4);
    AtSplit(b, p, e2, EncodeKey(v.publicKey));
    AtSplit(b, p, e1, Le(v.committedOutputCount, 4));
    U32Law(b, p, v.sighashType);
    U32Law(b, p + |e1|, v.committedOutputCount);
    KeyLaw(b, p + |e2|, v.publicKey);
  }

  lemma InputLaw(b: Bytes, p: nat, v: Input)
    ensures Exact(ReadInput(b, p), v, InputOk(v), b, p, EncodeInput(v))
  {
    hide At, ReadSpend, ReadSighash, EncodeSpend, EncodeSighash;
    SpendLaw(b, p, v);
    SighashLaw(b, p + |EncodeSpend(v)|, v);
    AtSplit(b, p, EncodeSpend(v), EncodeSighash(v));
  }

  lemma OutputLaw(b: Bytes, p: nat, v: Output)
    ensures Exact(ReadOutput(b, p), v, OutputOk(v), b, p, EncodeOutput(v))
  {
    hide At, Le, BincodeBytes, ReadU32, ReadU64, ReadSized, ReadByteVec;
    var e1 := Le(v.outputType, 4);
    var e2 := e1 + Le(v.amount, 8);
    var e3 := e2 + BincodeBytes(v.pubkeyHash);
    var e4 := e3 + Le(v.lockUntil, 8);
    AtSplit(b, p, e4, BincodeBytes(v.extraData));
    AtSplit(b, p, e3, Le(v.lockUntil, 8));
    AtSplit(b, p, e2, BincodeBytes(v.pubkeyHash));
    AtSplit(b, p, e1, Le(v.amount, 8));
    U32Law(b, p, v.outputType);
    U64Law(b, p + |e1|, v.amount);
    SizedLaw(b, p + |e2|, 32, v.pubkeyHash);
    U64Law(b, p + |e3|, v.lockUntil);
    ByteVecLaw(b, p + |e4|, MAX_OUTPUT_EXTRA, v.extraData);
  }

  ghost predicate ElementLaw<T(!new)>(read: (Bytes, nat) -> Parsed<T>, encode: T -> Bytes, ok: T -> bool, b: Bytes) {
    forall p: nat, v: T {:trigger read(b, p), encode(v)} :: Exact(read(b, p), v, ok(v), b, p, encode(v))
  }

  /** One step of reading a list. */
  lemma ManyStep<T>(read: (Bytes, nat) -> Parsed<T>, b: Bytes, p: nat, q: nat, vs: seq<T>)
    requires vs != []
    requires read(b, p).Accept? && read(b, p).value == vs[0] ==> read(b, p).next == q
    ensures forall r :: ReadMany(read, b, p, |vs|) == Accept(vs, r)
                        <==> read(b, p) == Accept(vs[0], q) && ReadMany(read, b, q, |vs| - 1) == Accept(vs[1..], r)
  {
    assert vs == [vs[0]] + vs[1..];
    var m := ReadMany(read, b, p, |vs|);
    if m.Accept? && m.value == vs {
      var n := ReadMany(read, b, read(b, p).next, |vs| - 1);
      assert m.value == [read(b, p).value] + n.value;
      assert m.value[1..] == n.value;
    }
  }

  lemma ManyOkStep<T>(ok: T -> bool, vs: seq<T>)
    requires vs != []
    ensures ManyOk(ok, vs) <==> ok(vs[0]) && ManyOk(ok, vs[1..])
  {
  }

  lemma {:induction false} ManyLaw<T(!new)>(
    read: (Bytes, nat) -> Parsed<T>, encode: T -> Bytes, ok: T -> bool, b: Bytes, p: nat, vs: seq<T>)
    requires ElementLaw(read, encode, ok, b)
    requires p <= |b|
    ensures Exact(ReadMany(read, b, p, |vs|), vs, ManyOk(ok, vs), b, p, EncodeMany(encode, vs))
    decreases |vs|
  {
    if vs != [] {
      var e := encode(vs[0]);
      assert Exact(read(b, p), vs[0], ok(vs[0]), b, p, e);
      ManyStep(read, b, p, p + |e|, vs);
      ManyOkStep(ok, vs);
      AtSplit(b, p, e, EncodeMany(encode, vs[1..]));
      if p + |e| <= |b| {
        ManyLaw(read, encode, ok, b, p + |e|, vs[1..]);
      }
    }
  }

  lemma {:induction false} ReadManyLength<T>(read: (Bytes, nat) -> Parsed<T>, b: Bytes, p: nat, n: nat)
    ensures ReadMany(read, b, p, n).Accept? ==> |ReadMany(read, b, p, n).value| == n
    decreases n
  {
    if n > 0 && read(b, p).Accept? { ReadManyLength(read, b, read(b, p).next, n - 1); }
  }

  lemma VecLaw<T(!new)>(
    read: (Bytes, nat) -> Parsed<T>, encode: T -> Bytes, ok: T -> bool, b: Bytes, p: nat, limit: U64, vs: seq<T>)
    requires ElementLaw(read, encode, ok, b)
    ensures Exact(ReadVec(read, b, p, limit), vs, |vs| <= limit && ManyOk(ok, vs), b, p, EncodeVec(encode, vs))
  {
    var n := ReadU64(b, p);
    if n.Accept? { ReadManyLength(read, b, n.next, n.value); }
    if |vs| <= limit {
      U64Law(b, p, |vs|);
      AtSplit(b, p, Le(|vs|, 8), EncodeMany(encode, vs));
      if p + 8 <= |b| { ManyLaw(read, encode, ok, b, p + 8, vs); }
    }
  }

  lemma InputElementLaw(b: Bytes)
    ensures ElementLaw(ReadInput, EncodeInput, InputOk, b)
  {
    forall q: nat, v: Input ensures Exact(ReadInput(b, q), v, InputOk(v), b, q, EncodeInput(v)) { InputLaw(b, q, v); }
  }

  lemma OutputElementLaw(b: Bytes)
    ensures ElementLaw(ReadOutput, EncodeOutput, OutputOk, b)
  {
    forall q: nat, v: Output ensures Exact(ReadOutput(b, q), v, OutputOk(v), b, q, EncodeOutput(v)) {
      OutputLaw(b, q, v);
    }
  }

  lemma FundingLaw(b: Bytes, p: nat, v: Tx)
    ensures Exact(ReadFunding(b, p), (v.version, v.txType, v.inputs),
                  v.txType <= MAX_TX_TYPE && |v.inputs| <= MAX_INPUTS && ManyOk(InputOk, v.inputs),
                  b, p, EncodeFunding(v))
  {
    var e1 := Le(v.version, 4);
    var e2 := e1 + Le(v.txType, 4);
    AtSplit(b, p, e2, EncodeVec(EncodeInput, v.inputs));
    AtSplit(b, p, e1, Le(v.txType, 4));
    U32Law(b, p, v.version);
    U32Law(b, p + |e1|, v.txType);
    InputElementLaw(b);
    VecLaw(ReadInput, EncodeInput, InputOk, b, p + |e2|, MAX_INPUTS, v.inputs);
  }

  lemma PayoutLaw(b: Bytes, p: nat, v: Tx)
    ensures Exact(ReadPayout(b, p), (v.outputs, v.extraData),
                  |v.outputs| <= MAX_OUTPUTS && ManyOk(OutputOk, v.outputs) && |v.extraData| <= MAX_TX_EXTRA,
                  b, p, EncodePayout(v))
  {
    hide ReadVec, ReadByteVec, EncodeVec, BincodeBytes, ElementLaw;
    var e := EncodeVec(EncodeOutput, v.outputs);
    AtSplit(b, p, e, BincodeBytes(v.extraData));
    OutputElementLaw(b);
    VecLaw(ReadOutput, EncodeOutput, OutputOk, b, p, MAX_OUTPUTS, v.outputs);
    ByteVecLaw(b, p + |e|, MAX_TX_EXTRA, v.extraData);
  }

  /**
   * The transaction codec: reading at `p` accepts `v` and stops at the end of its encoding exactly
   * when `v` is admitted and its encoding stands at `p`.
   */
  lemma TxLaw(b: Bytes, p: nat, v: Tx)
    ensures Exact(ReadTx(b, p), v, TxOk(v), b, p, EncodeTx(v))
  {
    hide ReadFunding, ReadPayout, EncodeFunding, EncodePayout;
    FundingLaw(b, p, v);
    PayoutLaw(b, p + |EncodeFunding(v)|, v);
    AtSplit(b, p, EncodeFunding(v), EncodePayout(v));
  }

  /** Decoding an encoding gives the transaction back and leaves what follows it. */
  lemma RoundTrip(t: Tx, suffix: Bytes)
    requires TxOk(t)
    ensures ReadTx(EncodeTx(t) + suffix, 0) == Accept(t, |EncodeTx(t)|)
  {
    hide ReadTx, EncodeTx, TxOk;
    TxLaw(EncodeTx(t) + suffix, 0, t);
  }

  /** Whatever is accepted is well formed and encodes to exactly the bytes read. */
  lemma Canonical(b: Bytes, p: nat)
    requires ReadTx(b, p).Accept?
    ensures var (t, q) := (ReadTx(b, p).value, ReadTx(b, p).next);
            TxOk(t) && p <= q <= |b| && b[p..q] == EncodeTx(t)
  {
    hide ReadTx, EncodeTx, TxOk;
    TxLaw(b, p, ReadTx(b, p).value);
  }

  /** No encoding starts another: a buffer that begins with one determines the transaction and the rest. */
  lemma PrefixFree(t: Tx, u: Tx, s: Bytes, v: Bytes)
    requires TxOk(t) && TxOk(u) && EncodeTx(t) + s == EncodeTx(u) + v
    ensures t == u && s == v
  {
    hide ReadTx, EncodeTx, TxOk;
    RoundTrip(t, s);
    RoundTrip(u, v);
    Cancel(EncodeTx(t), s, EncodeTx(u), v);
  }
}
