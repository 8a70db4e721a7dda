/**
 * The formats field by field (scripts/gs010_txwire.py:130-268, 274-302): which byte of an encoded transaction,
 * of a block body and of the bytes hashed holds what, said by offsets and without an encoder.
 */
module WireLayout {
  import opened WireBytes
  import opened TxWire
  import opened TxReader
  import opened TxHash
  import opened Wrappers

  /** The bytes at p are counted by the eight bytes before them. */
  predicate CountedAt(b: Bytes, p: nat, x: Bytes) { IntAt(b, p, 8, |x|) && At(b, p + 8, x) }

  lemma CountedStands(b: Bytes, p: nat, x: Bytes)
    requires |x| < 0x1_0000_0000_0000_0000
    ensures At(b, p, BincodeBytes(x)) <==> CountedAt(b, p, x)
  {
    Widths();
    AtSplit(b, p, Le(|x|, 8), x);
    IntStands(b, p, 8, |x|);
  }

  lemma ByteStands(b: Bytes, p: nat, x: Byte)
    ensures At(b, p, [x]) <==> p < |b| && b[p] == x
  {
  }

  // ----- lists -----

  function Total<T>(size: T -> nat, xs: seq<T>): nat { if xs == [] then 0 else size(xs[0]) + Total(size, xs[1..]) }

  /** Each element stands where the one before it ends. */
  predicate ListStands<T>(stands: (Bytes, nat, T) -> bool, size: T -> nat, b: Bytes, p: nat, xs: seq<T>)
    decreases |xs|
  {
    if xs == [] then p <= |b|
    else stands(b, p, xs[0]) && ListStands(stands, size, b, p + size(xs[0]), xs[1..])
  }

  /** An element's encoding stands at a position exactly when its fields do, and is as long as stated. */
  ghost predicate ElementStands<T(!new)>(encode: T -> Bytes, stands: (Bytes, nat, T) -> bool, size: T -> nat,
                                         ok: T -> bool, b: Bytes) {
    forall p: nat, x: T {:trigger stands(b, p, x)} :: ok(x) ==>
      (At(b, p, encode(x)) <==> stands(b, p, x)) && |encode(x)| == size(x)
  }

  lemma ListTail<T>(stands: (Bytes, nat, T) -> bool, size: T -> nat, b: Bytes, p: nat, xs: seq<T>)
    requires xs != []
    ensures Total(size, xs) == size(xs[0]) + Total(size, xs[1..])
    ensures ListStands(stands, size, b, p, xs)
            <==> stands(b, p, xs[0]) && ListStands(stands, size, b, p + size(xs[0]), xs[1..])
  {
  }

  lemma NoElements<T>(encode: T -> Bytes, stands: (Bytes, nat, T) -> bool, size: T -> nat, b: Bytes, p: nat)
    ensures At(b, p, EncodeMany(encode, [])) <==> ListStands(stands, size, b, p, [])
    ensures |EncodeMany(encode, [])| == Total(size, [])
  {
  }

  lemma FirstElement<T>(encode: T -> Bytes, b: Bytes, p: nat, xs: seq<T>)
    requires xs != []
    ensures |EncodeMany(encode, xs)| == |encode(xs[0])| + |EncodeMany(encode, xs[1..])|
    ensures At(b, p, EncodeMany(encode, xs))
            <==> At(b, p, encode(xs[0])) && At(b, p + |encode(xs[0])|, EncodeMany(encode, xs[1..]))
  {
    assert EncodeMany(encode, xs) == encode(xs[0]) + EncodeMany(encode, xs[1..]);
    hide At, EncodeMany;
    AtSplit(b, p, encode(xs[0]), EncodeMany(encode, xs[1..]));
  }

  lemma Stands<T(!new)>(encode: T -> Bytes, stands: (Bytes, nat, T) -> bool, size: T -> nat, ok: T -> bool, b: Bytes,
                        p: nat, x: T)
    requires ElementStands(encode, stands, size, ok, b) && ok(x)
    ensures (At(b, p, encode(x)) <==> stands(b, p, x)) && |encode(x)| == size(x)
  {
    hide At;
    assert stands(b, p, x) || !stands(b, p, x);
  }

  lemma {:induction false} ListLayout<T(!new)>(encode: T -> Bytes, stands: (Bytes, nat, T) -> bool, size: T -> nat,
                                               ok: T -> bool, b: Bytes, p: nat, xs: seq<T>)
    requires ElementStands(encode, stands, size, ok, b) && ManyOk(ok, xs)
    ensures At(b, p, EncodeMany(encode, xs)) <==> ListStands(stands, size, b, p, xs)
    ensures |EncodeMany(encode, xs)| == Total(size, xs)
    decreases |xs|
  {
    if xs == [] {
      NoElements(encode, stands, size, b, p);
    } else {
      hide At, ListStands, ElementStands, Total, EncodeMany;
      Stands(encode, stands, size, ok, b, p, xs[0]);
      FirstElement(encode, b, p, xs);
      ListTail(stands, size, b, p, xs);
      ManyOkStep(ok, xs);
      ListLayout(encode, stands, size, ok, b, p + size(xs[0]), xs[1..]);
    }
  }

  // ----- an encoded transaction -----

  function InputSize(i: Input): nat { if i.publicKey.None? then 125 else 165 }

  function OutputSize(o: Output): nat { 68 + |o.extraData| }

  predicate InputStands(b: Bytes, p: nat, i: Input) {
    && IntAt(b, p, 8, 32) && At(b, p + 8, i.prevTxHash)
    && IntAt(b, p + 40, 4, i.outputIndex)
    && IntAt(b, p + 44, 8, 64) && At(b, p + 52, i.signature)
    && IntAt(b, p + 116, 4, i.sighashType)
    && IntAt(b, p + 120, 4, i.committedOutputCount)
    && KeyStands(b, p + 124, i.publicKey)
  }

  predicate KeyStands(b: Bytes, p: nat, key: Option<Bytes>) {
    if key.None? then p < |b| && b[p] == 0
    else p < |b| && b[p] == 1 && IntAt(b, p + 1, 8, 32) && At(b, p + 9, key.value)
  }

  predicate OutputStands(b: Bytes, p: nat, o: Output) {
    && IntAt(b, p, 4, o.outputType)
    && IntAt(b, p + 4, 8, o.amount)
    && IntAt(b, p + 12, 8, 32) && At(b, p + 20, o.pubkeyHash)
    && IntAt(b, p + 52, 8, o.lockUntil)
    && IntAt(b, p + 60, 8, |o.extraData|) && At(b, p + 68, o.extraData)
  }

  function TxSize(t: Tx): nat { 32 + Total(InputSize, t.inputs) + Total(OutputSize, t.outputs) + |t.extraData| }

  /** Version, type, counted inputs, counted outputs, counted extra data. */
  predicate TxStands(b: Bytes, p: nat, t: Tx) {
    var q := p + 16 + Total(InputSize, t.inputs);
    var r := q + 8 + Total(OutputSize, t.outputs);
    && IntAt(b, p, 4, t.version)
    && IntAt(b, p + 4, 4, t.txType)
    && IntAt(b, p + 8, 8, |t.inputs|) && ListStands(InputStands, InputSize, b, p + 16, t.inputs)
    && IntAt(b, q, 8, |t.outputs|) && ListStands(OutputStands, OutputSize, b, q + 8, t.outputs)
    && IntAt(b, r, 8, |t.extraData|) && At(b, r + 8, t.extraData)
  }

  lemma KeyLayout(b: Bytes, p: nat, key: Option<Bytes>)
    requires KeyOk(key)
    ensures At(b, p, EncodeKey(key)) <==> KeyStands(b, p, key)
    ensures |EncodeKey(key)| == if key.None? then 1 else 41
  {
    ByteStands(b, p, if key.None? then 0 else 1);
    if key.Some? {
      AtSplit(b, p, [1], BincodeBytes(key.value));
      CountedStands(b, p + 1, key.value);
    }
  }

  lemma InputLayout(b: Bytes, p: nat, i: Input)
    requires InputOk(i)
    ensures At(b, p, EncodeInput(i)) <==> InputStands(b, p, i)
    ensures |EncodeInput(i)| == InputSize(i)
  {
    hide At, IntAt, Le, EncodeKey, KeyStands;
    AtSplit(b, p, EncodeSpend(i), EncodeSighash(i));
    SpendLayout(b, p, i);
    SighashLayout(b, p + 116, i);
    KeyLayout(b, p + 124, i.publicKey);
  }

  lemma SpendLayout(b: Bytes, p: nat, i: Input)
    requires InputOk(i)
    ensures |EncodeSpend(i)| == 116
    ensures At(b, p, EncodeSpend(i))
            <==> && CountedAt(b, p, i.prevTxHash) && IntAt(b, p + 40, 4, i.outputIndex)
                 && CountedAt(b, p + 44, i.signature)
  {
    Widths();
    hide At, IntAt, Le;
    AtSplit(b, p, BincodeBytes(i.prevTxHash) + Le(i.outputIndex, 4), BincodeBytes(i.signature));
    AtSplit(b, p, BincodeBytes(i.prevTxHash), Le(i.outputIndex, 4));
    CountedStands(b, p, i.prevTxHash);
    IntStands(b, p + 40, 4, i.outputIndex);
    CountedStands(b, p + 44, i.signature);
  }

  lemma SighashLayout(b: Bytes, p: nat, i: Input)
    requires InputOk(i)
    ensures |EncodeSighash(i)| == 8 + |EncodeKey(i.publicKey)|
    ensures At(b, p, EncodeSighash(i))
            <==> && IntAt(b, p, 4, i.sighashType) && IntAt(b, p + 4, 4, i.committedOutputCount)
                 && At(b, p + 8, EncodeKey(i.publicKey))
  {
    Widths();
    hide At, IntAt, Le, EncodeKey;
    AtSplit(b, p, Le(i.sighashType, 4) + Le(i.committedOutputCount, 4), EncodeKey(i.publicKey));
    AtSplit(b, p, Le(i.sighashType, 4), Le(i.committedOutputCount, 4));
    IntStands(b, p, 4, i.sighashType);
    IntStands(b, p + 4, 4, i.committedOutputCount);
  }

  lemma OutputLayout(b: Bytes, p: nat, o: Output)
    requires OutputOk(o)
    ensures At(b, p, EncodeOutput(o)) <==> OutputStands(b, p, o)
    ensures |EncodeOutput(o)| == OutputSize(o)
  {
    Widths();
    hide At, IntAt, Le;
    var e1 := Le(o.outputType, 4);
    var e2 := e1 + Le(o.amount, 8);
    var e3 := e2 + BincodeBytes(o.pubkeyHash);
    var e4 := e3 + Le(o.lockUntil, 8);
    AtSplit(b, p, e4, BincodeBytes(o.extraData));
    AtSplit(b, p, e3, Le(o.lockUntil, 8));
    AtSplit(b, p, e2, BincodeBytes(o.pubkeyHash));
    AtSplit(b, p, e1, Le(o.amount, 8));
    IntStands(b, p, 4, o.outputType);
    IntStands(b, p + 4, 8, o.amount);
    CountedStands(b, p + 12, o.pubkeyHash);
    IntStands(b, p + 52, 8, o.lockUntil);
    CountedStands(b, p + 60, o.extraData);
  }

  lemma InputsStand(b: Bytes)
    ensures ElementStands(EncodeInput, InputStands, InputSize, InputOk, b)
  {
    forall p: nat, i: Input | InputOk(i)
      ensures (At(b, p, EncodeInput(i)) <==> InputStands(b, p, i)) && |EncodeInput(i)| == InputSize(i)
    {
      InputLayout(b, p, i);
    }
  }

  lemma OutputsStand(b: Bytes)
    ensures ElementStands(EncodeOutput, OutputStands, OutputSize, OutputOk, b)
  {
    forall p: nat, o: Output | OutputOk(o)
      ensures (At(b, p, EncodeOutput(o)) <==> OutputStands(b, p, o)) && |EncodeOutput(o)| == OutputSize(o)
    {
      OutputLayout(b, p, o);
    }
  }

  /** A counted list stands where its count and its elements do. */
  lemma VecLayout<T(!new)>(encode: T -> Bytes, stands: (Bytes, nat, T) -> bool, size: T -> nat, ok: T -> bool,
                           b: Bytes, p: nat, xs: seq<T>)
    requires ElementStands(encode, stands, size, ok, b) && ManyOk(ok, xs) && |xs| < 0x1_0000_0000_0000_0000
    ensures At(b, p, EncodeVec(encode, xs)) <==> IntAt(b, p, 8, |xs|) && ListStands(stands, size, b, p + 8, xs)
    ensures |EncodeVec(encode, xs)| == 8 + Total(size, xs)
  {
    Widths();
    AtSplit(b, p, Le(|xs|, 8), EncodeMany(encode, xs));
    IntStands(b, p, 8, |xs|);
    ListLayout(encode, stands, size, ok, b, p + 8, xs);
  }

  /** The encoding of an admitted transaction stands at p exactly when every field stands at its offset. */
  lemma TxLayout(b: Bytes, p: nat, t: Tx)
    requires TxOk(t)
    ensures At(b, p, EncodeTx(t)) <==> TxStands(b, p, t)
    ensures |EncodeTx(t)| == TxSize(t)
  {
    Widths();
    InputsStand(b);
    OutputsStand(b);
    hide At, IntAt, Le, EncodeVec, ElementStands, ListStands, InputStands, OutputStands, BincodeBytes;
    var q := p + 16 + Total(InputSize, t.inputs);
    var r := q + 8 + Total(OutputSize, t.outputs);
    AtSplit(b, p, EncodeFunding(t), EncodePayout(t));
    AtSplit(b, p, Le(t.version, 4) + Le(t.txType, 4), EncodeVec(EncodeInput, t.inputs));
    AtSplit(b, p, Le(t.version, 4), Le(t.txType, 4));
    IntStands(b, p, 4, t.version);
    IntStands(b, p + 4, 4, t.txType);
    VecLayout(EncodeInput, InputStands, InputSize, InputOk, b, p + 8, t.inputs);
    AtSplit(b, q, EncodeVec(EncodeOutput, t.outputs), BincodeBytes(t.extraData));
    VecLayout(EncodeOutput, OutputStands, OutputSize, OutputOk, b, q, t.outputs);
    CountedStands(b, r, t.extraData);
    CountedSize(t.extraData);
  }

  lemma CountedSize(x: Bytes)
    ensures |BincodeBytes(x)| == 8 + |x|
  {
  }

  /** So the reader accepts a transaction at p exactly when it is admitted and its fields stand at their offsets. */
  lemma ReadLayout(b: Bytes, p: nat, t: Tx)
    ensures ReadTx(b, p) == Accept(t, p + TxSize(t)) <==> TxOk(t) && TxStands(b, p, t)
    ensures ReadTx(b, p).Accept? && ReadTx(b, p).value == t ==> ReadTx(b, p).next == p + TxSize(t)
  {
    hide ReadTx, EncodeTx, TxStands, TxSize, TxOk, At;
    TxLaw(b, p, t);
    if TxOk(t) {
      TxLayout(b, p, t);
    } else {
      TxLaw(b, p, t);
    }
  }

  // ----- a block body -----

  /** Counted transactions, counted signature, counted bitfield. */
  predicate BodyFields(b: Bytes, p: nat, d: Body) {
    var q := p + 8 + Total(TxSize, d.txs);
    && IntAt(b, p, 8, |d.txs|) && ListStands(TxStands, TxSize, b, p + 8, d.txs)
    && CountedAt(b, q, d.blsSignature)
    && CountedAt(b, q + 8 + |d.blsSignature|, d.bitfield)
  }

  function BodySize(d: Body): nat { 24 + Total(TxSize, d.txs) + |d.blsSignature| + |d.bitfield| }

  lemma TxsStand(b: Bytes)
    ensures ElementStands(EncodeTx, TxStands, TxSize, TxOk, b)
  {
    forall p: nat, t: Tx | TxOk(t)
      ensures (At(b, p, EncodeTx(t)) <==> TxStands(b, p, t)) && |EncodeTx(t)| == TxSize(t)
    {
      TxLayout(b, p, t);
    }
  }

  lemma BodyLayout(b: Bytes, p: nat, d: Body)
    requires BodyOk(d)
    ensures At(b, p, EncodeBody(d)) <==> BodyFields(b, p, d)
    ensures |EncodeBody(d)| == BodySize(d)
  {
    TxsStand(b);
    hide At, IntAt, EncodeVec, ElementStands, ListStands, TxStands, TxSize, TxOk, BincodeBytes, EncodeTx;
    var q := p + 8 + Total(TxSize, d.txs);
    AtSplit(b, p, EncodeVec(EncodeTx, d.txs), EncodeTrailer(d));
    VecLayout(EncodeTx, TxStands, TxSize, TxOk, b, p, d.txs);
    AtSplit(b, q, BincodeBytes(d.blsSignature), BincodeBytes(d.bitfield));
    CountedStands(b, q, d.blsSignature);
    CountedStands(b, q + 8 + |d.blsSignature|, d.bitfield);
    CountedSize(d.blsSignature);
    CountedSize(d.bitfield);
  }

  // ----- the bytes hashed -----

  /** Data longer than 65535 bytes is counted in four bytes behind two that are full. */
  predicate DataStands(b: Bytes, p: nat, x: Bytes) {
    if |x| > 65535 then IntAt(b, p, 2, 65535) && IntAt(b, p + 2, 4, |x|) && At(b, p + 6, x)
    else IntAt(b, p, 2, |x|) && At(b, p + 2, x)
  }

  function HashSize(o: Output): nat { 49 + (if |o.extraData| > 65535 then 6 else 2) + |o.extraData| }

  /** An output as it is hashed: one byte of type, amount, owner uncounted, lock, data. */
  predicate HashStands(b: Bytes, p: nat, o: Output) {
    && p < |b| && b[p] == o.outputType
    && IntAt(b, p + 1, 8, o.amount)
    && At(b, p + 9, o.pubkeyHash)
    && IntAt(b, p + 41, 8, o.lockUntil)
    && DataStands(b, p + 49, o.extraData)
  }

  predicate OutpointStands(b: Bytes, p: nat, i: Input) {
    At(b, p, i.prevTxHash) && IntAt(b, p + 32, 4, i.outputIndex)
  }

  function CoreSize(t: Tx): nat { 16 + 36 * |t.inputs| + Total(HashSize, t.outputs) }

  /** Version, type, counted outpoints of 36 bytes, counted outputs; counts of four bytes. */
  predicate CoreStands(b: Bytes, t: Tx) {
    var q := 12 + 36 * |t.inputs|;
    && IntAt(b, 0, 4, t.version)
    && IntAt(b, 4, 4, t.txType)
    && IntAt(b, 8, 4, |t.inputs|) && OutpointsStand(b, 12, t.inputs)
    && IntAt(b, q, 4, |t.outputs|) && ListStands(HashStands, HashSize, b, q + 4, t.outputs)
  }

  lemma DataLayout(b: Bytes, p: nat, x: Bytes)
    requires |x| < 0x1_0000_0000
    ensures At(b, p, ExtraHeader(|x|) + x) <==> DataStands(b, p, x)
    ensures |ExtraHeader(|x|) + x| == (if |x| > 65535 then 6 else 2) + |x|
  {
    Widths();
    hide At, IntAt, Le;
    AtSplit(b, p, ExtraHeader(|x|), x);
    if |x| > 65535 {
      AtSplit(b, p, Le(ESCAPE, 2), Le(|x|, 4));
      IntStands(b, p, 2, ESCAPE);
      IntStands(b, p + 2, 4, |x|);
    } else {
      IntStands(b, p, 2, |x|);
    }
  }

  lemma HashLayout(b: Bytes, p: nat, o: Output)
    requires HashOk(o)
    ensures At(b, p, HashBytes(o)) <==> HashStands(b, p, o)
    ensures |HashBytes(o)| == HashSize(o)
  {
    Widths();
    hide At, IntAt, Le, ExtraHeader, DataStands;
    var h1: Bytes := [o.outputType];
    var h2 := h1 + Le(o.amount, 8);
    var h3 := h2 + o.pubkeyHash;
    ByteStands(b, p, o.outputType);
    AtSplit(b, p, OutputHead(o), ExtraHeader(|o.extraData|) + o.extraData);
    AtSplit(b, p, h3, Le(o.lockUntil, 8));
    AtSplit(b, p, h2, o.pubkeyHash);
    AtSplit(b, p, h1, Le(o.amount, 8));
    IntStands(b, p + 1, 8, o.amount);
    IntStands(b, p + 41, 8, o.lockUntil);
    DataLayout(b, p + 49, o.extraData);
  }

  lemma FirstOutput(os: seq<Output>)
    requires os != [] && AllHashOk(os)
    ensures HashOk(os[0]) && AllHashOk(os[1..]) && HashOutputs(os) == HashBytes(os[0]) + HashOutputs(os[1..])
  {
    hide HashBytes;
  }

  lemma FirstHashed(b: Bytes, p: nat, os: seq<Output>)
    requires os != [] && AllHashOk(os)
    ensures AllHashOk(os[1..]) && |HashOutputs(os)| == HashSize(os[0]) + |HashOutputs(os[1..])|
    ensures At(b, p, HashOutputs(os))
            <==> HashStands(b, p, os[0]) && At(b, p + HashSize(os[0]), HashOutputs(os[1..]))
  {
    hide HashBytes, HashStands, HashSize, At, HashOutputs;
    FirstOutput(os);
    HashLayout(b, p, os[0]);
    AtSplit(b, p, HashBytes(os[0]), HashOutputs(os[1..]));
  }

  lemma {:induction false} OutputsHashed(b: Bytes, p: nat, os: seq<Output>)
    requires AllHashOk(os)
    ensures At(b, p, HashOutputs(os)) <==> ListStands(HashStands, HashSize, b, p, os)
    ensures |HashOutputs(os)| == Total(HashSize, os)
    decreases |os|
  {
    hide HashStands, HashSize;
    if os != [] {
      FirstHashed(b, p, os);
      ListTail(HashStands, HashSize, b, p, os);
      hide At, HashOutputs, ListStands, Total;
      OutputsHashed(b, p + HashSize(os[0]), os[1..]);
    }
  }

  /** The first n outpoints stand one behind the other. */
  predicate OutpointsStand(b: Bytes, p: nat, xs: seq<Input>) {
    p + 36 * |xs| <= |b| && forall k :: 0 <= k < |xs| ==> OutpointStands(b, p + 36 * k, xs[k])
  }

  lemma {:induction false} OutpointsHashed(b: Bytes, p: nat, xs: seq<Input>)
    requires forall k :: 0 <= k < |xs| ==> |xs[k].prevTxHash| == 32
    ensures |HashOutpoints(xs)| == 36 * |xs|
    ensures At(b, p, HashOutpoints(xs)) <==> OutpointsStand(b, p, xs)
    decreases |xs|
  {
    if xs != [] {
      var e, rest := xs[0].prevTxHash + Le(xs[0].outputIndex, 4), xs[1..];
      assert HashOutpoints(xs) == e + HashOutpoints(rest);
      OutpointLayout(b, p, xs[0]);
      ShiftOutpoints(b, p, xs);
      hide At, HashOutpoints, OutpointsStand, OutpointStands;
      OutpointsHashed(b, p + 36, rest);
      AtSplit(b, p, e, HashOutpoints(rest));
    }
  }

  lemma OutpointLayout(b: Bytes, p: nat, x: Input)
    requires |x.prevTxHash| == 32
    ensures At(b, p, x.prevTxHash + Le(x.outputIndex, 4)) <==> OutpointStands(b, p, x)
  {
    Widths();
    hide At, IntAt, Le;
    AtSplit(b, p, x.prevTxHash, Le(x.outputIndex, 4));
    IntStands(b, p + 32, 4, x.outputIndex);
  }

  lemma ShiftOutpoints(b: Bytes, p: nat, xs: seq<Input>)
    requires xs != []
    ensures OutpointsStand(b, p, xs) <==> OutpointStands(b, p, xs[0]) && OutpointsStand(b, p + 36, xs[1..])
  {
    hide OutpointStands;
    if OutpointsStand(b, p, xs) {
      assert OutpointStands(b, p + 36 * 0, xs[0]);
      forall k | 0 <= k < |xs| - 1 ensures OutpointStands(b, p + 36 + 36 * k, xs[1..][k]) {
        assert OutpointStands(b, p + 36 * (k + 1), xs[k + 1]);
      }
    }
    if OutpointStands(b, p, xs[0]) && OutpointsStand(b, p + 36, xs[1..]) {
      forall k | 0 <= k < |xs| ensures OutpointStands(b, p + 36 * k, xs[k]) {
        if k > 0 { assert OutpointStands(b, p + 36 + 36 * (k - 1), xs[1..][k - 1]); }
      }
    }
  }

  lemma CoreLayout(b: Bytes, t: Tx)
    requires TxHashOk(t)
    ensures At(b, 0, CommonPrefix(t)) <==> CoreStands(b, t)
    ensures |CommonPrefix(t)| == CoreSize(t)
  {
    Widths();
    hide At, IntAt, Le, HashOutpoints, HashOutputs, ListStands, OutpointsStand, Total;
    var q := 12 + 36 * |t.inputs|;
    OutpointsHashed(b, 12, t.inputs);
    OutputsHashed(b, q + 4, t.outputs);
    var p1 := Le(t.version, 4) + Le(t.txType, 4);
    var p2 := p1 + Le(|t.inputs|, 4);
    var p3 := p2 + HashOutpoints(t.inputs);
    var p4 := p3 + Le(|t.outputs|, 4);
    AtSplit(b, 0, p4, HashOutputs(t.outputs));
    AtSplit(b, 0, p3, Le(|t.outputs|, 4));
    AtSplit(b, 0, p2, HashOutpoints(t.inputs));
    AtSplit(b, 0, p1, Le(|t.inputs|, 4));
    AtSplit(b, 0, Le(t.version, 4), Le(t.txType, 4));
    IntStands(b, 0, 4, t.version);
    IntStands(b, 4, 4, t.txType);
    IntStands(b, 8, 4, |t.inputs|);
    IntStands(b, q, 4, |t.outputs|);
  }

  /** The transaction hash is taken of these bytes and no others: the core, then the counted extra data. */
  lemma HashedBytes(h: Bytes, t: Tx)
    requires TxHashOk(t)
    ensures h == HashPreimage(t)
            <==> && CoreStands(h, t) && |h| == CoreSize(t) + 4 + |t.extraData|
                 && IntAt(h, CoreSize(t), 4, |t.extraData|) && At(h, CoreSize(t) + 4, t.extraData)
  {
    hide CoreStands, CoreSize, Le, At, IntAt, Packable;
    var e := Le(|t.extraData|, 4) + t.extraData;
    CoreLayout(h, t);
    TailLayout(h, CoreSize(t), t.extraData);
    hide CommonPrefix;
    AtSplit(h, 0, CommonPrefix(t), e);
    assert HashPreimage(t) == CommonPrefix(t) + e;
    Whole(h, HashPreimage(t));
  }

  lemma TailLayout(b: Bytes, p: nat, x: Bytes)
    requires |x| < 0x1_0000_0000
    ensures At(b, p, Le(|x|, 4) + x) <==> IntAt(b, p, 4, |x|) && At(b, p + 4, x)
  {
    Widths();
    hide At, IntAt, Le;
    AtSplit(b, p, Le(|x|, 4), x);
    IntStands(b, p, 4, |x|);
  }

  /** A byte string is another exactly when that stands at its start and is as long. */
  lemma Whole(h: Bytes, e: Bytes)
    ensures h == e <==> At(h, 0, e) && |h| == |e|
  {
    assert h[0..|h|] == h;
  }

  /** The signing message: refused for another sighash type, else the core and the signed outpoint. */
  lemma SignedBytes(h: Bytes, t: Tx, i: nat)
    requires TxHashOk(t) && i < |t.inputs|
    ensures SigningPreimage(t, i) == Some(h)
            <==> && t.inputs[i].sighashType == 0 && CoreStands(h, t) && |h| == CoreSize(t) + 36
                 && OutpointStands(h, CoreSize(t), t.inputs[i])
    ensures SigningPreimage(t, i) == None <==> t.inputs[i].sighashType != 0
  {
    hide CoreStands, CoreSize, Le, At, OutpointStands, Packable;
    var x := t.inputs[i];
    assert |x.prevTxHash| == 32 by { OutpointLength(t, i); }
    var e := x.prevTxHash + Le(x.outputIndex, 4);
    CoreLayout(h, t);
    OutpointLayout(h, CoreSize(t), x);
    hide CommonPrefix;
    AtSplit(h, 0, CommonPrefix(t), e);
    assert CommonPrefix(t) + x.prevTxHash + Le(x.outputIndex, 4) == CommonPrefix(t) + e;
    Whole(h, CommonPrefix(t) + e);
  }

  lemma OutpointLength(t: Tx, i: nat)
    requires TxHashOk(t) && i < |t.inputs|
    ensures |t.inputs[i].prevTxHash| == 32
  {
  }
}
