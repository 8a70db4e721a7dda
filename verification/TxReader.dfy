/**
 * The cursor of scripts/gs010_txwire.py, read for read, and the block scan that finds a
 * transaction body without knowing the header.
 */
module TxReader {
  import opened WireBytes
  import opened TxWire
  import opened Wrappers

  /** A buffer and the position of the next read; every parse error is `None`. */
  class Reader {
    const buf: Bytes
    var pos: nat

    constructor (buf: Bytes, pos: nat)
      ensures this.buf == buf && this.pos == pos
    {
      this.buf, this.pos := buf, pos;
    }

    /** The call returned what reading at the old position yields, and left the cursor behind it. */
    ghost predicate Did<T>(r: Option<T>, read: Parsed<T>)
      reads this
    {
      match read
      case Reject => r.None?
      case Accept(v, q) => r == Some(v) && pos == q
    }

    method Take(n: nat) returns (r: Option<Bytes>)
      modifies this
      ensures Did(r, TakeAt(buf, old(pos), n))
    {
      if pos + n > |buf| { return None; }
      r := Some(buf[pos..pos + n]);
      pos := pos + n;
    }

    method U8() returns (r: Option<Byte>)
      modifies this
      ensures Did(r, ReadU8(buf, old(pos)))
    {
      var raw :- Take(1);
      return Some(raw[0]);
    }

    method U32() returns (r: Option<U32>)
      modifies this
      ensures Did(r, ReadU32(buf, old(pos)))
    {
      var raw :- Take(4);
      PackUnpack(raw); Widths();
      return Some(FromLe(raw));
    }

    method U64() returns (r: Option<U64>)
      modifies this
      ensures Did(r, ReadU64(buf, old(pos)))
    {
      var raw :- Take(8);
      PackUnpack(raw); Widths();
      return Some(FromLe(raw));
    }

    method SizedBytes(size: nat) returns (r: Option<Bytes>)
      modifies this
      ensures Did(r, ReadSized(buf, old(pos), size))
    {
      var n :- U64();
      if n != size { return None; }
      r := Take(n);
    }

    method ByteVec(limit: nat) returns (r: Option<Bytes>)
      modifies this
      ensures Did(r, ReadByteVec(buf, old(pos), limit))
    {
      var n :- U64();
      if n > limit { return None; }
      r := Take(n);
    }

    method Input() returns (r: Option<Input>)
      modifies this
      ensures Did(r, ReadInput(buf, old(pos)))
    {
      var prev :- SizedBytes(32);
      var idx :- U32();
      var sig :- SizedBytes(64);
      var sighash :- U32();
      if sighash > 1 { return None; }
      var committed :- U32();
      var tag :- U8();
      var pk: Option<Bytes>;
      if tag == 0 {
        pk := None;
      } else if tag == 1 {
        var raw :- SizedBytes(32);
        pk := Some(raw);
      } else {
        return None;
      }
      return Some(TxWire.Input(prev, idx, sig, sighash, committed, pk));
    }

    method Output() returns (r: Option<Output>)
      modifies this
      ensures Did(r, ReadOutput(buf, old(pos)))
    {
      var ot :- U32();
      if ot > MAX_OUTPUT_TYPE { return None; }
      var amount :- U64();
      var pkh :- SizedBytes(32);
      var lock :- U64();
      var extra :- ByteVec(MAX_OUTPUT_EXTRA);
      return Some(TxWire.Output(ot, amount, pkh, lock, extra));
    }

    method Inputs(n: nat) returns (r: Option<seq<Input>>)
      modifies this
      ensures Did(r, ReadMany(ReadInput, buf, old(pos), n))
    {
      hide ReadInput;
      var xs := [];
      PrependNone(ReadMany(ReadInput, buf, pos, n));
      for i := 0 to n
        invariant ReadMany(ReadInput, buf, old(pos), n) == Prepend(xs, ReadMany(ReadInput, buf, pos, n - i))
      {
        var x :- Input();
        PrependStep(xs, x, ReadMany(ReadInput, buf, pos, n - i - 1));
        xs := xs + [x];
      }
      assert xs + [] == xs;
      return Some(xs);
    }

    method Outputs(n: nat) returns (r: Option<seq<Output>>)
      modifies this
      ensures Did(r, ReadMany(ReadOutput, buf, old(pos), n))
    {
      hide ReadOutput;
      var xs := [];
      PrependNone(ReadMany(ReadOutput, buf, pos, n));
      for i := 0 to n
        invariant ReadMany(ReadOutput, buf, old(pos), n) == Prepend(xs, ReadMany(ReadOutput, buf, pos, n - i))
      {
        var x :- Output();
        PrependStep(xs, x, ReadMany(ReadOutput, buf, pos, n - i - 1));
        xs := xs + [x];
      }
      assert xs + [] == xs;
      return Some(xs);
    }

    method Tx() returns (r: Option<Tx>)
      modifies this
      ensures Did(r, ReadTx(buf, old(pos)))
    {
      var version :- U32();
      var txType :- U32();
      if txType > MAX_TX_TYPE { return None; }
      var n :- U64();
      if n > MAX_INPUTS { return None; }
      var inputs :- Inputs(n);
      var m :- U64();
      if m > MAX_OUTPUTS { return None; }
      var outputs :- Outputs(m);
      var extra :- ByteVec(MAX_TX_EXTRA);
      return Some(TxWire.Tx(version, txType, inputs, outputs, extra));
    }
  }

  ghost function Prepend<T>(xs: seq<T>, r: Parsed<seq<T>>): Parsed<seq<T>> {
    match r
    case Reject => Reject
    case Accept(ys, q) => Accept(xs + ys, q)
  }

  lemma PrependNone<T>(r: Parsed<seq<T>>)
    ensures Prepend([], r) == r
  {
    if r.Accept? { assert [] + r.value == r.value; }
  }

  lemma PrependStep<T>(xs: seq<T>, x: T, r: Parsed<seq<T>>)
    ensures r.Accept? ==> Prepend(xs, Accept([x] + r.value, r.next)) == Prepend(xs + [x], r)
  {
    if r.Accept? { assert xs + ([x] + r.value) == (xs + [x]) + r.value; }
  }

  // ----- the block body -----

  const SCAN_WINDOW := 8192
  const MAX_BLOCK_TXS := 4096
  const MAX_TRAILER := 0x1_0000

  /** What trails the header: the transactions, the BLS aggregate and the attestation bitfield. */
  datatype Body = Body(txs: seq<Tx>, blsSignature: Bytes, bitfield: Bytes)

  predicate BodyOk(d: Body) {
    && 1 <= |d.txs| <= MAX_BLOCK_TXS && ManyOk(TxOk, d.txs)
    && |d.blsSignature| <= MAX_TRAILER && |d.bitfield| <= MAX_TRAILER
  }

  function EncodeTrailer(d: Body): Bytes {
    BincodeBytes(d.blsSignature) + BincodeBytes(d.bitfield)
  }

  function EncodeBody(d: Body): Bytes {
    EncodeVec(EncodeTx, d.txs) + EncodeTrailer(d)
  }

  function ReadTrailer(b: Bytes, p: nat): Parsed<(Bytes, Bytes)> {
    var (sig, q) :- ReadByteVec(b, p, MAX_TRAILER);
    var (bits, r) :- ReadByteVec(b, q, MAX_TRAILER);
    Accept((sig, bits), r)
  }

  function ReadBody(b: Bytes, p: nat): Parsed<Body> {
    var (txs, q) :- ReadVec(ReadTx, b, p, MAX_BLOCK_TXS);
    if txs == [] then Reject else
    var (trailer, r) :- ReadTrailer(b, q);
    Accept(Body(txs, trailer.0, trailer.1), r)
  }

  lemma TxElementLaw(b: Bytes)
    ensures ElementLaw(ReadTx, EncodeTx, TxOk, b)
  {
    hide ReadTx, EncodeTx, TxOk;
    forall q: nat, v: Tx ensures Exact(ReadTx(b, q), v, TxOk(v), b, q, EncodeTx(v)) { TxLaw(b, q, v); }
  }

  lemma TxsLaw(b: Bytes, p: nat, vs: seq<Tx>)
    ensures Exact(ReadVec(ReadTx, b, p, MAX_BLOCK_TXS), vs, |vs| <= MAX_BLOCK_TXS && ManyOk(TxOk, vs),
                  b, p, EncodeVec(EncodeTx, vs))
  {
    hide ReadTx, EncodeTx, TxOk, ElementLaw, ReadVec, EncodeVec;
    TxElementLaw(b);
    VecLaw(ReadTx, EncodeTx, TxOk, b, p, MAX_BLOCK_TXS, vs);
  }

  lemma TrailerLaw(b: Bytes, p: nat, d: Body)
    ensures Exact(ReadTrailer(b, p), (d.blsSignature, d.bitfield),
                  |d.blsSignature| <= MAX_TRAILER && |d.bitfield| <= MAX_TRAILER, b, p, EncodeTrailer(d))
  {
    hide ReadByteVec, BincodeBytes;
    var e := BincodeBytes(d.blsSignature);
    ByteVecLaw(b, p, MAX_TRAILER, d.blsSignature);
    ByteVecLaw(b, p + |e|, MAX_TRAILER, d.bitfield);
    AtSplit(b, p, e, BincodeBytes(d.bitfield));
  }

  lemma BodyLaw(b: Bytes, p: nat, d: Body)
    ensures Exact(ReadBody(b, p), d, BodyOk(d), b, p, EncodeBody(d))
  {
    hide ReadVec, EncodeVec, ReadTrailer, EncodeTrailer, ManyOk;
    TxsLaw(b, p, d.txs);
    TrailerLaw(b, p + |EncodeVec(EncodeTx, d.txs)|, d);
    AtSplit(b, p, EncodeVec(EncodeTx, d.txs), EncodeTrailer(d));
  }
}
