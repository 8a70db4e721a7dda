/** `find_tx_in_block` (scripts/gs010_txwire.py:274-315): find a block's body behind an unparsed header. */
module BlockScan {
  import opened WireBytes
  import opened TxWire
  import opened TxReader
  import opened TxHash
  import opened Wrappers

  /** `Drifted` is the WireError of the re-serialisation gate. */
  datatype Scan = Found(tx: Tx) | Absent | Drifted

  // ----- what the scan is to find, said without a reader -----

  /** From `start` on, the buffer is exactly one admitted body. */
  ghost predicate BodyStands(raw: Bytes, start: nat, d: Body) {
    start <= |raw| && BodyOk(d) && raw[start..] == EncodeBody(d)
  }

  predicate Fills(raw: Bytes, start: nat) {
    ReadBody(raw, start).Accept? && ReadBody(raw, start).next == |raw|
  }

  lemma FillsExact(raw: Bytes, start: nat, d: Body)
    ensures BodyStands(raw, start, d) <==> Fills(raw, start) && ReadBody(raw, start).value == d
  {
    hide ReadBody, EncodeBody, BodyOk;
    BodyLaw(raw, start, d);
    if Fills(raw, start) && ReadBody(raw, start).value == d {
      assert raw[start..] == raw[start..start + |EncodeBody(d)|];
    }
    if BodyStands(raw, start, d) {
      assert raw[start..start + |EncodeBody(d)|] == raw[start..];
    }
  }

  /** At most one body can stand at an offset. */
  lemma BodyUnique(raw: Bytes, start: nat, d: Body, e: Body)
    requires BodyStands(raw, start, d) && BodyStands(raw, start, e)
    ensures d == e
  {
    hide ReadBody, EncodeBody, BodyOk;
    FillsExact(raw, start, d);
    FillsExact(raw, start, e);
  }

  function Window(raw: Bytes): nat {
    if |raw| < SCAN_WINDOW then |raw| else SCAN_WINDOW
  }

  function FirstBody(raw: Bytes, start: nat): (r: Option<Body>)
    ensures r.Some? ==> BodyOk(r.value)
    decreases Window(raw) - start
  {
    if start >= Window(raw) then None
    else if Fills(raw, start) then
      var d := ReadBody(raw, start).value;
      FillsExact(raw, start, d);
      Some(d)
    else FirstBody(raw, start + 1)
  }

  /** The body found is the one at the first offset of the window where any body stands. */
  lemma {:induction false} FirstBodyExact(raw: Bytes, from: nat, d: Body)
    ensures FirstBody(raw, from) == Some(d)
            <==> exists start :: from <= start < Window(raw) && BodyStands(raw, start, d)
                                 && forall s, e :: from <= s < start ==> !BodyStands(raw, s, e)
    decreases Window(raw) - from
  {
    hide ReadBody, BodyStands, EncodeBody, BodyOk;
    if from < Window(raw) {
      if Fills(raw, from) {
        var e := ReadBody(raw, from).value;
        FillsExact(raw, from, e);
        FillsExact(raw, from, d);
      } else {
        forall e ensures !BodyStands(raw, from, e) { FillsExact(raw, from, e); }
        FirstBodyExact(raw, from + 1, d);
      }
    }
  }

  /** A body behind any header shorter than the window is found, unless a body stands before it. */
  lemma FoundBehindHeader(header: Bytes, d: Body)
    requires BodyOk(d) && |header| < SCAN_WINDOW
    requires forall s, e :: 0 <= s < |header| ==> !BodyStands(header + EncodeBody(d), s, e)
    ensures FirstBody(header + EncodeBody(d), 0) == Some(d)
  {
    hide ReadBody, BodyOk, FirstBody;
    var raw := header + EncodeBody(d);
    assert raw[|header|..] == EncodeBody(d);
    assert BodyStands(raw, |header|, d);
    FirstBodyExact(raw, 0, d);
  }

  function FirstWithHash(txs: seq<Tx>, want: Bytes, b3: Bytes -> Bytes): Option<Tx>
    requires ManyOk(TxOk, txs)
  {
    if txs == [] then None
    else
      WireTxHashable(txs[0]);
      if b3(HashPreimage(txs[0])) == want then Some(txs[0]) else FirstWithHash(txs[1..], want, b3)
  }

  predicate Hashes(tx: Tx, want: Bytes, b3: Bytes -> Bytes)
    requires TxOk(tx)
  {
    WireTxHashable(tx);
    b3(HashPreimage(tx)) == want
  }

  /** tx stands at i, hashes to what is wanted, and none before it does. */
  predicate IsFirst(txs: seq<Tx>, want: Bytes, b3: Bytes -> Bytes, tx: Tx, i: nat)
    requires ManyOk(TxOk, txs)
  {
    && i < |txs| && txs[i] == tx && Hashes(tx, want, b3)
    && forall j :: 0 <= j < i ==> !Hashes(txs[j], want, b3)
  }

  /** The transaction found is the first whose hash is the wanted one; none is found when none has it. */
  lemma {:induction false} FirstWithHashExact(txs: seq<Tx>, want: Bytes, b3: Bytes -> Bytes, tx: Tx)
    requires ManyOk(TxOk, txs)
    ensures FirstWithHash(txs, want, b3) == Some(tx)
            <==> exists i: nat :: IsFirst(txs, want, b3, tx, i)
    ensures FirstWithHash(txs, want, b3) == None <==> forall i :: 0 <= i < |txs| ==> !Hashes(txs[i], want, b3)
  {
    hide TxOk, HashPreimage;
    if txs != [] {
      var rest := txs[1..];
      FirstWithHashExact(rest, want, b3, tx);
      WireTxHashable(txs[0]);
      assert FirstWithHash(txs, want, b3)
             == if Hashes(txs[0], want, b3) then Some(txs[0]) else FirstWithHash(rest, want, b3);
      assert forall i :: 0 <= i < |rest| ==> rest[i] == txs[i + 1];
      if Hashes(txs[0], want, b3) { assert IsFirst(txs, want, b3, txs[0], 0); }
      if i: nat :| IsFirst(rest, want, b3, tx, i) {
        if !Hashes(txs[0], want, b3) {
          forall j | 0 <= j < i + 1 ensures !Hashes(txs[j], want, b3) {
            if j > 0 { assert !Hashes(rest[j - 1], want, b3); }
          }
          assert IsFirst(txs, want, b3, tx, i + 1);
        }
      }
      if i: nat :| IsFirst(txs, want, b3, tx, i) {
        if i > 0 { assert IsFirst(rest, want, b3, tx, i - 1); }
      }
    }
  }

  function Expected(raw: Bytes, want: Bytes, b3: Bytes -> Bytes): Scan {
    match FirstBody(raw, 0)
    case None => Absent
    case Some(d) =>
      match FirstWithHash(d.txs, want, b3)
      case None => Absent
      case Some(tx) => Found(tx)
  }

  /** The body at the first of the first 8192 offsets where any body fills the rest of the buffer. */
  ghost predicate FirstStanding(raw: Bytes, start: nat, d: Body) {
    && start < |raw| && start < 8192 && BodyStands(raw, start, d)
    && forall s, e :: 0 <= s < start ==> !BodyStands(raw, s, e)
  }

  /** The transaction of a body that is the first with the wanted hash. */
  ghost predicate Wanted(d: Body, want: Bytes, b3: Bytes -> Bytes, tx: Tx) {
    BodyOk(d) && exists i: nat :: IsFirst(d.txs, want, b3, tx, i)
  }

  /** What the scan is to find is that body's transaction, whatever other bodies and transactions there are. */
  lemma FoundExact(raw: Bytes, want: Bytes, b3: Bytes -> Bytes, tx: Tx)
    ensures Expected(raw, want, b3) == Found(tx)
            <==> exists start: nat, d :: FirstStanding(raw, start, d) && Wanted(d, want, b3, tx)
    ensures !Expected(raw, want, b3).Drifted?
  {
    hide BodyStands, BodyOk, IsFirst, FirstBody, FirstWithHash;
    forall d ensures FirstBody(raw, 0) == Some(d) <==> exists start: nat :: FirstStanding(raw, start, d) {
      FirstBodyExact(raw, 0, d);
      if start: nat :| FirstStanding(raw, start, d) { assert start < Window(raw); }
      if FirstBody(raw, 0) == Some(d) {
        var start :| 0 <= start < Window(raw) && BodyStands(raw, start, d)
                     && forall s, e :: 0 <= s < start ==> !BodyStands(raw, s, e);
        assert FirstStanding(raw, start, d);
      }
    }
    var first := FirstBody(raw, 0);
    if first.Some? {
      TxsOk(first.value);
      FirstWithHashExact(first.value.txs, want, b3, tx);
    }
    if start: nat, d :| FirstStanding(raw, start, d) && Wanted(d, want, b3, tx) { assert FirstBody(raw, 0) == Some(d); }
  }

  lemma TxsOk(d: Body)
    requires BodyOk(d)
    ensures ManyOk(TxOk, d.txs)
  {
  }

  // ----- the scan -----

  /** Each transaction with the bytes it was read from. */
  ghost predicate SpansOf(spans: seq<(Tx, Bytes)>, txs: seq<Tx>) {
    |spans| == |txs| && forall i :: 0 <= i < |txs| ==>
        spans[i].0 == txs[i] && TxOk(txs[i]) && spans[i].1 == EncodeTx(txs[i])
  }

  method ReadSpans(r: Reader, count: nat) returns (spans: Option<seq<(Tx, Bytes)>>)
    modifies r
    ensures var read := ReadMany(ReadTx, r.buf, old(r.pos), count);
            match read
            case Reject => spans.None?
            case Accept(txs, q) => spans.Some? && SpansOf(spans.value, txs) && r.pos == q
  {
    hide ReadTx, EncodeTx, TxOk;
    var out: seq<(Tx, Bytes)> := [];
    ghost var txs := [];
    PrependNone(ReadMany(ReadTx, r.buf, r.pos, count));
    for i := 0 to count
      invariant ReadMany(ReadTx, r.buf, old(r.pos), count) == Prepend(txs, ReadMany(ReadTx, r.buf, r.pos, count - i))
      invariant SpansOf(out, txs)
    {
      var begin := r.pos;
      var tx :- r.Tx();
      TxLaw(r.buf, begin, tx);
      PrependStep(txs, tx, ReadMany(ReadTx, r.buf, r.pos, count - i - 1));
      out, txs := out + [(tx, r.buf[begin..r.pos])], txs + [tx];
    }
    assert txs + [] == txs;
    return Some(out);
  }

  method BodyFrom(raw: Bytes, start: nat) returns (spans: Option<seq<(Tx, Bytes)>>)
    ensures spans.Some? <==> Fills(raw, start)
    ensures spans.Some? ==> SpansOf(spans.value, ReadBody(raw, start).value.txs)
  {
    hide ReadTx, EncodeTx, TxOk, ReadByteVec;
    var r := new Reader(raw, start);
    var count :- r.U64();
    if count < 1 || count > MAX_BLOCK_TXS { return None; }
    ghost var q := r.pos;
    ReadManyLength(ReadTx, raw, q, count);
    var out :- ReadSpans(r, count);
    var sig :- r.ByteVec(MAX_TRAILER);
    var bits :- r.ByteVec(MAX_TRAILER);
    if r.pos != |raw| { return None; }
    return Some(out);
  }

  method FindTxInBlock(raw: Bytes, want: Bytes, b3: Bytes -> Bytes) returns (r: Scan)
    ensures r == Expected(raw, want, b3)
    ensures !r.Drifted?
    ensures forall tx :: r == Found(tx)
                         <==> exists start: nat, d :: FirstStanding(raw, start, d) && Wanted(d, want, b3, tx)
  {
    forall tx ensures Expected(raw, want, b3) == Found(tx)
                      <==> exists start: nat, d :: FirstStanding(raw, start, d) && Wanted(d, want, b3, tx)
    {
      FoundExact(raw, want, b3, tx);
    }
    hide ReadBody, EncodeTx, TxOk, HashPreimage, FirstStanding, Wanted;
    for start := 0 to Window(raw)
      invariant FirstBody(raw, 0) == FirstBody(raw, start)
    {
      var body := BodyFrom(raw, start);
      if body.Some? {
        var spans := body.value;
        ghost var txs := ReadBody(raw, start).value.txs;
        for i := 0 to |spans|
          invariant FirstWithHash(txs, want, b3) == FirstWithHash(txs[i..], want, b3)
        {
          var (tx, span) := spans[i];
          assert TxOk(txs[i]);
          WireTxHashable(tx);
          assert txs[i..][0] == tx && txs[i..][1..] == txs[i + 1..];
          if b3(HashPreimage(tx)) == want {
            if EncodeTx(tx) != span { return Drifted; }
            return Found(tx);
          }
        }
        return Absent;
      }
    }
    return Absent;
  }
}
