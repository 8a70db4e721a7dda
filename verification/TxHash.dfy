/**
 * The bytes fed to the transaction hash and to the signing hash (scripts/gs010_txwire.py:191-268):
 * a second encoding, never parsed back, whose injectivity is what the hashes rest on.
 */
module TxHash {
  import opened WireBytes
  import opened TxWire
  import opened Wrappers

  const ESCAPE := 0xFFFF

  /** What `bytes([..])` and `struct.pack("<I", ..)` accept. */
  predicate Packable(o: Output) {
    o.outputType < 256 && |o.extraData| < 0x1_0000_0000
  }

  predicate HashOk(o: Output) {
    Packable(o) && |o.pubkeyHash| == 32
  }

  predicate TxPackable(t: Tx) {
    && |t.inputs| < 0x1_0000_0000 && |t.outputs| < 0x1_0000_0000 && |t.extraData| < 0x1_0000_0000
    && forall i :: 0 <= i < |t.outputs| ==> Packable(t.outputs[i])
  }

  predicate TxHashOk(t: Tx) {
    && TxPackable(t)
    && (forall i :: 0 <= i < |t.inputs| ==> |t.inputs[i].prevTxHash| == 32)
    && AllHashOk(t.outputs)
  }

  function ExtraHeader(length: nat): Bytes
    requires length < 0x1_0000_0000
  {
    if length > 65535 then Le(ESCAPE, 2) + Le(length, 4) else Le(length, 2)
  }

  function OutputHead(o: Output): Bytes
    requires Packable(o)
  {
    [o.outputType] + Le(o.amount, 8) + o.pubkeyHash + Le(o.lockUntil, 8)
  }

  function HashBytes(o: Output): Bytes
    requires Packable(o)
  {
    OutputHead(o) + (ExtraHeader(|o.extraData|) + o.extraData)
  }

  function HashOutpoints(inputs: seq<Input>): Bytes {
    if inputs == [] then []
    else inputs[0].prevTxHash + Le(inputs[0].outputIndex, 4) + HashOutpoints(inputs[1..])
  }

  function HashOutputs(outputs: seq<Output>): Bytes
    requires forall i :: 0 <= i < |outputs| ==> Packable(outputs[i])
  {
    if outputs == [] then [] else HashBytes(outputs[0]) + HashOutputs(outputs[1..])
  }

  function PrefixHead(t: Tx): Bytes
    requires TxPackable(t)
  {
    Le(t.version, 4) + Le(t.txType, 4) + Le(|t.inputs|, 4)
  }

  function CommonPrefix(t: Tx): Bytes
    requires TxPackable(t)
  {
    PrefixHead(t) + HashOutpoints(t.inputs) + Le(|t.outputs|, 4) + HashOutputs(t.outputs)
  }

  function HashPreimage(t: Tx): Bytes
    requires TxPackable(t)
  {
    CommonPrefix(t) + Le(|t.extraData|, 4) + t.extraData
  }

  /** `signing_message_for_input`: refused unless the input commits to the whole transaction. */
  function SigningPreimage(t: Tx, i: nat): Option<Bytes>
    requires TxPackable(t) && i < |t.inputs|
  {
    if t.inputs[i].sighashType != 0 then None
    else Some(CommonPrefix(t) + t.inputs[i].prevTxHash + Le(t.inputs[i].outputIndex, 4))
  }

  // ----- what the preimages determine -----

  predicate SameOutpoint(i: Input, j: Input) {
    i.prevTxHash == j.prevTxHash && i.outputIndex == j.outputIndex
  }

  /** Equal but for signatures, public keys, sighash fields and extra data. */
  predicate SameCore(t: Tx, u: Tx) {
    && t.version == u.version && t.txType == u.txType && t.outputs == u.outputs
    && |t.inputs| == |u.inputs|
    && forall i :: 0 <= i < |t.inputs| ==> SameOutpoint(t.inputs[i], u.inputs[i])
  }

  /** One length fills the u16 exactly, the other is escaped by the same two bytes. */
  predicate Clash(o: Output, q: Output) {
    || (|o.extraData| == ESCAPE && |q.extraData| > ESCAPE)
    || (|o.extraData| > ESCAPE && |q.extraData| == ESCAPE)
  }

  predicate NoClash(t: Tx, u: Tx) {
    forall i :: 0 <= i < |t.outputs| && i < |u.outputs| ==> !Clash(t.outputs[i], u.outputs[i])
  }

  lemma HeadCancel(o: Output, s: Bytes, q: Output, t: Bytes)
    requires HashOk(o) && HashOk(q)
    requires OutputHead(o) + s == OutputHead(q) + t
    ensures o.(extraData := []) == q.(extraData := []) && s == t
  {
    Cancel(OutputHead(o), s, OutputHead(q), t);
    var o3 := [o.outputType] + Le(o.amount, 8) + o.pubkeyHash;
    var q3 := [q.outputType] + Le(q.amount, 8) + q.pubkeyHash;
    Cancel(o3, Le(o.lockUntil, 8), q3, Le(q.lockUntil, 8));
    Cancel([o.outputType] + Le(o.amount, 8), o.pubkeyHash, [q.outputType] + Le(q.amount, 8), q.pubkeyHash);
    Cancel([o.outputType], Le(o.amount, 8), [q.outputType], Le(q.amount, 8));
    Widths();
    PackInjective(o.amount, q.amount, 8);
    PackInjective(o.lockUntil, q.lockUntil, 8);
  }

  /** The two bytes every data field starts with, and what follows them. */
  function Marker(x: Bytes): nat { if |x| > 65535 then ESCAPE else |x| }

  function AfterMarker(x: Bytes, s: Bytes): Bytes
    requires |x| < 0x1_0000_0000
  {
    if |x| > 65535 then Le(|x|, 4) + (x + s) else x + s
  }

  lemma MarkerSplit(x: Bytes, s: Bytes)
    requires |x| < 0x1_0000_0000
    ensures (ExtraHeader(|x|) + x) + s == Le(Marker(x), 2) + AfterMarker(x, s)
  {
    if |x| > 65535 {
      assert (Le(ESCAPE, 2) + Le(|x|, 4) + x) + s == Le(ESCAPE, 2) + (Le(|x|, 4) + (x + s));
    } else {
      assert (Le(|x|, 2) + x) + s == Le(|x|, 2) + (x + s);
    }
  }

  /** The length header with its data, when the two lengths cannot be taken for each other. */
  lemma ExtraCancel(x: Bytes, s: Bytes, y: Bytes, t: Bytes)
    requires |x| < 0x1_0000_0000 && |y| < 0x1_0000_0000
    requires !(|x| == ESCAPE && |y| > ESCAPE) && !(|x| > ESCAPE && |y| == ESCAPE)
    requires (ExtraHeader(|x|) + x) + s == (ExtraHeader(|y|) + y) + t
    ensures x == y && s == t
  {
    hide ExtraHeader;
    Widths();
    MarkerSplit(x, s);
    MarkerSplit(y, t);
    Cancel(Le(Marker(x), 2), AfterMarker(x, s), Le(Marker(y), 2), AfterMarker(y, t));
    PackInjective(Marker(x), Marker(y), 2);
    if |x| > 65535 {
      Cancel(Le(|x|, 4), x + s, Le(|y|, 4), y + t);
      PackInjective(|x|, |y|, 4);
    }
    Cancel(x, s, y, t);
  }

  lemma OutputCancel(o: Output, s: Bytes, q: Output, t: Bytes)
    requires HashOk(o) && HashOk(q) && !Clash(o, q)
    requires HashBytes(o) + s == HashBytes(q) + t
    ensures o == q && s == t
  {
    hide OutputHead, ExtraHeader;
    var x := ExtraHeader(|o.extraData|) + o.extraData;
    var y := ExtraHeader(|q.extraData|) + q.extraData;
    assert OutputHead(o) + (x + s) == HashBytes(o) + s;
    assert OutputHead(q) + (y + t) == HashBytes(q) + t;
    HeadCancel(o, x + s, q, y + t);
    ExtraCancel(o.extraData, s, q.extraData, t);
  }

  predicate AllHashOk(os: seq<Output>) {
    forall i :: 0 <= i < |os| ==> HashOk(os[i])
  }

  lemma HashOutputsStep(os: seq<Output>, s: Bytes)
    requires os != [] && AllHashOk(os)
    ensures AllHashOk(os[1..])
    ensures HashOutputs(os) + s == HashBytes(os[0]) + (HashOutputs(os[1..]) + s)
  {
    hide HashBytes;
  }

  predicate Unclashed(os: seq<Output>, qs: seq<Output>)
    requires |os| == |qs|
  {
    forall i :: 0 <= i < |os| ==> !Clash(os[i], qs[i])
  }

  lemma {:induction false} OutputsCancel(os: seq<Output>, s: Bytes, qs: seq<Output>, t: Bytes)
    requires |os| == |qs| && AllHashOk(os) && AllHashOk(qs) && Unclashed(os, qs)
    requires HashOutputs(os) + s == HashOutputs(qs) + t
    ensures os == qs && s == t
  {
    if os == [] {
      assert [] + s == s && [] + t == t;
    } else {
      HashOutputsStep(os, s);
      HashOutputsStep(qs, t);
      hide HashBytes, Clash, HashOutputs;
      OutputCancel(os[0], HashOutputs(os[1..]) + s, qs[0], HashOutputs(qs[1..]) + t);
      OutputsCancel(os[1..], s, qs[1..], t);
      assert os == [os[0]] + os[1..] && qs == [qs[0]] + qs[1..];
    }
  }

  lemma {:induction false} OutpointsCancel(xs: seq<Input>, s: Bytes, ys: seq<Input>, t: Bytes)
    requires |xs| == |ys|
    requires forall i :: 0 <= i < |xs| ==> |xs[i].prevTxHash| == 32 && |ys[i].prevTxHash| == 32
    requires HashOutpoints(xs) + s == HashOutpoints(ys) + t
    ensures forall i :: 0 <= i < |xs| ==> SameOutpoint(xs[i], ys[i])
    ensures s == t
  {
    if xs == [] {
      assert [] + s == s && [] + t == t;
    } else {
      var a, b := xs[0].prevTxHash + Le(xs[0].outputIndex, 4), ys[0].prevTxHash + Le(ys[0].outputIndex, 4);
      assert HashOutpoints(xs) + s == a + (HashOutpoints(xs[1..]) + s);
      assert HashOutpoints(ys) + t == b + (HashOutpoints(ys[1..]) + t);
      Cancel(a, HashOutpoints(xs[1..]) + s, b, HashOutpoints(ys[1..]) + t);
      Cancel(xs[0].prevTxHash, Le(xs[0].outputIndex, 4), ys[0].prevTxHash, Le(ys[0].outputIndex, 4));
      Widths();
      PackInjective(xs[0].outputIndex, ys[0].outputIndex, 4);
      OutpointsCancel(xs[1..], s, ys[1..], t);
      forall i | 0 <= i < |xs| ensures SameOutpoint(xs[i], ys[i]) {
        if i > 0 { assert SameOutpoint(xs[1..][i - 1], ys[1..][i - 1]); }
      }
    }
  }

  lemma PrefixHeadCancel(t: Tx, r: Bytes, u: Tx, s: Bytes)
    requires TxPackable(t) && TxPackable(u)
    requires PrefixHead(t) + r == PrefixHead(u) + s
    ensures t.version == u.version && t.txType == u.txType && |t.inputs| == |u.inputs| && r == s
  {
    Widths();
    Cancel(PrefixHead(t), r, PrefixHead(u), s);
    Cancel(Le(t.version, 4) + Le(t.txType, 4), Le(|t.inputs|, 4), Le(u.version, 4) + Le(u.txType, 4),
           Le(|u.inputs|, 4));
    Cancel(Le(t.version, 4), Le(t.txType, 4), Le(u.version, 4), Le(u.txType, 4));
    PackInjective(t.version, u.version, 4);
    PackInjective(t.txType, u.txType, 4);
    PackInjective(|t.inputs|, |u.inputs|, 4);
  }

  lemma PrefixCancel(t: Tx, r: Bytes, u: Tx, s: Bytes)
    requires TxHashOk(t) && TxHashOk(u) && NoClash(t, u)
    requires CommonPrefix(t) + r == CommonPrefix(u) + s
    ensures SameCore(t, u) && r == s
  {
    hide PrefixHead, HashOutpoints, HashOutputs;
    var tr := HashOutputs(t.outputs) + r;
    var us := HashOutputs(u.outputs) + s;
    var tn := Le(|t.outputs|, 4) + tr;
    var un := Le(|u.outputs|, 4) + us;
    assert CommonPrefix(t) + r == PrefixHead(t) + (HashOutpoints(t.inputs) + tn);
    assert CommonPrefix(u) + s == PrefixHead(u) + (HashOutpoints(u.inputs) + un);
    PrefixHeadCancel(t, HashOutpoints(t.inputs) + tn, u, HashOutpoints(u.inputs) + un);
    OutpointsCancel(t.inputs, tn, u.inputs, un);
    Cancel(Le(|t.outputs|, 4), tr, Le(|u.outputs|, 4), us);
    Widths();
    PackInjective(|t.outputs|, |u.outputs|, 4);
    OutputsCancel(t.outputs, r, u.outputs, s);
  }

  lemma {:induction false} SameOutpointsHash(xs: seq<Input>, ys: seq<Input>)
    requires |xs| == |ys| && forall i :: 0 <= i < |xs| ==> SameOutpoint(xs[i], ys[i])
    ensures HashOutpoints(xs) == HashOutpoints(ys)
  {
    if xs != [] {
      assert SameOutpoint(xs[0], ys[0]);
      assert forall i :: 0 <= i < |xs| - 1 ==> xs[1..][i] == xs[i + 1] && ys[1..][i] == ys[i + 1];
      SameOutpointsHash(xs[1..], ys[1..]);
    }
  }

  /** Signatures, keys, sighash fields and extra data never enter the common prefix. */
  lemma SameCorePrefix(t: Tx, u: Tx)
    requires TxPackable(t) && TxPackable(u) && SameCore(t, u)
    ensures CommonPrefix(t) == CommonPrefix(u)
  {
    SameOutpointsHash(t.inputs, u.inputs);
  }

  /** The transaction-hash preimage fixes everything but signatures, keys and sighash fields. */
  lemma HashPreimageExact(t: Tx, u: Tx)
    requires TxHashOk(t) && TxHashOk(u) && NoClash(t, u)
    ensures HashPreimage(t) == HashPreimage(u) <==> SameCore(t, u) && t.extraData == u.extraData
  {
    hide CommonPrefix, SameCore;
    var r := Le(|t.extraData|, 4) + t.extraData;
    var s := Le(|u.extraData|, 4) + u.extraData;
    assert HashPreimage(t) == CommonPrefix(t) + r;
    assert HashPreimage(u) == CommonPrefix(u) + s;
    if HashPreimage(t) == HashPreimage(u) {
      PrefixCancel(t, r, u, s);
      Cancel(Le(|t.extraData|, 4), t.extraData, Le(|u.extraData|, 4), u.extraData);
    }
    if SameCore(t, u) && t.extraData == u.extraData { SameCorePrefix(t, u); }
  }

  /** The signing preimage fixes the same, leaves extra data out, and adds the signed outpoint. */
  lemma SigningPreimageExact(t: Tx, i: nat, u: Tx, j: nat)
    requires TxHashOk(t) && TxHashOk(u) && NoClash(t, u)
    requires i < |t.inputs| && j < |u.inputs|
    requires t.inputs[i].sighashType == 0 && u.inputs[j].sighashType == 0
    ensures SigningPreimage(t, i) == SigningPreimage(u, j)
            <==> SameCore(t, u) && SameOutpoint(t.inputs[i], u.inputs[j])
  {
    hide CommonPrefix, SameCore;
    var r := t.inputs[i].prevTxHash + Le(t.inputs[i].outputIndex, 4);
    var s := u.inputs[j].prevTxHash + Le(u.inputs[j].outputIndex, 4);
    assert CommonPrefix(t) + t.inputs[i].prevTxHash + Le(t.inputs[i].outputIndex, 4) == CommonPrefix(t) + r;
    assert CommonPrefix(u) + u.inputs[j].prevTxHash + Le(u.inputs[j].outputIndex, 4) == CommonPrefix(u) + s;
    if SigningPreimage(t, i) == SigningPreimage(u, j) {
      PrefixCancel(t, r, u, s);
      Cancel(t.inputs[i].prevTxHash, Le(t.inputs[i].outputIndex, 4), u.inputs[j].prevTxHash,
             Le(u.inputs[j].outputIndex, 4));
      Widths();
      PackInjective(t.inputs[i].outputIndex, u.inputs[j].outputIndex, 4);
    }
    if SameCore(t, u) { SameCorePrefix(t, u); }
  }

  lemma WireTxHashable(t: Tx)
    requires TxOk(t)
    ensures TxHashOk(t)
  {
    forall i | 0 <= i < |t.outputs| ensures HashOk(t.outputs[i]) { assert OutputOk(t.outputs[i]); }
    forall i | 0 <= i < |t.inputs| ensures |t.inputs[i].prevTxHash| == 32 { assert InputOk(t.inputs[i]); }
  }

  // ----- exactly when an output can be taken for another -----

  /** No other output, whatever follows either of them, hashes from the same bytes. */
  ghost predicate SelfDelimiting(o: Output)
    requires HashOk(o)
  {
    forall q: Output, s: Bytes, t: Bytes ::
      HashOk(q) && HashBytes(o) + s == HashBytes(q) + t ==> o == q && s == t
  }

  function Zeros(n: nat): Bytes { seq(n, _ => 0) }

  lemma LongForm(x: Bytes)
    requires |x| == ESCAPE && ESCAPE < FromLe(x[..4])
    ensures FromLe(x[..4]) < 0x1_0000_0000
    ensures var n := FromLe(x[..4]);
            var pad := Zeros(n - 65531);
            (ExtraHeader(|x|) + x) + pad == ExtraHeader(n) + (x[4..] + pad) && |x[4..] + pad| == n
  {
    PackUnpack(x[..4]); Widths();
    assert x == x[..4] + x[4..];
  }

  /** Every escaped output hashes like an output of the marker's length with bytes behind it. */
  function ShortTwin(o: Output): Output
    requires ESCAPE < |o.extraData| < 0x1_0000_0000
  {
    o.(extraData := Le(|o.extraData|, 4) + o.extraData[..65531])
  }

  lemma ShortTwinHash(o: Output)
    requires HashOk(o) && ESCAPE < |o.extraData|
    ensures HashBytes(o) == HashBytes(ShortTwin(o)) + o.extraData[65531..]
  {
    var x := o.extraData;
    var y := ShortTwin(o).extraData;
    assert x == x[..65531] + x[65531..];
    assert ExtraHeader(|x|) + x == (ExtraHeader(|y|) + y) + x[65531..];
  }

  /**
   * An output is self-delimiting exactly when its data is shorter than the escape marker, or of the
   * marker's length with first four bytes that no escaped length can read as.
   */
  lemma SelfDelimitingExact(o: Output)
    requires HashOk(o)
    ensures SelfDelimiting(o)
            <==> |o.extraData| < ESCAPE || (|o.extraData| == ESCAPE && FromLe(o.extraData[..4]) <= ESCAPE)
  {
    var x := o.extraData;
    if |x| > ESCAPE {
      ShortTwinHash(o);
      assert HashBytes(o) + [] == HashBytes(ShortTwin(o)) + x[65531..];
      assert !SelfDelimiting(o);
    } else if |x| == ESCAPE && FromLe(x[..4]) > ESCAPE {
      LongForm(x);
      var pad := Zeros(FromLe(x[..4]) - 65531);
      var q := o.(extraData := x[4..] + pad);
      assert HashBytes(o) + pad == HashBytes(q) + [];
      assert !SelfDelimiting(o);
    } else {
      forall q: Output, s: Bytes, t: Bytes | HashOk(q) && HashBytes(o) + s == HashBytes(q) + t
        ensures o == q && s == t
      {
        NoLongTwin(o, s, q, t);
        OutputCancel(o, s, q, t);
      }
    }
  }

  lemma NoLongTwin(o: Output, s: Bytes, q: Output, t: Bytes)
    requires HashOk(o) && HashOk(q) && HashBytes(o) + s == HashBytes(q) + t
    requires |o.extraData| < ESCAPE || (|o.extraData| == ESCAPE && FromLe(o.extraData[..4]) <= ESCAPE)
    ensures !Clash(o, q)
  {
    if Clash(o, q) {
      var x, y := o.extraData, q.extraData;
      var ex, ey := ExtraHeader(|x|) + x, ExtraHeader(|y|) + y;
      assert OutputHead(o) + (ex + s) == OutputHead(q) + (ey + t) by {
        assert OutputHead(o) + (ex + s) == HashBytes(o) + s && OutputHead(q) + (ey + t) == HashBytes(q) + t;
      }
      HeadCancel(o, ex + s, q, ey + t);
      assert x[..4] == (ex + s)[2..6];
      assert Le(|y|, 4) == (ey + t)[2..6];
      Widths();
      UnpackPack(|y|, 4);
    }
  }

  // ----- exactly how long output data may be -----

  predicate ExtraAtMost(t: Tx, n: nat) {
    forall i :: 0 <= i < |t.outputs| ==> |t.outputs[i].extraData| <= n
  }

  /** Among wire transactions with output data of at most n bytes, equal preimages mean equal transactions. */
  ghost predicate InjectiveUpTo(n: nat) {
    forall t: Tx, u: Tx ::
      TxOk(t) && TxOk(u) && ExtraAtMost(t, n) && ExtraAtMost(u, n)
      && TxHashOk(t) && TxHashOk(u) && HashPreimage(t) == HashPreimage(u)
      ==> SameCore(t, u) && t.extraData == u.extraData
  }

  /** Two wire transactions with different outputs and one preimage: data of 65535 against 65536 bytes. */
  lemma Collision() returns (t: Tx, u: Tx)
    ensures TxOk(t) && TxOk(u) && TxHashOk(t) && TxHashOk(u)
    ensures ExtraAtMost(t, 65536) && ExtraAtMost(u, 65536)
    ensures HashPreimage(t) == HashPreimage(u) && t.outputs != u.outputs
  {
    hide HashPreimage, Le;
    var long := Zeros(65531) + Le(5, 4) + [0];
    var q := Output(0, 0, Zeros(32), 0, long);
    var o := ShortTwin(q);
    t := Tx(1, 0, [], [o], [0] + Le(0, 4));
    u := Tx(1, 0, [], [q], []);
    CollisionBytes(q, o, t, u);
    assert |o.extraData| != |q.extraData|;
  }

  lemma OneOutputPrefix(t: Tx, o: Output)
    requires t.inputs == [] && t.outputs == [o] && HashOk(o)
    ensures TxPackable(t.(extraData := []))
    ensures CommonPrefix(t.(extraData := [])) == PrefixHead(t.(extraData := [])) + Le(1, 4) + HashBytes(o)
  {
    hide HashBytes, PrefixHead;
    assert HashOutputs([o]) == HashBytes(o);
  }

  lemma CollisionBytes(q: Output, o: Output, t: Tx, u: Tx)
    requires HashOk(q) && |q.extraData| == 65536 && q.extraData[65531..] == Le(5, 4) + [0] && o == ShortTwin(q)
    requires t == Tx(1, 0, [], [o], [0] + Le(0, 4)) && u == Tx(1, 0, [], [q], [])
    ensures HashPreimage(t) == HashPreimage(u)
  {
    hide HashBytes, CommonPrefix, Le;
    ShortTwinHash(q);
    OneOutputPrefix(t, o);
    OneOutputPrefix(u, q);
    SameCorePrefix(t, t.(extraData := []));
    var c := PrefixHead(u) + Le(1, 4);
    var h := HashBytes(o);
    var e := Le(5, 4);
    assert CommonPrefix(t) == c + h;
    assert CommonPrefix(u) == c + (h + (e + [0]));
    assert c + (h + (e + [0])) + Le(0, 4) + [] == c + h + e + ([0] + Le(0, 4));
  }

  lemma InjectiveUpToExact(n: nat)
    ensures InjectiveUpTo(n) <==> n <= 65535
  {
    if n <= 65535 {
      forall t: Tx, u: Tx |
        TxOk(t) && TxOk(u) && ExtraAtMost(t, n) && ExtraAtMost(u, n)
        && TxHashOk(t) && TxHashOk(u) && HashPreimage(t) == HashPreimage(u)
        ensures SameCore(t, u) && t.extraData == u.extraData
      {
        HashPreimageExact(t, u);
      }
    } else {
      var t, u := Collision();
    }
  }
}
