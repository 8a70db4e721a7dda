/** Bytes, little-endian integers and positions in a buffer, as `struct` and bincode use them. */
module WireBytes {

  type Byte = b: int | 0 <= b < 256
  type Bytes = seq<Byte>

  type U32 = v: int | 0 <= v < 0x1_0000_0000
  type U64 = v: int | 0 <= v < 0x1_0000_0000_0000_0000

  /** The outcome of reading one value at a position: rejected, or the value and the next position. */
  datatype Parsed<+T> = Reject | Accept(value: T, next: nat) {
    predicate IsFailure() { Reject? }
    function PropagateFailure<U>(): Parsed<U> requires Reject? { Reject }
    function Extract(): (T, nat) requires Accept? { (value, next) }
  }

  function Pow256(k: nat): nat {
    if k == 0 then 1 else 256 * Pow256(k - 1)
  }

  lemma Widths()
    ensures Pow256(1) == 256
    ensures Pow256(2) == 0x1_0000
    ensures Pow256(4) == 0x1_0000_0000
    ensures Pow256(8) == 0x1_0000_0000_0000_0000
  {
    assert Pow256(4) == 256 * 256 * 256 * Pow256(1);
    assert Pow256(8) == 256 * 256 * 256 * 256 * Pow256(4);
  }

  /** `struct.pack` of an unsigned integer in k little-endian bytes. */
  function Le(v: nat, k: nat): (b: Bytes)
    ensures |b| == k
  {
    if k == 0 then [] else [v % 256] + Le(v / 256, k - 1)
  }

  /** `struct.unpack` of little-endian bytes. */
  function FromLe(b: Bytes): nat {
    if b == [] then 0 else b[0] + 256 * FromLe(b[1..])
  }

  lemma {:induction false} UnpackPack(v: nat, k: nat)
    requires v < Pow256(k)
    ensures FromLe(Le(v, k)) == v
  {
    if k > 0 {
      UnpackPack(v / 256, k - 1);
      assert Le(v, k)[1..] == Le(v / 256, k - 1);
    }
  }

  lemma {:induction false} PackUnpack(b: Bytes)
    ensures FromLe(b) < Pow256(|b|)
    ensures Le(FromLe(b), |b|) == b
  {
    if b != [] {
      PackUnpack(b[1..]);
      assert FromLe(b) / 256 == FromLe(b[1..]) && FromLe(b) % 256 == b[0];
      assert b == [b[0]] + b[1..];
    }
  }

  lemma PackInjective(v: nat, w: nat, k: nat)
    requires v < Pow256(k) && w < Pow256(k)
    requires Le(v, k) == Le(w, k)
    ensures v == w
  {
    UnpackPack(v, k);
    UnpackPack(w, k);
  }

  /** `e` stands in `b` at position `p`. */
  predicate At(b: Bytes, p: nat, e: Bytes) {
    p + |e| <= |b| && b[p..p + |e|] == e
  }

  /** An unsigned integer stands in `width` little-endian bytes at position `p`. */
  predicate IntAt(b: Bytes, p: nat, width: nat, v: nat) {
    p + width <= |b| && FromLe(b[p..p + width]) == v
  }

  /** What the bytes are worth: the first counts ones, the next 256s, and so on. */
  lemma LittleEndian(b: Bytes)
    ensures |b| == 2 ==> FromLe(b) == b[0] as int + 0x100 * b[1] as int
    ensures |b| == 4 ==>
              FromLe(b) == b[0] as int + 0x100 * b[1] as int + 0x1_0000 * b[2] as int + 0x100_0000 * b[3] as int
    ensures |b| == 8 ==> FromLe(b) == FromLe(b[..4]) + 0x1_0000_0000 * FromLe(b[4..])
  {
    if |b| == 2 {
      TwoBytes(b);
    } else if |b| == 4 {
      SplitLe(b, 2);
      TwoBytes(b[..2]);
      TwoBytes(b[2..]);
      Widths();
    } else if |b| == 8 {
      SplitLe(b, 4);
      Widths();
    }
  }

  lemma TwoBytes(b: Bytes)
    requires |b| == 2
    ensures FromLe(b) == b[0] as int + 0x100 * b[1] as int
  {
    assert b[1..][1..] == [];
    assert FromLe(b[1..]) == b[1] as int;
  }

  lemma {:induction false} SplitLe(b: Bytes, k: nat)
    requires k <= |b|
    ensures FromLe(b) == FromLe(b[..k]) + Pow256(k) * FromLe(b[k..])
  {
    if k == 0 {
      assert b[0..] == b;
    } else {
      SplitLe(b[1..], k - 1);
      assert b[1..][..k - 1] == b[..k][1..] && b[1..][k - 1..] == b[k..];
      var x, y := Pow256(k - 1), FromLe(b[k..]);
      assert FromLe(b) == b[0] + 256 * FromLe(b[1..]) && FromLe(b[..k]) == b[0] + 256 * FromLe(b[..k][1..]);
      hide FromLe;
      Regroup(x, y);
    }
  }

  lemma Regroup(x: nat, y: nat)
    ensures 256 * (x * y) == (256 * x) * y
  {
  }

  /** Packed bytes stand where the integer does. */
  lemma IntStands(b: Bytes, p: nat, width: nat, v: nat)
    requires v < Pow256(width)
    ensures At(b, p, Le(v, width)) <==> IntAt(b, p, width, v)
  {
    UnpackPack(v, width);
    if p + width <= |b| { PackUnpack(b[p..p + width]); }
  }

  lemma AtSplit(b: Bytes, p: nat, x: Bytes, y: Bytes)
    ensures At(b, p, x + y) <==> At(b, p, x) && At(b, p + |x|, y)
  {
    if At(b, p, x + y) {
      assert x == (x + y)[..|x|] == b[p..p + |x|];
      assert y == (x + y)[|x|..] == b[p + |x|..p + |x| + |y|];
    }
    if At(b, p, x) && At(b, p + |x|, y) {
      assert b[p..p + |x| + |y|] == b[p..p + |x|] + b[p + |x|..p + |x| + |y|];
    }
  }

  lemma Cancel(x: Bytes, s: Bytes, y: Bytes, t: Bytes)
    requires |x| == |y|
    requires x + s == y + t
    ensures x == y && s == t
  {
    assert x == (x + s)[..|x|] && y == (y + t)[..|y|];
    assert s == (x + s)[|x|..] && t == (y + t)[|y|..];
  }
}
