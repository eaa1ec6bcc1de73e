/**
 * Bytes of an ArrayBuffer and the integer encodings a DataView performs on
 * them: unsigned integers of a given byte width, big- or little-endian, and
 * the ECMAScript conversions ToUintN / ToIntN that the setters apply to the
 * number they are given (ECMA-262, section 7.1, "ToInt8" to "ToUint32").
 */
module Bytes {

  /** One byte of an ArrayBuffer. */
  type byte = x: int | 0 <= x < 256

  /** 256 to the power w: the number of values w bytes can hold. */
  function Pow256(w: nat): (p: nat)
    ensures p >= 1
    ensures w >= 1 ==> p >= 256 && p % 2 == 0
  {
    if w == 0 then 1 else 256 * Pow256(w - 1)
  }

  /** n zero bytes: what a fresh ArrayBuffer, or Uint8Array.fill(0), holds. */
  function Zeros(n: nat): (z: seq<byte>)
    ensures |z| == n
    ensures forall i :: 0 <= i < n ==> z[i] == 0
  {
    seq(n, _ => 0)
  }

  /** The w bytes of n modulo 256^w, most significant byte first. */
  function BigEndian(n: int, w: nat): (bs: seq<byte>)
    ensures |bs| == w
    decreases w
  {
    if w == 0 then [] else BigEndian(n / 256, w - 1) + [n % 256]
  }

  /** The unsigned number that the bytes spell, most significant byte first. */
  function FromBigEndian(bs: seq<byte>): (n: nat)
    ensures n < Pow256(|bs|)
  {
    if bs == [] then 0
    else
      var hi := FromBigEndian(bs[..|bs| - 1]);
      assert hi * 256 <= (Pow256(|bs| - 1) - 1) * 256;
      hi * 256 + bs[|bs| - 1]
  }

  /** The bytes in the opposite order. */
  function Reverse(bs: seq<byte>): (r: seq<byte>)
    ensures |r| == |bs|
    ensures forall i :: 0 <= i < |bs| ==> r[i] == bs[|bs| - 1 - i]
  {
    if bs == [] then [] else Reverse(bs[1..]) + [bs[0]]
  }

  /** Bytes in memory order, from bytes in big-endian order (or back). */
  function InOrder(bs: seq<byte>, littleEndian: bool): seq<byte>
  {
    if littleEndian then Reverse(bs) else bs
  }

  /** What DataView.setUintN(o, n, le) stores: n modulo 256^w in w bytes. */
  function EncodeUnsigned(n: int, w: nat, littleEndian: bool): (bs: seq<byte>)
    ensures |bs| == w
  {
    InOrder(BigEndian(n, w), littleEndian)
  }

  /** What DataView.getUintN(o, le) reads back from w bytes. */
  function DecodeUnsigned(bs: seq<byte>, littleEndian: bool): (n: nat)
    ensures n < Pow256(|bs|)
  {
    FromBigEndian(InOrder(bs, littleEndian))
  }

  /** ECMAScript ToUintN for N = 8w: the representative of n in [0, 2^N). */
  function ToUint(n: int, w: nat): (u: nat)
    ensures u < Pow256(w)
  {
    n % Pow256(w)
  }

  /** ECMAScript ToIntN for N = 8w: the representative of n in [-2^(N-1), 2^(N-1)). */
  function ToInt(n: int, w: nat): int
    requires w >= 1
  {
    var u := n % Pow256(w);
    if u >= Pow256(w) / 2 then u - Pow256(w) else u
  }

  /** Two's complement reading of an unsigned w-byte value. */
  function Signed(u: nat, w: nat): int
    requires w >= 1
  {
    if u >= Pow256(w) / 2 then u - Pow256(w) else u
  }

  /** Division by 256 followed by division by 256^w is division by 256^(w+1). */
  lemma ModSplit(n: int, p: nat)
    requires p >= 1
    ensures (n / 256) % p * 256 + n % 256 == n % (256 * p)
  {
    var q, r := n / 256, n % 256;
    var a, b := q / p, q % p;
    assert n == 256 * q + r;
    assert q == p * a + b;
    assert n == (256 * p) * a + (256 * b + r);
    assert 0 <= 256 * b + r < 256 * p;
    ModUnique(n, 256 * p, a, 256 * b + r);
  }

  /** The remainder is the unique r in [0, d) with n == d * q + r. */
  lemma ModUnique(n: int, d: nat, q: int, r: int)
    requires d >= 1 && n == d * q + r && 0 <= r < d
    ensures n % d == r
  {
    var q', r' := n / d, n % d;
    var k := q - q';
    assert d * k == r' - r by {
      assert d * q' + r' == d * q + r;
      assert d * k == d * q - d * q';
    }
    if k > 0 {
      AtLeastOnce(d, k);
    } else if k < 0 {
      AtLeastOnce(d, -k);
    }
  }

  /** A positive multiple of d is at least d. */
  lemma AtLeastOnce(d: nat, k: int)
    requires k >= 1
    ensures d * k >= d
  {
    assert d * k == d * (k - 1) + d;
    assert d * (k - 1) >= 0;
  }

  /** Reading back w big-endian bytes of n gives n modulo 256^w. */
  lemma {:induction false} BigEndianRoundTrip(n: int, w: nat)
    ensures FromBigEndian(BigEndian(n, w)) == n % Pow256(w)
    decreases w
  {
    if w == 0 {
      assert n % 1 == 0;
    } else {
      var bs := BigEndian(n, w);
      assert bs[..w - 1] == BigEndian(n / 256, w - 1);
      BigEndianRoundTrip(n / 256, w - 1);
      ModSplit(n, Pow256(w - 1));
    }
  }

  /** Reversing twice gives back the bytes. */
  lemma ReverseReverse(bs: seq<byte>)
    ensures Reverse(Reverse(bs)) == bs
  {
  }

  /** Reading back what DataView.setUintN wrote gives ToUintN of the number, in either byte order. */
  lemma UnsignedRoundTrip(n: int, w: nat, littleEndian: bool)
    ensures DecodeUnsigned(EncodeUnsigned(n, w, littleEndian), littleEndian) == ToUint(n, w)
  {
    if littleEndian {
      ReverseReverse(BigEndian(n, w));
    }
    BigEndianRoundTrip(n, w);
  }

  /** Reading back what DataView.setIntN wrote with getIntN gives ToIntN of the number. */
  lemma SignedRoundTrip(n: int, w: nat, littleEndian: bool)
    requires w >= 1
    ensures Signed(DecodeUnsigned(EncodeUnsigned(n, w, littleEndian), littleEndian), w) == ToInt(n, w)
  {
    UnsignedRoundTrip(n, w, littleEndian);
  }

  /** ToUintN leaves a number that already lies in [0, 2^N) unchanged. */
  lemma ToUintInRange(n: int, w: nat)
    requires 0 <= n < Pow256(w)
    ensures ToUint(n, w) == n
  {
    ModUnique(n, Pow256(w), 0, n);
  }

  /** ToIntN leaves a number that already lies in [-2^(N-1), 2^(N-1)) unchanged. */
  lemma ToIntInRange(n: int, w: nat)
    requires w >= 1 && -(Pow256(w) / 2) <= n < Pow256(w) / 2
    ensures ToInt(n, w) == n
  {
    if n < 0 {
      ModUnique(n, Pow256(w), -1, n + Pow256(w));
    } else {
      ModUnique(n, Pow256(w), 0, n);
    }
  }
}
