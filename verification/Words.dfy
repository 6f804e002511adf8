/** Bytes, big-endian words and the 64-bit integer arithmetic of Go. */
module Words {

  type Byte = x: int | 0 <= x < 256

  const TWO_63: int := 0x8000_0000_0000_0000
  const TWO_64: int := 0x1_0000_0000_0000_0000

  // ---------------------------------------------------------------- big-endian

  /** 256 to the power k. */
  function Pow256(k: nat): (r: nat)
    ensures r >= 1
  {
    if k == 0 then 1 else 256 * Pow256(k - 1)
  }

  /** The number a big-endian byte string stands for. */
  function FromBigEndian(b: seq<Byte>): (n: nat)
    ensures n < Pow256(|b|)
  {
    if b == [] then 0 else 256 * FromBigEndian(b[..|b| - 1]) + b[|b| - 1]
  }

  /** The k low-order bytes of n, most significant first. */
  function ToBigEndian(n: nat, k: nat): (b: seq<Byte>)
    ensures |b| == k
  {
    if k == 0 then [] else ToBigEndian(n / 256, k - 1) + [n % 256]
  }

  function Word(n: nat): (b: seq<Byte>)
    ensures |b| == 32
  {
    ToBigEndian(n, 32)
  }

  function Zeros(k: nat): (b: seq<Byte>)
    ensures |b| == k
  {
    seq(k, _ => 0)
  }

  lemma {:induction false} FromToBigEndian(n: nat, k: nat)
    requires n < Pow256(k)
    ensures FromBigEndian(ToBigEndian(n, k)) == n
  {
    if k > 0 {
      FromToBigEndian(n / 256, k - 1);
      assert ToBigEndian(n, k)[..k - 1] == ToBigEndian(n / 256, k - 1);
    }
  }

  lemma {:induction false} ToFromBigEndian(b: seq<Byte>)
    ensures ToBigEndian(FromBigEndian(b), |b|) == b
  {
    if b != [] {
      var front, last := b[..|b| - 1], b[|b| - 1];
      ToFromBigEndian(front);
      OneByteMore(FromBigEndian(front), last as int);
      assert b == front + [last];
    }
  }

  lemma OneByteMore(high: nat, low: nat)
    requires low < 256
    ensures (256 * high + low) / 256 == high && (256 * high + low) % 256 == low
  {
  }

  lemma ShiftOneByte(h: nat, p: nat, f: nat)
    ensures 256 * (h * p + f) == h * (256 * p) + 256 * f
  {
  }

  /** The value of a concatenation: the high part is shifted by the length of the low part. */
  lemma {:induction false} FromBigEndianConcat(hi: seq<Byte>, lo: seq<Byte>)
    ensures FromBigEndian(hi + lo) == FromBigEndian(hi) * Pow256(|lo|) + FromBigEndian(lo)
  {
    if lo == [] {
      assert hi + lo == hi;
    } else {
      var front, last := lo[..|lo| - 1], lo[|lo| - 1];
      var h, p, f := FromBigEndian(hi), Pow256(|front|), FromBigEndian(front);
      calc {
        FromBigEndian(hi + lo);
        { assert (hi + lo)[..|hi + lo| - 1] == hi + front; }
        256 * FromBigEndian(hi + front) + last;
        { FromBigEndianConcat(hi, front); }
        256 * (h * p + f) + last;
        { ShiftOneByte(h, p, f); }
        h * (256 * p) + (256 * f + last);
        h * Pow256(|lo|) + FromBigEndian(lo);
      }
    }
  }

  lemma {:induction false} FromZeros(b: seq<Byte>)
    ensures FromBigEndian(b) == 0 <==> forall i :: 0 <= i < |b| ==> b[i] == 0
  {
    if b != [] {
      FromZeros(b[..|b| - 1]);
      assert forall i :: 0 <= i < |b| - 1 ==> b[..|b| - 1][i] == b[i];
    }
  }

  lemma Pow256Constants()
    ensures Pow256(8) == TWO_64
    ensures Pow256(32) > TWO_64
  {
    assert Pow256(4) == 0x1_0000_0000;
    assert Pow256(8) == TWO_64;
    assert Pow256(12) >= Pow256(8);
    assert Pow256(16) >= Pow256(12);
    assert Pow256(20) >= Pow256(16);
    assert Pow256(24) >= Pow256(20);
    assert Pow256(28) >= Pow256(24);
    assert Pow256(32) > Pow256(28);
  }

  /** A 32-byte word holds a number below 2^64 exactly when its first 24 bytes are zero,
      and then its last 8 bytes hold that number. */
  lemma WordFitsUint64(w: seq<Byte>)
    requires |w| == 32
    ensures FromBigEndian(w) < TWO_64 <==> forall i :: 0 <= i < 24 ==> w[i] == 0
    ensures FromBigEndian(w) < TWO_64 ==> FromBigEndian(w) == FromBigEndian(w[24..])
  {
    hide Pow256, FromBigEndian;
    Pow256Constants();
    assert w == w[..24] + w[24..];
    FromBigEndianConcat(w[..24], w[24..]);
    FromZeros(w[..24]);
    assert forall i :: 0 <= i < 24 ==> w[..24][i] == w[i];
    var hi, lo := FromBigEndian(w[..24]), FromBigEndian(w[24..]);
    if hi > 0 {
      assert hi * TWO_64 >= TWO_64;
    }
  }

  lemma AddAligned(a: nat, b: nat)
    requires a % 32 == 0 && b % 32 == 0
    ensures (a + b) % 32 == 0
  {
  }

  // ---------------------------------------------------------------- 64-bit arithmetic

  predicate IsUint64(n: int) {
    0 <= n < TWO_64
  }

  predicate IsInt64(n: int) {
    -TWO_63 <= n < TWO_63
  }

  /** Go's conversion of an integer to int: the representative modulo 2^64 in the signed range. */
  function ToInt64(x: int): (r: int)
    ensures IsInt64(r)
    ensures IsInt64(x) ==> r == x
  {
    (x + TWO_63) % 0x1_0000_0000_0000_0000 - TWO_63
  }

  /** The Go expression base + int(n) for an int base and a uint64 n. It is the exact sum, or,
      when that overflows, a number below the base. */
  function AddUint64(base: nat, n: nat): (r: int)
    requires IsInt64(base) && IsUint64(n)
    ensures base + n < TWO_63 ==> r == base + n
    ensures base + n >= TWO_63 ==> r < base
  {
    ToInt64(base + ToInt64(n))
  }

  /** The Go function roundUp32, with the wrap-around of uint64 addition. */
  function RoundUp32(v: nat): (r: nat)
    requires IsUint64(v)
    ensures IsUint64(r)
  {
    if v % 32 == 0 then v else (v + 32 - v % 32) % 0x1_0000_0000_0000_0000
  }

  /** roundUp32 is the least multiple of 32 that is not below its argument, and 0 exactly for
      the arguments above 2^64 - 32 (and 0) for which that multiple is no uint64. */
  lemma RoundUp32Exact(v: nat)
    requires IsUint64(v)
    ensures v <= TWO_64 - 32 ==> RoundUp32(v) == (v + 31) / 32 * 32
    ensures RoundUp32(v) == 0 <==> v == 0 || v > TWO_64 - 32
    ensures v <= TWO_64 - 32 ==> v <= RoundUp32(v) < v + 32
  {
  }
}
