// Byte strings, fixed-width big-endian integers (Go's encoding/binary
// BigEndian.PutUint16/32/64 and the matching getters) and the bytewise
// lexicographic order used by key-value stores.
module Bytes {
  type byte = x: int | 0 <= x < 256
  type u16 = x: int | 0 <= x < 0x1_0000
  type u32 = x: int | 0 <= x < 0x1_0000_0000
  type u64 = x: int | 0 <= x < 0x1_0000_0000_0000_0000

  function Pow256(n: nat): (r: nat)
    ensures r >= 1
  {
    if n == 0 then 1 else 256 * Pow256(n - 1)
  }

  function Pow2(k: nat): (r: nat)
    ensures r >= 1
  {
    if k == 0 then 1 else 2 * Pow2(k - 1)
  }

  lemma {:induction false} Pow2Add(a: nat, b: nat)
    ensures Pow2(a + b) == Pow2(a) * Pow2(b)
    decreases b
  {
    if b > 0 {
      Pow2Add(a, b - 1);
    }
  }

  /** The low `width` bytes of `n`, most significant first. */
  function BigEndian(n: nat, width: nat): (r: seq<byte>)
    ensures |r| == width
  {
    if width == 0 then [] else BigEndian(n / 256, width - 1) + [n % 256]
  }

  /** The unsigned number a big-endian byte string denotes. */
  function FromBigEndian(s: seq<byte>): nat
  {
    if s == [] then 0 else FromBigEndian(s[..|s| - 1]) * 256 + s[|s| - 1]
  }

  lemma {:induction false} FromBigEndianBound(s: seq<byte>)
    ensures FromBigEndian(s) < Pow256(|s|)
  {
    if s != [] {
      FromBigEndianBound(s[..|s| - 1]);
    }
  }

  /** Decoding the encoding of a number that fits in `width` bytes gives the number back. */
  lemma {:induction false} FromToBigEndian(n: nat, width: nat)
    requires n < Pow256(width)
    ensures FromBigEndian(BigEndian(n, width)) == n
  {
    if width > 0 {
      FromToBigEndian(n / 256, width - 1);
      var s := BigEndian(n, width);
      assert s[..|s| - 1] == BigEndian(n / 256, width - 1);
    }
  }

  /** Encoding a decoded byte string gives the byte string back. */
  lemma {:induction false} ToFromBigEndian(s: seq<byte>)
    ensures BigEndian(FromBigEndian(s), |s|) == s
  {
    if s != [] {
      var init := s[..|s| - 1];
      ToFromBigEndian(init);
      assert FromBigEndian(s) / 256 == FromBigEndian(init);
      assert s == init + [s[|s| - 1]];
    }
  }

  /** Two numbers that fit in `width` bytes have equal encodings only if they are equal. */
  lemma BigEndianInjective(x: nat, y: nat, width: nat)
    requires x < Pow256(width) && y < Pow256(width)
    requires BigEndian(x, width) == BigEndian(y, width)
    ensures x == y
  {
    FromToBigEndian(x, width);
    FromToBigEndian(y, width);
  }

  /** The last `width` bytes of a wider encoding are the encoding at that width. */
  lemma {:induction false} BigEndianDrop(n: nat, width: nat, d: nat)
    ensures BigEndian(n, width + d)[d..] == BigEndian(n, width)
    decreases width
  {
    if width > 0 {
      BigEndianDrop(n / 256, width - 1, d);
      assert BigEndian(n, width + d) == BigEndian(n / 256, width - 1 + d) + [n % 256];
    }
  }

  /** Multiples of 256^width do not show in the low `width` bytes. */
  lemma {:induction false} BigEndianHigh(m: nat, h: nat, width: nat)
    ensures BigEndian(m + Pow256(width) * h, width) == BigEndian(m, width)
  {
    if width > 0 {
      var k := Pow256(width - 1) * h;
      assert Pow256(width) * h == 256 * k;
      assert (m + 256 * k) / 256 == m / 256 + k;
      assert (m + 256 * k) % 256 == m % 256;
      BigEndianHigh(m / 256, h, width - 1);
    }
  }

  /** The last `width` bytes of a wider encoding encode the number modulo 256^width. */
  lemma BigEndianLow(n: nat, width: nat, d: nat)
    ensures BigEndian(n, width + d)[d..] == BigEndian(n % Pow256(width), width)
  {
    var p := Pow256(width);
    BigEndianDrop(n, width, d);
    assert n == n % p + p * (n / p);
    BigEndianHigh(n % p, n / p, width);
  }

  /** Strict bytewise lexicographic order, a proper prefix sorting first. */
  predicate LexLess(a: seq<byte>, b: seq<byte>)
  {
    if a == [] then b != []
    else if b == [] then false
    else if a[0] != b[0] then a[0] < b[0]
    else LexLess(a[1..], b[1..])
  }

  /** Appending one byte to equally long strings refines their order by the last byte. */
  lemma {:induction false} LexLessSnoc(a: seq<byte>, b: seq<byte>, c: byte, d: byte)
    requires |a| == |b|
    ensures LexLess(a + [c], b + [d]) <==> LexLess(a, b) || (a == b && c < d)
  {
    if a != [] {
      assert (a + [c])[0] == a[0] && (b + [d])[0] == b[0];
      assert (a + [c])[1..] == a[1..] + [c] && (b + [d])[1..] == b[1..] + [d];
      LexLessSnoc(a[1..], b[1..], c, d);
      if a[0] == b[0] && a[1..] == b[1..] {
        assert a == [a[0]] + a[1..] && b == [b[0]] + b[1..];
      }
    }
  }

  /** Big-endian encodings of one width compare bytewise exactly as the numbers compare. */
  lemma {:induction false} BigEndianOrder(x: nat, y: nat, width: nat)
    requires x < Pow256(width) && y < Pow256(width)
    ensures LexLess(BigEndian(x, width), BigEndian(y, width)) <==> x < y
  {
    if width > 0 {
      BigEndianOrder(x / 256, y / 256, width - 1);
      LexLessSnoc(BigEndian(x / 256, width - 1), BigEndian(y / 256, width - 1), x % 256, y % 256);
      if BigEndian(x / 256, width - 1) == BigEndian(y / 256, width - 1) {
        BigEndianInjective(x / 256, y / 256, width - 1);
      }
    }
  }

  /** A common prefix does not change the order. */
  lemma {:induction false} LexLessCommonPrefix(p: seq<byte>, a: seq<byte>, b: seq<byte>)
    ensures LexLess(p + a, p + b) <==> LexLess(a, b)
  {
    if p != [] {
      assert (p + a) != [] && (p + b) != [];
      assert (p + a)[0] == p[0] == (p + b)[0];
      assert (p + a)[1..] == p[1..] + a;
      assert (p + b)[1..] == p[1..] + b;
      LexLessCommonPrefix(p[1..], a, b);
    } else {
      assert p + a == a && p + b == b;
    }
  }

  lemma {:induction false} LexLessIrreflexive(a: seq<byte>)
    ensures !LexLess(a, a)
  {
    if a != [] { LexLessIrreflexive(a[1..]); }
  }

  lemma {:induction false} LexLessTransitive(a: seq<byte>, b: seq<byte>, c: seq<byte>)
    requires LexLess(a, b) && LexLess(b, c)
    ensures LexLess(a, c)
  {
    if a != [] && a[0] == b[0] && b[0] == c[0] {
      LexLessTransitive(a[1..], b[1..], c[1..]);
    }
  }

  lemma {:induction false} LexLessTotal(a: seq<byte>, b: seq<byte>)
    ensures a == b || LexLess(a, b) || LexLess(b, a)
  {
    if a != [] && b != [] && a[0] == b[0] {
      LexLessTotal(a[1..], b[1..]);
      if a[1..] == b[1..] {
        assert a == [a[0]] + a[1..] && b == [b[0]] + b[1..];
      }
    }
  }

  lemma {:induction false} LexLessAsymmetric(a: seq<byte>, b: seq<byte>)
    requires LexLess(a, b)
    ensures !LexLess(b, a)
  {
    if a != [] && b != [] && a[0] == b[0] {
      LexLessAsymmetric(a[1..], b[1..]);
    }
  }

  /**
   * The bytes of a string whose characters are all below 256, one byte per
   * character; a wider character keeps its low eight bits.
   */
  function StringBytes(s: string): (b: seq<byte>)
    ensures |b| == |s|
    ensures forall i :: 0 <= i < |s| && s[i] as int < 256 ==> b[i] == s[i] as int
  {
    seq(|s|, i requires 0 <= i < |s| => (s[i] as int) % 256)
  }

  /** Go's `copy(dst, src)`: the first min(|dst|, |src|) bytes of `dst` replaced. */
  function CopyInto(dst: seq<byte>, src: seq<byte>): (r: seq<byte>)
    ensures |r| == |dst|
    ensures forall i :: 0 <= i < |r| ==> r[i] == if i < |src| then src[i] else dst[i]
  {
    if |src| < |dst| then src + dst[|src|..] else src[..|dst|]
  }
}
