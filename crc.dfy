// CRC-32 with the IEEE 802.3 polynomial in its reflected form, as Go's
// hash/crc32.ChecksumIEEE computes it: the register starts at all ones,
// each byte is xored in and shifted out eight times, and the result is
// inverted. The arithmetic is on unbounded naturals below 2^32, with xor
// defined bit by bit.
module Crc {
  import opened Bytes

  const Two31 := 0x8000_0000
  const Two32 := 0x1_0000_0000
  /** The reflected IEEE polynomial. */
  const Poly := 0xEDB8_8320
  const AllOnes := 0xFFFF_FFFF
  /** Shift rounds per input byte. */
  const ByteBits: nat := 8

  /** Bitwise exclusive or of two naturals. */
  function Xor(a: nat, b: nat): nat
  {
    if a == 0 then b
    else if b == 0 then a
    else 2 * Xor(a / 2, b / 2) + (if a % 2 == b % 2 then 0 else 1)
  }

  lemma {:induction false} XorZero(a: nat)
    ensures Xor(0, a) == a && Xor(a, 0) == a
  {
  }

  lemma {:induction false} XorCommutes(a: nat, b: nat)
    ensures Xor(a, b) == Xor(b, a)
    decreases a
  {
    if a != 0 && b != 0 {
      XorCommutes(a / 2, b / 2);
    }
  }

  /** The lowest bit of a xor is the xor of the lowest bits, and the rest is the xor of the rest. */
  lemma XorHalves(a: nat, b: nat)
    ensures Xor(a, b) % 2 == (if a % 2 == b % 2 then 0 else 1)
    ensures Xor(a, b) / 2 == Xor(a / 2, b / 2)
  {
    var bit := if a % 2 == b % 2 then 0 else 1;
    if a == 0 {
      assert Xor(a, b) == b;
      XorZero(b / 2);
    } else if b == 0 {
      assert Xor(a, b) == a;
      XorZero(a / 2);
    } else {
      var x := Xor(a / 2, b / 2);
      assert Xor(a, b) == 2 * x + bit;
      DivTwo(x, bit);
    }
  }

  lemma DivTwo(x: nat, bit: nat)
    requires bit < 2
    ensures (2 * x + bit) % 2 == bit && (2 * x + bit) / 2 == x
  {
  }

  /** Xoring with the same value keeps different values different. */
  lemma {:induction false} XorInjective(a: nat, b: nat, c: nat)
    requires Xor(a, c) == Xor(b, c)
    ensures a == b
    decreases a + b
  {
    XorHalves(a, c);
    XorHalves(b, c);
    if a != 0 || b != 0 {
      XorInjective(a / 2, b / 2, c / 2);
    }
  }

  /** Two numbers below 2^k have a xor below 2^k. */
  lemma {:induction false} XorBound(a: nat, b: nat, k: nat)
    requires a < Pow2(k) && b < Pow2(k)
    ensures Xor(a, b) < Pow2(k)
    decreases k
  {
    if a != 0 && b != 0 {
      XorBound(a / 2, b / 2, k - 1);
    }
  }

  /** A number below 2^k xored with one whose top bit is bit k keeps that top bit. */
  lemma {:induction false} XorTopBit(a: nat, b: nat, k: nat)
    requires a < Pow2(k) && Pow2(k) <= b < 2 * Pow2(k)
    ensures Pow2(k) <= Xor(a, b) < 2 * Pow2(k)
    decreases k
  {
    if a != 0 {
      XorTopBit(a / 2, b / 2, k - 1);
    }
  }

  lemma CrcPow2Facts()
    ensures Pow2(8) == 256 && Pow2(31) == Two31 && Pow2(32) == Two32
  {
    assert Pow2(8) == 256;
    Pow2Add(8, 8);
    Pow2Add(16, 15);
    Pow2Add(16, 16);
  }

  /** One round of the reflected shift register. */
  function CrcStep(c: nat): nat
  {
    if c % 2 == 1 then Xor(c / 2, Poly) else c / 2
  }

  function CrcShift(c: nat, k: nat): nat
    decreases k
  {
    if k == 0 then c else CrcShift(CrcStep(c), k - 1)
  }

  /** The register after one more byte. */
  function CrcByte(c: nat, x: byte): nat
  {
    CrcShift(Xor(c, x), ByteBits)
  }

  function CrcRegister(c: nat, data: seq<byte>): nat
    decreases |data|
  {
    if data == [] then c else CrcRegister(CrcByte(c, data[0]), data[1..])
  }

  lemma StepBound(c: nat)
    requires c < Two32
    ensures CrcStep(c) < Two32
  {
    CrcPow2Facts();
    if c % 2 == 1 {
      XorBound(c / 2, Poly, 32);
    }
  }

  lemma {:induction false} ShiftBound(c: nat, k: nat)
    requires c < Two32
    ensures CrcShift(c, k) < Two32
    decreases k
  {
    if k > 0 {
      StepBound(c);
      ShiftBound(CrcStep(c), k - 1);
    }
  }

  lemma ByteBound(c: nat, x: byte)
    requires c < Two32
    ensures CrcByte(c, x) < Two32
  {
    CrcPow2Facts();
    XorBound(c, x, 32);
    ShiftBound(Xor(c, x), ByteBits);
  }

  /** The register stays a 32-bit value. */
  lemma {:induction false} RegisterBound(c: nat, data: seq<byte>)
    requires c < Two32
    ensures CrcRegister(c, data) < Two32
    decreases |data|
  {
    if data != [] {
      ByteBound(c, data[0]);
      RegisterBound(CrcByte(c, data[0]), data[1..]);
    }
  }

  /** `crc32.ChecksumIEEE`. */
  function Crc32(data: seq<byte>): (r: u32)
  {
    RegisterBound(AllOnes, data);
    CrcPow2Facts();
    XorBound(CrcRegister(AllOnes, data), AllOnes, 32);
    Xor(CrcRegister(AllOnes, data), AllOnes)
  }

  /**
   * One round is invertible on 32-bit registers: the top bit of the result
   * tells whether the polynomial was added, which tells the shifted-out bit.
   */
  lemma StepInjective(a: nat, b: nat)
    requires a < Two32 && b < Two32 && CrcStep(a) == CrcStep(b)
    ensures a == b
  {
    CrcPow2Facts();
    if a % 2 == 1 && b % 2 == 1 {
      XorInjective(a / 2, b / 2, Poly);
    } else if a % 2 == 1 {
      XorTopBit(a / 2, Poly, 31);
    } else if b % 2 == 1 {
      XorTopBit(b / 2, Poly, 31);
    }
  }

  lemma {:induction false} ShiftInjective(a: nat, b: nat, k: nat)
    requires a < Two32 && b < Two32 && CrcShift(a, k) == CrcShift(b, k)
    ensures a == b
    decreases k
  {
    if k > 0 {
      StepBound(a);
      StepBound(b);
      ShiftInjective(CrcStep(a), CrcStep(b), k - 1);
      StepInjective(a, b);
    }
  }

  /** One more byte keeps different registers different, and different bytes make equal registers differ. */
  lemma ByteInjective(a: nat, b: nat, x: byte, y: byte)
    requires a < Two32 && b < Two32 && CrcByte(a, x) == CrcByte(b, y)
    ensures a == b <==> x == y
  {
    CrcPow2Facts();
    XorBound(a, x, 32);
    XorBound(b, y, 32);
    ShiftInjective(Xor(a, x), Xor(b, y), ByteBits);
    if a == b {
      XorCommutes(a, x);
      XorCommutes(a, y);
      XorInjective(x, y, a);
    } else if x == y {
      XorInjective(a, b, x);
    }
  }

  /** Different registers stay different over the same data. */
  lemma {:induction false} RegisterInjective(a: nat, b: nat, data: seq<byte>)
    requires a < Two32 && b < Two32 && a != b
    ensures CrcRegister(a, data) != CrcRegister(b, data)
    decreases |data|
  {
    if data != [] {
      ByteBound(a, data[0]);
      ByteBound(b, data[0]);
      if CrcByte(a, data[0]) == CrcByte(b, data[0]) {
        ByteInjective(a, b, data[0], data[0]);
      } else {
        RegisterInjective(CrcByte(a, data[0]), CrcByte(b, data[0]), data[1..]);
      }
    }
  }

  lemma {:induction false} RegisterAppend(c: nat, p: seq<byte>, rest: seq<byte>)
    ensures CrcRegister(c, p + rest) == CrcRegister(CrcRegister(c, p), rest)
    decreases |p|
  {
    if p != [] {
      assert (p + rest)[0] == p[0] && (p + rest)[1..] == p[1..] + rest;
      RegisterAppend(CrcByte(c, p[0]), p[1..], rest);
    } else {
      assert p + rest == rest;
    }
  }

  /** From any register value, data differing only in its first byte end in different registers. */
  lemma FirstByteDetected(r: nat, x: byte, y: byte, s: seq<byte>)
    requires r < Two32 && x != y
    ensures CrcRegister(r, [x] + s) != CrcRegister(r, [y] + s)
  {
    ByteBound(r, x);
    ByteBound(r, y);
    assert ([x] + s)[1..] == s && ([y] + s)[1..] == s;
    assert CrcRegister(r, [x] + s) == CrcRegister(CrcByte(r, x), s);
    assert CrcRegister(r, [y] + s) == CrcRegister(CrcByte(r, y), s);
    if CrcByte(r, x) == CrcByte(r, y) {
      ByteInjective(r, r, x, y);
    } else {
      RegisterInjective(CrcByte(r, x), CrcByte(r, y), s);
    }
  }

  /** The register tells apart data that differ in one byte. */
  lemma RegisterDetects(c: nat, p: seq<byte>, x: byte, y: byte, s: seq<byte>)
    requires c < Two32 && x != y
    ensures CrcRegister(c, p + [x] + s) != CrcRegister(c, p + [y] + s)
  {
    RegisterAppend(c, p, [x] + s);
    RegisterAppend(c, p, [y] + s);
    assert p + [x] + s == p + ([x] + s) && p + [y] + s == p + ([y] + s);
    RegisterBound(c, p);
    FirstByteDetected(CrcRegister(c, p), x, y, s);
  }

  /** CRC-32 detects every change of a single byte, wherever it is. */
  lemma DetectsByteChange(a: seq<byte>, b: seq<byte>, i: nat)
    requires |a| == |b| && i < |a| && a[i] != b[i]
    requires forall j :: 0 <= j < |a| && j != i ==> a[j] == b[j]
    ensures Crc32(a) != Crc32(b)
  {
    assert a == a[..i] + [a[i]] + a[i + 1..];
    assert b == a[..i] + [b[i]] + a[i + 1..];
    RegisterDetects(AllOnes, a[..i], a[i], b[i], a[i + 1..]);
    if Crc32(a) == Crc32(b) {
      XorInjective(CrcRegister(AllOnes, a), CrcRegister(AllOnes, b), AllOnes);
    }
  }
}
