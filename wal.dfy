// The write-ahead log's record framing (wal/wal.go, wal/doc.go): each record
// is stored as [uvarint length][record][big-endian CRC-32 of the record].
// The unsigned varint is Go's encoding/binary format; the checksum is the
// CRC-32 of IEEE 802.3 (module Crc).
module Wal {
  import opened Bytes
  import opened Outcomes
  import opened Crc

  const Two64 := 0x1_0000_0000_0000_0000
  /** The largest slice length a Go `int` can hold. */
  const MaxLen := 0x7fff_ffff_ffff_ffff
  const OverflowError := "binary: varint overflows a 64-bit integer"

  lemma Pow2Facts()
    ensures Pow2(7) == 128
    ensures Pow2(64) == Two64
  {
    assert Pow2(8) == 256;
    Pow2Add(8, 8);
    Pow2Add(16, 16);
    Pow2Add(32, 32);
  }

  /** `binary.PutUvarint`: seven bits per byte, least significant group first, the high bit marking continuation. */
  function Uvarint(n: nat): (r: seq<byte>)
    ensures 1 <= |r|
  {
    if n < 128 then [n] else [n % 128 + 128] + Uvarint(n / 128)
  }

  /** A number below 2^(7k), k >= 1, takes at most `k` bytes, and a number below 128 exactly one. */
  lemma {:induction false} UvarintLength(n: nat, k: nat)
    requires 1 <= k && n < Pow2(7 * k)
    ensures |Uvarint(n)| <= k
    ensures n < 128 ==> |Uvarint(n)| == 1
    decreases k
  {
    Pow2Facts();
    if k == 1 {
      assert Pow2(7 * k) == 128;
    } else if n >= 128 {
      var p := Pow2(7 * (k - 1));
      Pow2Add(7 * (k - 1), 7);
      assert 7 * (k - 1) + 7 == 7 * k;
      assert n / 128 < p;
      UvarintLength(n / 128, k - 1);
    }
  }

  /** A uint64 takes at most ten bytes (`binary.MaxVarintLen64`). */
  lemma Uint64Uvarint(n: nat)
    requires n < Two64
    ensures |Uvarint(n)| <= 10
  {
    Pow2Facts();
    Pow2Add(64, 6);
    UvarintLength(n, 10);
  }

  /**
   * `binary.ReadUvarint` from byte `i` on: the value of the groups starting
   * there and the index just past the last one. A tenth byte above 1, or
   * ten continuation bytes, overflow 64 bits; running out of bytes is
   * `EOF` before the first byte and `unexpected EOF` after it.
   */
  function ReadUvarintFrom(s: seq<byte>, i: nat): (r: Result<(nat, nat)>)
    ensures r.Ok? ==> i < r.value.1 <= |s| && r.value.1 <= 10
    decreases 10 - i
  {
    if i >= 10 then Err(OverflowError)
    else if i >= |s| then Err(if i > 0 then "unexpected EOF" else "EOF")
    else if s[i] < 128 then
      if i == 9 && s[i] > 1 then Err(OverflowError) else Ok((s[i], i + 1))
    else match ReadUvarintFrom(s, i + 1)
      case Err(e) => Err(e)
      case Ok(r) => Ok(((s[i] - 128) + 128 * r.0, r.1))
  }

  /**
   * Reading back what `PutUvarint` wrote, at byte `i` of the input, gives
   * the number and the index after it, whatever follows.
   */
  lemma {:induction false} UvarintRoundTrip(s: seq<byte>, i: nat, n: nat)
    requires i <= 9 && n < Pow2(64 - 7 * i)
    requires i + |Uvarint(n)| <= |s| && s[i..i + |Uvarint(n)|] == Uvarint(n)
    ensures ReadUvarintFrom(s, i) == Ok((n, i + |Uvarint(n)|))
    decreases 10 - i
  {
    var u := Uvarint(n);
    assert s[i] == u[0];
    if n < 128 {
      if i == 9 {
        assert Pow2(64 - 7 * i) == 2;
      }
      assert ReadUvarintFrom(s, i) == Ok((n, i + 1));
    } else {
      GroupBound(n, i);
      var v := Uvarint(n / 128);
      assert u == [n % 128 + 128] + v;
      assert u[1..] == v;
      assert s[i + 1..i + 1 + |v|] == s[i..i + |u|][1..];
      UvarintRoundTrip(s, i + 1, n / 128);
      ReadGroup(s, i, n, i + 1 + |v|);
    }
  }

  /** A continuation byte holding the low seven bits of `n`, followed by the rest of `n`, reads as `n`. */
  lemma ReadGroup(s: seq<byte>, i: nat, n: nat, j: nat)
    requires i < 10 && i < |s| && n >= 128 && s[i] == n % 128 + 128
    requires ReadUvarintFrom(s, i + 1) == Ok((n / 128, j))
    ensures ReadUvarintFrom(s, i) == Ok((n, j))
  {
    assert s[i] - 128 == n % 128;
  }

  /** Below the top group, a multi-byte number leaves a quotient that fits the remaining groups. */
  lemma GroupBound(n: nat, i: nat)
    requires i <= 9 && n >= 128 && n < Pow2(64 - 7 * i)
    ensures i <= 8 && n / 128 < Pow2(64 - 7 * (i + 1))
  {
    assert Pow2(1) == 2;
    Pow2Facts();
    var p := Pow2(64 - 7 * (i + 1));
    Pow2Add(64 - 7 * (i + 1), 7);
    assert n < 128 * p;
  }

  /** Go's `binary.PutUvarint` followed by `binary.ReadUvarint` is the identity on uint64 values. */
  lemma UvarintDecodes(n: nat, rest: seq<byte>)
    requires n < Two64
    ensures ReadUvarintFrom(Uvarint(n) + rest, 0) == Ok((n, |Uvarint(n)|))
  {
    Pow2Facts();
    var s := Uvarint(n) + rest;
    assert s[0..|Uvarint(n)|] == Uvarint(n);
    UvarintRoundTrip(s, 0, n);
  }

  /** The bytes one record occupies in the log. */
  function Frame(p: seq<byte>): seq<byte>
  {
    Uvarint(|p|) + p + BigEndian(Crc32(p), 4)
  }

  /** The frames of several records, in order. */
  function Frames(records: seq<seq<byte>>): seq<byte>
  {
    if records == [] then [] else Frame(records[0]) + Frames(records[1..])
  }

  /**
   * `RecordLength`: the size of a record's frame, the varint's length plus
   * the record plus four checksum bytes.
   */
  function RecordLength(data: seq<byte>): (r: nat)
    ensures r == |Frame(data)|
  {
    |Uvarint(|data|)| + |data| + 4
  }

  /** A frame costs at least five bytes beyond the record, exactly five when the length fits in one varint byte. */
  lemma RecordLengthBounds(data: seq<byte>)
    ensures |data| < 128 ==> RecordLength(data) == |data| + 5
    ensures RecordLength(data) >= |data| + 5
  {
    if |data| < 128 {
      Pow2Facts();
      UvarintLength(|data|, 1);
    }
  }
}
