// 256-bit ULIDs (ulid256/ulid.go, ulid256/generator.go, ulid256/fills.go):
// a 2-byte skew, 6 bytes of Unix seconds, 3 bytes of nanoseconds, a version
// byte, a 16-byte payload and a big-endian CRC-32 of the first 28 bytes;
// the text form is unpadded base64url. Clocks are a reading or a fixed
// time, fills describe the bytes they write.
module Ulid256 {
  import opened Bytes
  import opened Outcomes
  import opened Radix
  import Crc

  const Size := 32
  const Empty: seq<byte> := [0, 0, 0, 0, 0, 0, 0, 0, 0, 0, 0, 0, 0, 0, 0, 0, 0, 0, 0, 0, 0, 0, 0, 0, 0, 0, 0, 0, 0, 0, 0, 0]

  const Two48 := 0x1_0000_0000_0000
  const Two24 := 0x100_0000
  const Two64 := 0x1_0000_0000_0000_0000
  const Two32 := 0x1_0000_0000

  const DefaultSkew := 0
  const PayloadLength := 16
  const ChecksumOffset := 28

  const ErrChecksum := "checksum mismatch"
  /** Go's `base64.CorruptInputError` text, without the byte offset it carries. */
  const ErrCorrupt := "illegal base64 data"
  const ErrShortFill := "failed to fill 15 bytes of data"
  const ErrRegistered := "version already registered"

  const RawUrl := Encoding(Base64Url, false)

  /** A point in time as `time.Unix` takes it: seconds and nanoseconds. */
  datatype Instant = Instant(sec: int, nsec: int)

  function Skew(u: seq<byte>): u16
    requires |u| == Size
  {
    FromBigEndianBound(u[0..2]);
    FromBigEndian(u[0..2])
  }

  /** `Time`: the 48-bit seconds field and the 24-bit nanoseconds field. */
  function Time(u: seq<byte>): Instant
    requires |u| == Size
  {
    Instant(FromBigEndian(u[2..8]), FromBigEndian(u[8..11]))
  }

  function Version(u: seq<byte>): byte
    requires |u| == Size
  {
    u[11]
  }

  function Payload(u: seq<byte>): seq<byte>
    requires |u| == Size
  {
    u[12..ChecksumOffset]
  }

  function Checksum(u: seq<byte>): nat
    requires |u| == Size
  {
    FromBigEndian(u[ChecksumOffset..])
  }

  /** The checksum field holds the CRC-32 of the first 28 bytes. */
  predicate Valid(u: seq<byte>)
    requires |u| == Size
  {
    Crc.Crc32(u[..ChecksumOffset]) == Checksum(u)
  }

  /** `Validate`: the CRC-32 writer never fails, so the only error is a mismatch. */
  function Validate(u: seq<byte>): (err: Option<string>)
    requires |u| == Size
    ensures err.None? <==> Valid(u)
    ensures err.Some? ==> err.value == ErrChecksum
  {
    if Crc.Crc32(u[..ChecksumOffset]) != Checksum(u) then Some(ErrChecksum) else None
  }

  function String(u: seq<byte>): string
  {
    Radix.Encode(RawUrl, u)
  }

  /** `Parse`: decode, keep at most 32 bytes (zero-filling a shorter value), then validate. */
  function Parse(s: string): (r: Result<seq<byte>>)
    ensures r.Ok? ==> |r.value| == Size
  {
    match Radix.Decode(RawUrl, s)
    case None => Err(ErrCorrupt)
    case Some(val) =>
      var out := CopyInto(Empty, val);
      match Validate(out)
      case Some(e) => Err(e)
      case None => Ok(out)
  }

  /** Only ULIDs whose checksum matches are parsed; everything else is an error. */
  lemma ParseValid(s: string)
    ensures Parse(s).Ok? ==> |Parse(s).value| == Size && Valid(Parse(s).value)
    ensures Parse(s).Err? ==> Parse(s).error in {ErrCorrupt, ErrChecksum}
  {
  }

  /** A valid ULID's text form parses back to it. */
  lemma ParseString(u: seq<byte>)
    requires |u| == Size
    ensures Parse(String(u)) == if Valid(u) then Ok(u) else Err(ErrChecksum)
  {
    RoundTrip(RawUrl, u);
    assert CopyInto(Empty, u) == u;
  }

  /**
   * Changing any one byte of a valid ULID makes it invalid: in the first
   * 28 bytes the CRC-32 changes and the checksum field does not, in the last
   * four it is the other way round.
   */
  lemma ByteChangeInvalidates(u: seq<byte>, i: nat, b: byte)
    requires |u| == Size && Valid(u) && i < Size && b != u[i]
    ensures !Valid(u[i := b])
  {
    var v := u[i := b];
    if i < ChecksumOffset {
      Crc.DetectsByteChange(u[..ChecksumOffset], v[..ChecksumOffset], i);
      assert v[ChecksumOffset..] == u[ChecksumOffset..];
    } else {
      assert v[..ChecksumOffset] == u[..ChecksumOffset];
      ToFromBigEndian(u[ChecksumOffset..]);
      ToFromBigEndian(v[ChecksumOffset..]);
      assert v[ChecksumOffset..] != u[ChecksumOffset..] by {
        assert v[ChecksumOffset..][i - ChecksumOffset] == b;
      }
    }
  }

  /** Changing a byte of a valid ULID and rendering it gives text that does not parse. */
  lemma ByteChangeRejected(u: seq<byte>, i: nat, b: byte)
    requires |u| == Size && Valid(u) && i < Size && b != u[i]
    ensures Parse(String(u[i := b])) == Err(ErrChecksum)
  {
    ByteChangeInvalidates(u, i, b);
    ParseString(u[i := b]);
  }

  /** The first 28 bytes followed by their big-endian CRC-32. */
  function Seal(front: seq<byte>): (u: seq<byte>)
    requires |front| == ChecksumOffset
    ensures |u| == Size && u[..ChecksumOffset] == front && Valid(u)
  {
    var sum := Crc.Crc32(front);
    var u := front + BigEndian(sum, 4);
    assert u[ChecksumOffset..] == BigEndian(sum, 4);
    assert Pow256(4) == Two32;
    FromToBigEndian(sum, 4);
    u
  }

  /** The first 28 bytes `New` writes before the checksum. */
  function Front(version: byte, now: Instant, payload: seq<byte>): (f: seq<byte>)
    requires |payload| == PayloadLength
    ensures |f| == ChecksumOffset
  {
    BigEndian(DefaultSkew, 2) + BigEndian(now.sec % Two48, 6) + BigEndian(now.nsec % Two24, 3) + [version] + payload
  }

  /**
   * The fields read back what `New` wrote: skew 0, the low 48 bits of the
   * seconds, the low 24 bits of the nanoseconds (so nanoseconds from 2^24
   * on do not survive), the version and the payload.
   */
  lemma FieldsOfSeal(version: byte, now: Instant, payload: seq<byte>)
    requires |payload| == PayloadLength
    ensures var u := Seal(Front(version, now, payload));
      && Skew(u) == 0 && Version(u) == version && Payload(u) == payload
      && Time(u) == Instant(now.sec % Two48, now.nsec % Two24)
      && (0 <= now.sec < Two48 && 0 <= now.nsec < Two24 ==> Time(u) == now)
  {
    FieldsOfFront(Seal(Front(version, now, payload)), version, now, payload);
    Truncated(now);
  }

  /** Truncating a time to the field widths keeps a time that fits them. */
  lemma Truncated(now: Instant)
    ensures 0 <= now.sec < Two48 && 0 <= now.nsec < Two24 ==> Instant(now.sec % Two48, now.nsec % Two24) == now
  {
  }

  /** The fields of any 32 bytes that start with what `Front` writes. */
  lemma FieldsOfFront(u: seq<byte>, version: byte, now: Instant, payload: seq<byte>)
    requires |payload| == PayloadLength && |u| == Size && u[..ChecksumOffset] == Front(version, now, payload)
    ensures Skew(u) == 0 && Version(u) == version && Payload(u) == payload
    ensures Time(u) == Instant(now.sec % Two48, now.nsec % Two24)
  {
    var f := u[..ChecksumOffset];
    FrontFields(version, now, payload);
    FieldValues(now);
    assert u[0..2] == f[0..2];
    assert u[2..8] == f[2..8];
    assert u[8..11] == f[8..11];
    assert u[11] == f[11];
    assert u[12..ChecksumOffset] == f[12..];
  }

  /** Where `Front` puts each field. */
  lemma FrontFields(version: byte, now: Instant, payload: seq<byte>)
    requires |payload| == PayloadLength
    ensures var f := Front(version, now, payload);
      && f[0..2] == BigEndian(DefaultSkew, 2) && f[2..8] == BigEndian(now.sec % Two48, 6)
      && f[8..11] == BigEndian(now.nsec % Two24, 3) && f[11] == version && f[12..] == payload
  {
  }

  /** The encoded field values decode to the values `New` writes. */
  lemma FieldValues(now: Instant)
    ensures FromBigEndian(BigEndian(DefaultSkew, 2)) == 0
    ensures FromBigEndian(BigEndian(now.sec % Two48, 6)) == now.sec % Two48
    ensures FromBigEndian(BigEndian(now.nsec % Two24, 3)) == now.nsec % Two24
  {
    assert Pow256(2) == 0x1_0000 && Pow256(3) == Two24 && Pow256(6) == Two48;
    FromToBigEndian(DefaultSkew, 2);
    FromToBigEndian(now.sec % Two48, 6);
    FromToBigEndian(now.nsec % Two24, 3);
  }

  /** What a fill reports: the bytes it wrote at the start of its slice, its count and its error. */
  datatype Filled = Filled(written: seq<byte>, n: int, err: Option<string>)

  /** The clock a generator reads: the real one, or one fixed at an instant. */
  datatype Clock = RealClock | FakeClock(at: Instant)

  function Now(clock: Clock, reading: Instant): Instant
  {
    if clock.FakeClock? then clock.at else reading
  }

  /** The result of `New` at instant `now`, with the given fill. */
  function Made(version: byte, now: Instant, fill: seq<byte> -> Filled): (r: Result<seq<byte>>)
    ensures r.Ok? ==> |r.value| == Size
  {
    var zero := seq(PayloadLength, _ => 0);
    var f := fill(zero);
    if f.err.Some? then Err(f.err.value)
    else if f.n != PayloadLength then Err(ErrShortFill)
    else Ok(Seal(Front(version, now, CopyInto(zero, f.written))))
  }

  /** Every ULID `New` makes passes `Validate`, and parses back from its text form. */
  lemma MadeValid(version: byte, now: Instant, fill: seq<byte> -> Filled)
    requires Made(version, now, fill).Ok?
    ensures var u := Made(version, now, fill).value;
      Valid(u) && Version(u) == version && Parse(String(u)) == Ok(u)
  {
    var u := Made(version, now, fill).value;
    FieldsOfSeal(version, now, CopyInto(seq(PayloadLength, _ => 0), fill(seq(PayloadLength, _ => 0)).written));
    ParseString(u);
  }

  /** A fill error, and then a count other than 16, are the ways `New` fails. */
  lemma MadeFails(version: byte, now: Instant, fill: seq<byte> -> Filled)
    ensures var f := fill(seq(PayloadLength, _ => 0));
      Made(version, now, fill).Err? <==> f.err.Some? || f.n != PayloadLength
    ensures var f := fill(seq(PayloadLength, _ => 0));
      f.err.Some? ==> Made(version, now, fill) == Err(f.err.value)
  {
  }

  class Generator {
    const version: byte
    const clock: Clock
    const fill: seq<byte> -> Filled

    constructor(version: byte, clock: Clock, fill: seq<byte> -> Filled)
      ensures this.version == version && this.clock == clock && this.fill == fill
    {
      this.version := version;
      this.clock := clock;
      this.fill := fill;
    }

    /** `WithClock`: a new generator with this one's version and fill; this one is left as it is. */
    method WithClock(clock: Clock) returns (g: Generator)
      ensures fresh(g)
      ensures g.version == version && g.fill == fill && g.clock == clock
    {
      g := new Generator(version, clock, fill);
    }

    /** `New`: fill a 32-byte array field by field, then store the checksum. `reading` is what the real clock reads. */
    method New(reading: Instant) returns (ulid: seq<byte>, err: Option<string>)
      ensures Made(version, Now(clock, reading), fill) == if err.Some? then Err(err.value) else Ok(ulid)
      ensures err.Some? ==> ulid == Empty
    {
      var timestamp := Now(clock, reading);
      var sec := BigEndian(timestamp.sec % Two64, 8);
      var nsec := BigEndian(timestamp.nsec % Two32, 4);
      var a := new byte[32](_ => 0);
      forall i | 2 <= i < 8 {
        a[i] := sec[i];
      }
      forall i | 8 <= i < 11 {
        a[i] := nsec[i - 7];
      }
      a[11] := version;
      ghost var zero := seq(PayloadLength, _ => 0);
      assert a[12..ChecksumOffset] == zero;
      ghost var head := a[..12];
      var f := fill(a[12..ChecksumOffset]);
      CopyPayload(a, f.written);
      if f.err.Some? {
        return Empty, f.err;
      }
      if f.n != PayloadLength {
        return Empty, Some(ErrShortFill);
      }
      ghost var payload := CopyInto(zero, f.written);
      HeadBytes(version, timestamp, head, sec, nsec);
      FrontSplit(version, timestamp, payload);
      assert a[..ChecksumOffset] == Front(version, timestamp, payload);
      WriteChecksum(a);
      return a[..], None;
    }
  }

  /** The first twelve bytes `New` writes: the skew, the time fields and the version. */
  lemma HeadBytes(version: byte, now: Instant, head: seq<byte>, sec: seq<byte>, nsec: seq<byte>)
    requires sec == BigEndian(now.sec % Two64, 8) && nsec == BigEndian(now.nsec % Two32, 4)
    requires |head| == 12 && head[0] == 0 && head[1] == 0 && head[11] == version
    requires forall i :: 2 <= i < 8 ==> head[i] == sec[i]
    requires forall i :: 8 <= i < 11 ==> head[i] == nsec[i - 7]
    ensures head == BigEndian(DefaultSkew, 2) + BigEndian(now.sec % Two48, 6) + BigEndian(now.nsec % Two24, 3) + [version]
  {
    FieldBytes(now);
    assert BigEndian(DefaultSkew, 2) == [0, 0];
    assert head[2..8] == sec[2..];
    assert head[8..11] == nsec[1..];
    assert head == head[0..2] + head[2..8] + head[8..11] + [head[11]];
  }

  lemma FrontSplit(version: byte, now: Instant, payload: seq<byte>)
    requires |payload| == PayloadLength
    ensures Front(version, now, payload)[..12] == BigEndian(DefaultSkew, 2) + BigEndian(now.sec % Two48, 6) + BigEndian(now.nsec % Two24, 3) + [version]
    ensures Front(version, now, payload)[12..] == payload
  {
  }

  /** The low bytes of the 64-bit seconds and the 32-bit nanoseconds are their low 48 and 24 bits. */
  lemma FieldBytes(now: Instant)
    ensures BigEndian(now.sec % Two64, 8)[2..] == BigEndian(now.sec % Two48, 6)
    ensures BigEndian(now.nsec % Two32, 4)[1..] == BigEndian(now.nsec % Two24, 3)
  {
    SecondsBytes(now.sec);
    NanosBytes(now.nsec);
  }

  lemma SecondsBytes(sec: int)
    ensures BigEndian(sec % Two64, 8)[2..] == BigEndian(sec % Two48, 6)
  {
    assert Pow256(6) == Two48;
    BigEndianLow(sec % Two64, 6, 2);
    SecondsMod(sec);
  }

  lemma SecondsMod(sec: int)
    ensures (sec % Two64) % Two48 == sec % Two48
  {
  }

  lemma NanosBytes(nsec: int)
    ensures BigEndian(nsec % Two32, 4)[1..] == BigEndian(nsec % Two24, 3)
  {
    assert Pow256(3) == Two24;
    BigEndianLow(nsec % Two32, 3, 1);
    NanosMod(nsec);
  }

  lemma NanosMod(nsec: int)
    ensures (nsec % Two32) % Two24 == nsec % Two24
  {
  }

  /** The package's registry of generators by version. */
  class Registry {
    var generators: map<byte, Generator>

    constructor()
      ensures generators == map[]
    {
      generators := map[];
    }

    /**
     * `NewGenerator`: a version already registered returns the registered
     * generator with an error and leaves the registry as it was; otherwise
     * a new generator on the real clock is registered and returned.
     */
    method NewGenerator(version: byte, fill: seq<byte> -> Filled) returns (g: Generator, err: Option<string>)
      modifies this
      ensures version in old(generators) ==>
        g == old(generators)[version] && err == Some(ErrRegistered) && generators == old(generators)
      ensures version !in old(generators) ==>
        && fresh(g) && err.None? && generators == old(generators)[version := g]
        && g.version == version && g.clock == RealClock && g.fill == fill
    {
      if version in generators {
        return generators[version], Some(ErrRegistered);
      }
      g := new Generator(version, RealClock, fill);
      generators := generators[version := g];
      err := None;
    }
  }

  /** The copy of the fill's output into the payload bytes 12..27; the rest of the array is kept. */
  method CopyPayload(a: array<byte>, written: seq<byte>)
    requires a.Length == 32
    modifies a
    ensures a[..] == old(a[..12]) + CopyInto(old(a[12..ChecksumOffset]), written) + old(a[ChecksumOffset..])
  {
    ghost var before := a[..];
    var m := if |written| < PayloadLength then |written| else PayloadLength;
    forall i | 0 <= i < m {
      a[12 + i] := written[i];
    }
    assert a[..] == before[..12] + CopyInto(before[12..ChecksumOffset], written) + before[ChecksumOffset..];
  }

  /** The checksum of bytes 0..27, big-endian, into bytes 28..31. */
  method WriteChecksum(a: array<byte>)
    requires a.Length == 32
    modifies a
    ensures a[..] == old(a[..ChecksumOffset]) + BigEndian(Crc.Crc32(old(a[..ChecksumOffset])), 4)
  {
    var sum := BigEndian(Crc.Crc32(a[..ChecksumOffset]), 4);
    ghost var front := a[..ChecksumOffset];
    forall i | 0 <= i < 4 {
      a[ChecksumOffset + i] := sum[i];
    }
    assert a[..ChecksumOffset] == front;
    assert a[..] == a[..ChecksumOffset] + sum;
  }

  /** What `Must` does: hand back the ULID, or panic with the error. */
  datatype Checked = Returned(ulid: seq<byte>) | Panicked(error: string)

  function Must(ulid: seq<byte>, err: Option<string>): (r: Checked)
    ensures r.Returned? <==> err.None?
    ensures r.Returned? ==> r.ulid == ulid
  {
    if err.Some? then Panicked(err.value) else Returned(ulid)
  }

  /**
   * `ServerIDFill`: write the server ID big-endian into the first two bytes
   * and let the inner fill have the rest; its count is the inner count plus
   * two and its error the inner error. Go panics on a slice under two bytes.
   */
  method ServerIdFill(serverId: u16, fill: seq<byte> -> Filled, data: array<byte>) returns (n: int, err: Option<string>)
    requires data.Length >= 2
    modifies data
    ensures var inner := fill(old(data[2..]));
      && data[..] == BigEndian(serverId, 2) + CopyInto(old(data[2..]), inner.written)
      && n == inner.n + 2 && err == inner.err
  {
    var id := BigEndian(serverId, 2);
    ghost var rest := data[2..];
    var inner := fill(data[2..]);
    data[0] := id[0];
    data[1] := id[1];
    var m := if |inner.written| < data.Length - 2 then |inner.written| else data.Length - 2;
    forall i | 0 <= i < m {
      data[2 + i] := inner.written[i];
    }
    assert data[..] == id + CopyInto(rest, inner.written);
    return inner.n + 2, inner.err;
  }

  /** The server ID comes back out of the first two payload bytes. */
  lemma ServerIdReadBack(serverId: u16, rest: seq<byte>)
    ensures FromBigEndian((BigEndian(serverId, 2) + rest)[..2]) == serverId
  {
    assert (BigEndian(serverId, 2) + rest)[..2] == BigEndian(serverId, 2);
    assert Pow256(2) == 0x1_0000;
    FromToBigEndian(serverId, 2);
  }
}
