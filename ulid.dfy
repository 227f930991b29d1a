// Variable-length ULIDs (ulid/ulid.go, ulid/generator.go): one skew byte, a
// 48-bit big-endian Unix millisecond timestamp, then the payload; the text
// form is unpadded base32 over the Crockford alphabet. The clock and the
// fill are parameters of `Generate`.
module Ulid {
  import opened Bytes
  import opened Outcomes
  import opened Text
  import opened Radix

  const SkewOffset := 0
  const UnixOffset := 1
  const UnixLength := 6
  const PayloadOffset := 7

  const Two48 := 0x1_0000_0000_0000
  const Two64 := 0x1_0000_0000_0000_0000

  const ErrInvalidBitCount := "bits must be divisible by 8"
  const ErrNotEnoughBits := "must be at least 64 bits"
  const ErrInsufficientData := "failed to read sufficient payload data"
  /** Go's `base32.CorruptInputError` text, without the byte offset it carries. */
  const ErrCorrupt := "illegal base32 data"
  const ErrNilDestination := "destination pointer is nil"

  const Crockford := Encoding(Crockford32, false)

  lemma Pow256Six()
    ensures Pow256(6) == Two48
  {
  }

  function Skew(u: seq<byte>): byte
    requires |u| > SkewOffset
  {
    u[SkewOffset]
  }

  /** The big-endian milliseconds in bytes 1 to 6. */
  function Timestamp(u: seq<byte>): nat
    requires |u| >= PayloadOffset
  {
    FromBigEndian(u[UnixOffset..UnixOffset + UnixLength])
  }

  /** `Payload` and `Bytes` hand out copies; on values a copy is the value itself. */
  function Payload(u: seq<byte>): seq<byte>
    requires |u| >= PayloadOffset
  {
    u[PayloadOffset..]
  }

  function String(u: seq<byte>): string
  {
    Radix.Encode(Crockford, u)
  }

  /** `Value`: the SQL driver value is the text form. */
  function Value(u: seq<byte>): string
  {
    String(u)
  }

  /** The bytes of a ULID with the given fields; the timestamp keeps its low 48 bits. */
  function Layout(skew: byte, millis: int, payload: seq<byte>): (u: seq<byte>)
    ensures |u| == PayloadOffset + |payload|
    ensures Skew(u) == skew && Payload(u) == payload
    ensures Timestamp(u) == millis % Two48
  {
    var u := [skew] + BigEndian(millis % Two48, UnixLength) + payload;
    assert u[UnixOffset..UnixOffset + UnixLength] == BigEndian(millis % Two48, UnixLength);
    Pow256Six();
    FromToBigEndian(millis % Two48, UnixLength);
    u
  }

  /** `Parse`: uppercase, decode, and demand at least eight bytes. */
  function Parse(s: string): (r: Result<seq<byte>>)
    ensures r.Ok? ==> |r.value| >= 8
  {
    match Radix.Decode(Crockford, ToUpper(s))
    case None => Err(ErrCorrupt)
    case Some(bytes) => if |bytes| < 8 then Err(ErrNotEnoughBits) else Ok(bytes)
  }

  /** The Crockford symbols are digits and capital letters. */
  lemma SymbolCase(v: nat)
    requires v < 32
    ensures var c := Symbol(Crockford32, v);
      ToUpperChar(c) == c && ToUpperChar(ToLowerChar(c)) == c
  {
  }

  /** Uppercasing the text form, or lower- and then uppercasing it, changes nothing. */
  lemma UpperString(u: seq<byte>)
    ensures ToUpper(String(u)) == String(u)
    ensures ToUpper(ToLower(String(u))) == String(u)
  {
    var s := String(u);
    SizePow(Crockford32);
    var groups := Groups(BytesBits(u), 5);
    assert s == Symbols(Crockford32, groups);
    forall i | 0 <= i < |s|
      ensures ToUpperChar(s[i]) == s[i] && ToUpperChar(ToLowerChar(s[i])) == s[i]
    {
      SymbolCase(groups[i]);
    }
  }

  /**
   * The text form parses back to the same bytes when there are at least
   * eight of them (and to ErrNotEnoughBits otherwise), whatever the case of
   * its letters.
   */
  lemma ParseString(u: seq<byte>)
    ensures Parse(String(u)) == (if |u| >= 8 then Ok(u) else Err(ErrNotEnoughBits))
    ensures Parse(ToLower(String(u))) == Parse(String(u))
  {
    UpperString(u);
    RoundTrip(Crockford, u);
  }

  /** Every ULID `Parse` returns is one `String` renders back into a string that parses to it. */
  lemma ParseCanonical(s: string)
    requires Parse(s).Ok?
    ensures Parse(String(Parse(s).value)) == Parse(s)
  {
    ParseString(Parse(s).value);
  }

  /** What the fill reports: the bytes it wrote at the start of the payload, its count and its error. */
  datatype Filled = Filled(written: seq<byte>, n: int, err: Option<string>)

  /** The result of `Generate` at clock reading `millis` with the given fill. */
  function Generation(skew: byte, fill: (seq<byte>, seq<byte>) -> Filled, millis: int, bits: int): Result<seq<byte>>
  {
    if bits < 64 then Err(ErrNotEnoughBits)
    else if bits % 8 > 0 then Err(ErrInvalidBitCount)
    else
      var blank := Layout(skew, millis, seq(bits / 8 - PayloadOffset, _ => 0));
      var f := fill(blank, Payload(blank));
      if f.err.Some? then Err(f.err.value)
      else if f.n != bits / 8 - PayloadOffset then Err(ErrInsufficientData)
      else Ok(Layout(skew, millis, CopyInto(Payload(blank), f.written)))
  }

  /**
   * A generated ULID has bits/8 bytes, the generator's skew, the clock's
   * milliseconds (their low 48 bits) and the payload the fill wrote; fewer
   * than 64 bits, then a bit count that is not whole bytes, then a fill
   * error, then a short fill are the failures, in that order.
   */
  lemma GenerationMeaning(skew: byte, fill: (seq<byte>, seq<byte>) -> Filled, millis: int, bits: int)
    ensures var r := Generation(skew, fill, millis, bits);
      && (bits < 64 ==> r == Err(ErrNotEnoughBits))
      && (64 <= bits && bits % 8 != 0 ==> r == Err(ErrInvalidBitCount))
      && (r.Ok? ==> && |r.value| == bits / 8 && |Payload(r.value)| == bits / 8 - 7
                    && Skew(r.value) == skew && Timestamp(r.value) == millis % Two48
                    && (0 <= millis < Two48 ==> Timestamp(r.value) == millis))
      && (r.Err? ==> r.error in {ErrNotEnoughBits, ErrInvalidBitCount, ErrInsufficientData}
                     || (exists b, p :: fill(b, p).err == Some(r.error)))
  {
    var r := Generation(skew, fill, millis, bits);
    if bits >= 64 && bits % 8 == 0 {
      var blank := Layout(skew, millis, seq(bits / 8 - PayloadOffset, _ => 0));
      var f := fill(blank, Payload(blank));
      if f.err.Some? {
        assert fill(blank, Payload(blank)).err == Some(r.error);
      }
    }
  }

  /** A generated ULID survives `String` and `Parse`. */
  lemma GeneratedParses(skew: byte, fill: (seq<byte>, seq<byte>) -> Filled, millis: int, bits: int)
    requires Generation(skew, fill, millis, bits).Ok?
    ensures var u := Generation(skew, fill, millis, bits).value;
      Parse(String(u)) == Ok(u) && Timestamp(u) == millis % Two48
  {
    GenerationMeaning(skew, fill, millis, bits);
    ParseString(Generation(skew, fill, millis, bits).value);
  }

  class Generator {
    const skew: byte
    const fill: (seq<byte>, seq<byte>) -> Filled

    constructor(skew: byte, fill: (seq<byte>, seq<byte>) -> Filled)
      ensures this.skew == skew && this.fill == fill
    {
      this.skew := skew;
      this.fill := fill;
    }

    /** `Generate`: allocate bits/8 bytes and write the skew, the timestamp and the fill's payload in place. */
    method Generate(nowMillis: int, bits: int) returns (ulid: array?<byte>, err: Option<string>)
      ensures (ulid == null) == err.Some?
      ensures ulid != null ==> fresh(ulid)
      ensures Generation(skew, fill, nowMillis, bits) == if ulid == null then Err(err.value) else Ok(ulid[..])
    {
      if bits < 64 {
        return null, Some(ErrNotEnoughBits);
      }
      if bits % 8 > 0 {
        return null, Some(ErrInvalidBitCount);
      }
      var unixmillis := nowMillis % Two64;
      var millis := BigEndian(unixmillis, 8);
      ulid := new byte[bits / 8](_ => 0);
      ulid[SkewOffset] := skew;
      forall i | UnixOffset <= i < PayloadOffset {
        ulid[i] := millis[i + 1];
      }
      TimestampBytes(nowMillis);
      ghost var blank := Layout(skew, nowMillis, seq(bits / 8 - PayloadOffset, _ => 0));
      assert ulid[..] == blank;
      var f := fill(ulid[..], ulid[PayloadOffset..]);
      CopyPayload(ulid, f.written);
      assert blank[..PayloadOffset] == [skew] + BigEndian(nowMillis % Two48, UnixLength);
      assert ulid[..] == Layout(skew, nowMillis, CopyInto(Payload(blank), f.written));
      if f.err.Some? {
        return null, f.err;
      }
      if f.n != ulid.Length - PayloadOffset {
        return null, Some(ErrInsufficientData);
      }
      return ulid, None;
    }
  }

  /** The copy of the fill's output over the payload bytes; the skew and timestamp bytes are kept. */
  method CopyPayload(a: array<byte>, written: seq<byte>)
    requires a.Length >= PayloadOffset
    modifies a
    ensures a[..] == old(a[..PayloadOffset]) + CopyInto(old(a[PayloadOffset..]), written)
  {
    ghost var before := a[..];
    var m := if |written| < a.Length - PayloadOffset then |written| else a.Length - PayloadOffset;
    forall i | 0 <= i < m {
      a[PayloadOffset + i] := written[i];
    }
    assert a[..] == before[..PayloadOffset] + CopyInto(before[PayloadOffset..], written);
  }

  /** Bytes 2 to 7 of the 64-bit big-endian clock reading are the low 48 bits. */
  lemma TimestampBytes(millis: int)
    ensures BigEndian(millis % Two64, 8)[2..] == BigEndian(millis % Two48, UnixLength)
  {
    Pow256Six();
    BigEndianLow(millis % Two64, UnixLength, 2);
    MillisMod(millis);
  }

  lemma MillisMod(millis: int)
    ensures (millis % Two64) % Two48 == millis % Two48
  {
  }

  /**
   * What `Scan` is given: nil, a string, a pointer to a string, or a value
   * of another type, carried as the text `%s` formats it to.
   */
  datatype Source = Nil | Str(s: string) | StrPtr(p: string) | Other(formatted: string)

  /** The value `Scan` stores, or its error. */
  function Scanned(src: Source): (r: Result<seq<byte>>)
  {
    match src
    case Nil => Ok([])
    case Str(s) => Parse(s)
    case StrPtr(s) => Parse(s)
    case Other(f) => Err("unsupport source type: " + f)
  }

  /** `Value` then `Scan` restores a ULID of at least eight bytes. */
  lemma ValueScanned(u: seq<byte>)
    requires |u| >= 8
    ensures Scanned(Str(Value(u))) == Ok(u) && Scanned(StrPtr(Value(u))) == Ok(u)
  {
    ParseString(u);
  }

  /** The `*ULID` a `Scan` writes through. */
  class Ref {
    var ulid: seq<byte>

    constructor(ulid: seq<byte>)
      ensures this.ulid == ulid
    {
      this.ulid := ulid;
    }
  }

  /** `Scan` finishes with an error value, or panics dereferencing a nil destination. */
  datatype ScanOutcome = Finished(err: Option<string>) | NilDereference

  /**
   * `Scan` as written: a nil source is stored before the destination is
   * checked for nil, so a nil destination with a nil source panics.
   */
  method Scan(dest: Ref?, src: Source) returns (r: ScanOutcome)
    modifies dest
    ensures dest == null && src.Nil? ==> r == NilDereference
    ensures dest == null && !src.Nil? ==> r == Finished(Some(ErrNilDestination))
    ensures dest != null ==> r.Finished? && r.err == (if Scanned(src).Err? then Some(Scanned(src).error) else None)
    ensures dest != null ==> dest.ulid == (if Scanned(src).Ok? then Scanned(src).value else old(dest.ulid))
  {
    if src.Nil? {
      if dest == null {
        return NilDereference;
      }
      dest.ulid := [];
      return Finished(None);
    }
    if dest == null {
      return Finished(Some(ErrNilDestination));
    }
    var val := Scanned(src);
    if val.Err? {
      return Finished(Some(val.error));
    }
    dest.ulid := val.value;
    return Finished(None);
  }

  /** `Scan` with the nil-destination check first, as the check evidently intends: it never panics. */
  method ScanChecked(dest: Ref?, src: Source) returns (err: Option<string>)
    modifies dest
    ensures dest == null ==> err == Some(ErrNilDestination)
    ensures dest != null ==> err == (if Scanned(src).Err? then Some(Scanned(src).error) else None)
    ensures dest != null ==> dest.ulid == (if Scanned(src).Ok? then Scanned(src).value else old(dest.ulid))
  {
    if dest == null {
      return Some(ErrNilDestination);
    }
    var val := Scanned(src);
    if val.Err? {
      return Some(val.error);
    }
    dest.ulid := val.value;
    return None;
  }
}
