// The write-ahead log's reader (wal/reader.go): a buffered reader over the
// file, a logical position, and one record per `Read`.
module WalReader {
  import opened Bytes
  import opened Outcomes
  import opened Wal
  import opened Crc

  /**
   * What one `Read` does with the unread bytes: its result, how many bytes
   * it takes from the buffered reader, and how far it moves the position.
   * `Panicked` is a frame size `make` refuses: above the runtime's largest
   * allocation, or so large that it wraps around 2^64 and slicing the short
   * buffer it allocates fails.
   */
  datatype Step = Step(result: Result<seq<byte>>, consumed: nat, advance: nat) | Panicked

  /**
   * The Go runtime's largest allocation on 64-bit Linux (`maxAlloc`, 2^48
   * bytes): `make` panics with "len out of range" above it.
   */
  const MaxAlloc := 0x1_0000_0000_0000

  /** The longest record a frame within `MaxAlloc` holds: ten varint bytes and four checksum bytes around it. */
  const MaxRecord := MaxAlloc - 14

  function Min(a: nat, b: nat): nat
  {
    if a <= b then a else b
  }

  /**
   * A read once the varint has been taken from `header`: the buffered
   * reader hands over as many of the frame's bytes as remain, the rest of
   * the scratch slice stays zero, and the checksum is compared.
   */
  function DecodeWith(stream: seq<byte>, header: seq<byte>): Step
  {
    match ReadUvarintFrom(header, 0)
    case Err(e) => Step(Err(e), 0, 0)
    case Ok(h) =>
      var length, n := h.0, h.1;
      if n + length + 4 > MaxAlloc then Panicked else Checked(stream, n, length)
  }

  /**
   * The frame after an `n`-byte varint of `length`: the buffered reader
   * hands over as many of its bytes as remain, the rest of the scratch
   * slice stays zero, and the checksum is compared.
   */
  function Checked(stream: seq<byte>, n: nat, length: nat): Step
  {
    var total := n + length + 4;
    var got := Min(total, |stream|);
    var data := stream[..got] + seq(total - got, _ => 0);
    var record := data[n..n + length];
    if Crc32(record) != FromBigEndian(data[n + length..]) then Step(Err("corrupted block"), got, total)
    else Step(Ok(record), got, total)
  }

  /** `Read` as written: it first peeks ten bytes, and fewer than ten remaining is `EOF`. */
  function Decode(stream: seq<byte>): Step
  {
    if |stream| < 10 then Step(Err("EOF"), 0, 0) else DecodeWith(stream, stream[..10])
  }

  /** The evidently intended read: peek up to ten bytes and decode the varint from what is there. */
  function DecodeIntended(stream: seq<byte>): Step
  {
    if stream == [] then Step(Err("EOF"), 0, 0) else DecodeWith(stream, stream[..Min(10, |stream|)])
  }

  /**
   * Once its varint has been read, a frame followed by anything yields its
   * record when the stored checksum is the record's, and a corrupted block
   * otherwise; either way the reader moves past the whole frame.
   */
  lemma CheckedFrame(p: seq<byte>, sum: u32, rest: seq<byte>)
    ensures var f := Uvarint(|p|) + p + BigEndian(sum, 4);
      Checked(f + rest, |Uvarint(|p|)|, |p|)
      == Step(if sum == Crc32(p) then Ok(p) else Err("corrupted block"), |f|, |f|)
  {
    var u := Uvarint(|p|);
    var f := u + p + BigEndian(sum, 4);
    var stream := f + rest;
    assert stream[..|f|] + seq(0, _ => 0) == f;
    assert f[|u|..|u| + |p|] == p;
    assert f[|u| + |p|..] == BigEndian(sum, 4);
    assert Pow256(4) == 0x1_0000_0000;
    FromToBigEndian(sum, 4);
  }

  /** A header holding a whole frame's varint decodes the frame that follows it. */
  lemma DecodeWithFrame(p: seq<byte>, rest: seq<byte>, header: seq<byte>)
    requires |p| <= MaxRecord
    requires |Uvarint(|p|)| <= |header| && header[..|Uvarint(|p|)|] == Uvarint(|p|)
    ensures DecodeWith(Frame(p) + rest, header) == Step(Ok(p), |Frame(p)|, |Frame(p)|)
  {
    var u := Uvarint(|p|);
    Uint64Uvarint(|p|);
    Pow2Facts();
    assert header[0..|u|] == u;
    UvarintRoundTrip(header, 0, |p|);
    assert |u| + |p| + 4 <= MaxAlloc;
    assert DecodeWith(Frame(p) + rest, header) == Checked(Frame(p) + rest, |u|, |p|);
    CheckedFrame(p, Crc32(p), rest);
  }

  /** Round trip: a frame followed by anything, ten bytes in all, reads back as its record and moves past it. */
  lemma DecodeFrame(p: seq<byte>, rest: seq<byte>)
    requires |p| <= MaxRecord && |Frame(p) + rest| >= 10
    ensures Decode(Frame(p) + rest) == Step(Ok(p), |Frame(p)|, |Frame(p)|)
  {
    var s := Frame(p) + rest;
    Uint64Uvarint(|p|);
    assert s[..10][..|Uvarint(|p|)|] == Uvarint(|p|);
    DecodeWithFrame(p, rest, s[..10]);
  }

  /** As written, a last record of fewer than five bytes cannot be read: its frame is shorter than the peek. */
  lemma ShortLastRecordUnreadable(p: seq<byte>)
    requires |p| < 5
    ensures Decode(Frame(p)) == Step(Err("EOF"), 0, 0)
  {
    RecordLengthBounds(p);
  }

  /** With the intended peek, every frame reads back, however short and whatever follows. */
  lemma DecodeIntendedFrame(p: seq<byte>, rest: seq<byte>)
    requires |p| <= MaxRecord
    ensures DecodeIntended(Frame(p) + rest) == Step(Ok(p), |Frame(p)|, |Frame(p)|)
  {
    var s := Frame(p) + rest;
    Uint64Uvarint(|p|);
    assert s[..Min(10, |s|)][..|Uvarint(|p|)|] == Uvarint(|p|);
    DecodeWithFrame(p, rest, s[..Min(10, |s|)]);
  }

  /**
   * Reading a log of frames: the `k`-th read returns the `k`-th record and
   * leaves the frames after it, as long as it is not a last record shorter
   * than five bytes.
   */
  lemma FramesReadBack(records: seq<seq<byte>>, k: nat)
    requires k < |records|
    requires forall i :: 0 <= i < |records| ==> |records[i]| <= MaxRecord
    requires k < |records| - 1 || |records[k]| >= 5
    ensures Decode(Frames(records[k..])) == Step(Ok(records[k]), |Frame(records[k])|, |Frame(records[k])|)
    ensures Frames(records[k..])[|Frame(records[k])|..] == Frames(records[k + 1..])
  {
    var tail := records[k..];
    assert tail[0] == records[k] && tail[1..] == records[k + 1..];
    var rest := Frames(records[k + 1..]);
    assert Frames(tail) == Frame(records[k]) + rest;
    RecordLengthBounds(records[k]);
    if k < |records| - 1 {
      var after := records[k + 1..];
      assert after[0] == records[k + 1];
      RecordLengthBounds(records[k + 1]);
      assert |rest| >= |Frame(records[k + 1])|;
    }
    DecodeFrame(records[k], rest);
  }

  /**
   * Reading an eleven-byte record such as "hello world" back returns it
   * and moves the position to 16: one length byte, eleven record bytes,
   * four checksum bytes.
   */
  lemma ElevenByteRecord(p: seq<byte>, rest: seq<byte>)
    requires |p| == 11
    ensures Decode(Frame(p) + rest).result == Ok(p)
    ensures Decode(Frame(p) + rest).advance == 16
  {
    RecordLengthBounds(p);
    DecodeFrame(p, rest);
  }

  /**
   * A frame whose checksum does not match is reported as a corrupted
   * block, yet the position and the buffered reader have moved past it.
   */
  lemma CorruptedFrameSkipped(p: seq<byte>, sum: u32, rest: seq<byte>)
    requires |p| <= MaxRecord && sum != Crc32(p)
    requires |Uvarint(|p|) + p + BigEndian(sum, 4) + rest| >= 10
    ensures var f := Uvarint(|p|) + p + BigEndian(sum, 4);
      Decode(f + rest) == Step(Err("corrupted block"), |f|, |f|)
  {
    var u := Uvarint(|p|);
    var f := u + p + BigEndian(sum, 4);
    var s := f + rest;
    Uint64Uvarint(|p|);
    Pow2Facts();
    assert s[..10][0..|u|] == u;
    UvarintRoundTrip(s[..10], 0, |p|);
    CheckedFrame(p, sum, rest);
  }

  /** What `Read` reports: a count, an error, or a Go panic. */
  datatype ReadOutcome = Count(n: nat) | Failure(error: string) | Panic

  /** The builtin `copy(dst, src)`: copies as many bytes as both hold. */
  method CopyPrefix(dst: array<byte>, src: seq<byte>) returns (n: nat)
    modifies dst
    ensures n == Min(dst.Length, |src|)
    ensures dst[..n] == src[..n] && dst[n..] == old(dst[n..])
  {
    n := Min(dst.Length, |src|);
    var i := 0;
    while i < n
      invariant i <= n
      invariant dst[..i] == src[..i] && dst[i..] == old(dst[i..])
    {
      dst[i] := src[i];
      i := i + 1;
    }
  }

  /** The bytes of `file` from `offset` on; none past its end. */
  function StreamAt(file: seq<byte>, offset: nat): seq<byte>
  {
    if offset <= |file| then file[offset..] else []
  }

  /**
   * The decoding half of `Read`: peek ten bytes, read the varint, refuse a
   * frame size `make` cannot allocate, and check the frame.
   */
  method NextFrame(stream: seq<byte>) returns (step: Step)
    ensures step == Decode(stream)
  {
    if |stream| < 10 {
      return Step(Err("EOF"), 0, 0);
    }
    var header := stream[..10];
    var h := ReadUvarintFrom(header, 0);
    if h.Err? {
      return Step(Err(h.error), 0, 0);
    }
    var length, n := h.value.0, h.value.1;
    if n + length + 4 > MaxAlloc {
      return Panicked;
    }
    return Checked(stream, n, length);
  }

  class Reader {
    /** The file's contents. */
    const file: seq<byte>
    /** How far into the file the buffered reader has handed out bytes. */
    var offset: nat
    /** The reader's own count of how far it has read. */
    var position: u64

    /** `OpenReader`: a fresh reader at the start of the file, position 0. */
    constructor(file: seq<byte>)
      ensures this.file == file && offset == 0 && position == 0
    {
      this.file := file;
      offset := 0;
      position := 0;
    }

    /** `Position`. */
    function Position(): u64
      reads this
    {
      position
    }

    /**
     * `Read`: one frame from the unread bytes, as `Decode` describes; the
     * record is copied into `p`, cut to its size. Position and offset move
     * before the checksum is checked.
     */
    method Read(p: array<byte>) returns (r: ReadOutcome)
      modifies this, p
      ensures var step := Decode(StreamAt(file, old(offset)));
        step.Panicked? ==> r == Panic && offset == old(offset) && position == old(position) && p[..] == old(p[..])
      ensures var step := Decode(StreamAt(file, old(offset)));
        step.Step? ==> offset == old(offset) + step.consumed && position == (old(position) + step.advance) % Two64
      ensures var step := Decode(StreamAt(file, old(offset)));
        step.Step? && step.result.Err? ==> r == Failure(step.result.error) && p[..] == old(p[..])
      ensures var step := Decode(StreamAt(file, old(offset)));
        step.Step? && step.result.Ok? ==>
          r == Count(Min(p.Length, |step.result.value|))
          && p[..r.n] == step.result.value[..r.n] && p[r.n..] == old(p[r.n..])
    {
      var step := NextFrame(StreamAt(file, offset));
      if step.Panicked? {
        return Panic;
      }
      offset := offset + step.consumed;
      position := (position + step.advance) % Two64;
      if step.result.Err? {
        return Failure(step.result.error);
      }
      var count := CopyPrefix(p, step.result.value);
      return Count(count);
    }

    /**
     * `Seek`: `moved` is the file handle's answer to the seek. On success
     * the buffered bytes are dropped and reading resumes there, with the
     * position set to it.
     */
    method Seek(moved: Result<nat>) returns (pos: nat, err: Option<string>)
      modifies this
      ensures moved.Err? ==> pos == 0 && err == Some(moved.error) && offset == old(offset) && position == old(position)
      ensures moved.Ok? ==> pos == moved.value && err == None && offset == moved.value && position == moved.value % Two64
    {
      if moved.Err? {
        return 0, Some(moved.error);
      }
      offset := moved.value;
      position := moved.value % Two64;
      return moved.value, None;
    }
  }
}
