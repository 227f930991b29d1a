// The write-ahead log's writer (wal/writer.go): frames are built in a
// scratch array and appended to a buffered writer over an append-only file.
module WalWriter {
  import opened Bytes
  import opened Outcomes
  import opened Wal
  import opened Crc

  /** `binary.PutUvarint` into `buf`: writes the varint of `x` at the front and returns its length. */
  method PutUvarint(buf: array<byte>, x: nat) returns (n: nat)
    requires |Uvarint(x)| <= buf.Length
    modifies buf
    ensures n == |Uvarint(x)| && buf[..n] == Uvarint(x)
    ensures buf[n..] == old(buf[n..])
  {
    var i := 0;
    var y := x;
    while y >= 128
      invariant i + |Uvarint(y)| == |Uvarint(x)|
      invariant buf[..i] + Uvarint(y) == Uvarint(x)
      invariant forall k :: i <= k < buf.Length ==> buf[k] == old(buf[k])
      decreases y
    {
      var before := buf[..i];
      assert Uvarint(y) == [y % 128 + 128] + Uvarint(y / 128);
      buf[i] := y % 128 + 128;
      assert buf[..i + 1] == before + [y % 128 + 128];
      assert buf[..i + 1] + Uvarint(y / 128) == before + Uvarint(y);
      y := y / 128;
      i := i + 1;
    }
    buf[i] := y;
    assert buf[..i + 1] == buf[..i] + [y];
    n := i + 1;
  }

  /** `binary.BigEndian.PutUint32` at offset `at`. */
  method PutUint32(buf: array<byte>, at: nat, v: u32)
    requires at + 4 <= buf.Length
    modifies buf
    ensures buf[..] == old(buf[..at]) + BigEndian(v, 4) + old(buf[at + 4..])
  {
    buf[at] := v / 0x100_0000 % 256;
    buf[at + 1] := v / 0x1_0000 % 256;
    buf[at + 2] := v / 0x100 % 256;
    buf[at + 3] := v % 256;
    BigEndianFour(v);
    assert buf[..] == old(buf[..at]) + BigEndian(v, 4) + old(buf[at + 4..]);
  }

  lemma BigEndianFour(v: nat)
    ensures BigEndian(v, 4) == [v / 0x100_0000 % 256, v / 0x1_0000 % 256, v / 0x100 % 256, v % 256]
  {
    var a, b, c := v / 256, v / 256 / 256, v / 256 / 256 / 256;
    assert b == v / 0x1_0000;
    assert c == v / 0x100_0000;
    assert BigEndian(c, 1) == [c % 256];
    assert BigEndian(b, 2) == [c % 256, b % 256];
    assert BigEndian(a, 3) == [c % 256, b % 256, a % 256];
  }

  /** The builtin `copy(dst[at:], src)` when `src` fits. */
  method CopyAt(dst: array<byte>, at: nat, src: seq<byte>)
    requires at + |src| <= dst.Length
    modifies dst
    ensures dst[..] == old(dst[..at]) + src + old(dst[at + |src|..])
  {
    var i := 0;
    while i < |src|
      invariant i <= |src|
      invariant dst[..at] == old(dst[..at]) && dst[at..at + i] == src[..i] && dst[at + i..] == old(dst[at + i..])
    {
      dst[at + i] := src[i];
      i := i + 1;
    }
    assert dst[..] == dst[..at] + dst[at..at + |src|] + dst[at + |src|..];
  }

  /**
   * The framing half of `Write`: the varint length, the record and its
   * big-endian CRC-32, laid out in a scratch array of the largest size a
   * frame can take and cut to the frame.
   */
  method EncodeFrame(p: seq<byte>) returns (frame: seq<byte>)
    requires |p| <= MaxLen
    ensures frame == Frame(p)
  {
    var length := |p|;
    var checksum := Crc32(p);
    Uint64Uvarint(length);
    var buffer := new byte[10 + length + 4];
    var m := PutUvarint(buffer, length);
    ghost var b1 := buffer[..];
    assert b1[..m] == Uvarint(length);
    CopyAt(buffer, m, p);
    ghost var b2 := buffer[..];
    assert b2[..m + length] == Uvarint(length) + p;
    PutUint32(buffer, m + length, checksum);
    frame := buffer[..m + length + 4];
    assert frame == Uvarint(length) + p + BigEndian(checksum, 4);
  }

  class Writer {
    /** What has reached the file. */
    var file: seq<byte>
    /** What the buffered writer holds and has not yet flushed. */
    var buffered: seq<byte>
    var closed: bool

    /** `OpenWriter` on a file holding `existing`: writes go after it. */
    constructor(existing: seq<byte>)
      ensures file == existing && buffered == [] && !closed
    {
      file := existing;
      buffered := [];
      closed := false;
    }

    /** Everything written so far, flushed or not, in call order. */
    function Written(): seq<byte>
      reads this
    {
      file + buffered
    }

    /**
     * `Write`: the frame of `p` goes to the buffer; the count reported is
     * the record's length, not the frame's. `failure` is the buffered
     * writer's error, on which nothing is written and 0 is reported.
     */
    method Write(p: seq<byte>, failure: Option<string>) returns (n: nat, err: Option<string>)
      requires |p| <= MaxLen
      modifies this
      ensures failure.Some? ==> n == 0 && err == failure && buffered == old(buffered)
      ensures failure.None? ==> n == |p| && err == None && buffered == old(buffered) + Frame(p)
      ensures file == old(file) && closed == old(closed)
    {
      var frame := EncodeFrame(p);
      if failure.Some? {
        return 0, failure;
      }
      buffered := buffered + frame;
      return |p|, None;
    }

    /** `Flush`: the buffer reaches the file, unless the file write fails. */
    method Flush(failure: Option<string>) returns (err: Option<string>)
      modifies this
      ensures err == failure
      ensures failure.None? ==> file == old(file) + old(buffered) && buffered == []
      ensures failure.Some? ==> file == old(file) && buffered == old(buffered)
      ensures closed == old(closed)
    {
      if failure.Some? {
        return failure;
      }
      file := file + buffered;
      buffered := [];
      return None;
    }

    /** `Sync` is `Flush`. */
    method Sync(failure: Option<string>) returns (err: Option<string>)
      modifies this
      ensures err == failure
      ensures failure.None? ==> file == old(file) + old(buffered) && buffered == []
      ensures failure.Some? ==> file == old(file) && buffered == old(buffered)
      ensures closed == old(closed)
    {
      err := Flush(failure);
    }

    /** `Close`: flushes, dropping a flush error, then reports only the handle's close error. */
    method Close(flushFailure: Option<string>, closeFailure: Option<string>) returns (err: Option<string>)
      modifies this
      ensures err == closeFailure && closed
      ensures flushFailure.None? ==> file == old(file) + old(buffered) && buffered == []
      ensures flushFailure.Some? ==> file == old(file) && buffered == old(buffered)
    {
      var _ := Flush(flushFailure);
      closed := true;
      return closeFailure;
    }
  }
}
