// In-memory byte streams for plugins: `pipe` (plugin/pipe.go), whose
// `Close` marks it done, and `blockingReadWriteCloser`
// (plugin/blocking.go), whose `Close` cancels its context. Both keep a
// `bytes.Buffer`: a write appends to it and a read moves bytes from its
// front into the caller's slice. The channels that serialise the calls
// are not modelled; each call is one atomic step.
module Plugin {
  import opened Bytes
  import opened Outcomes

  /** The errors the streams return. */
  datatype IoError = EOF | ErrClosedPipe | AlreadyClosed | Canceled

  /** The text of each error. */
  function Message(e: IoError): string
  {
    match e
    case EOF => "EOF"
    case ErrClosedPipe => "io: read/write on closed pipe"
    case AlreadyClosed => "pipe already closed"
    case Canceled => "context canceled"
  }

  /** How many bytes `bytes.Buffer.Read` moves into a slice of `size` bytes: as many as fit and are there. */
  function Taken(buffered: nat, size: nat): (n: nat)
    ensures n <= buffered && n <= size
    ensures n == size || n == buffered
  {
    if size < buffered then size else buffered
  }

  function Concat(chunks: seq<seq<byte>>): seq<byte>
  {
    if chunks == [] then [] else Concat(chunks[..|chunks| - 1]) + chunks[|chunks| - 1]
  }

  function Sum(sizes: seq<nat>): nat
  {
    if sizes == [] then 0 else sizes[0] + Sum(sizes[1..])
  }

  /** The bytes successive reads of the given sizes return, one after the other. */
  function ReadChunks(data: seq<byte>, sizes: seq<nat>): seq<byte>
  {
    if sizes == [] then []
    else
      var n := Taken(|data|, sizes[0]);
      data[..n] + ReadChunks(data[n..], sizes[1..])
  }

  /** Reads return the buffered bytes in the order they were buffered, and never more than asked for. */
  lemma {:induction false} ReadsInOrder(data: seq<byte>, sizes: seq<nat>)
    ensures ReadChunks(data, sizes) == data[..Taken(|data|, Sum(sizes))]
  {
    if sizes != [] {
      var n := Taken(|data|, sizes[0]);
      ReadsInOrder(data[n..], sizes[1..]);
      var m := Taken(|data| - n, Sum(sizes[1..]));
      assert data[n..][..m] == data[n..n + m];
      assert data[..n] + data[n..n + m] == data[..n + m];
    }
  }

  /** Bytes written in several writes and then read back come out in the order they were written. */
  lemma WritesReadBack(writes: seq<seq<byte>>, sizes: seq<nat>)
    requires Sum(sizes) >= |Concat(writes)|
    ensures ReadChunks(Concat(writes), sizes) == Concat(writes)
  {
    ReadsInOrder(Concat(writes), sizes);
  }

  /** One more accepted write puts its bytes after all the earlier ones. */
  lemma {:induction false} ConcatSnoc(chunks: seq<seq<byte>>, p: seq<byte>)
    ensures Concat(chunks + [p]) == Concat(chunks) + p
  {
    assert (chunks + [p])[..|chunks|] == chunks;
  }

  /** `Pipe()`'s result: the buffer and whether `Close` has been called. */
  class Pipe {
    var data: seq<byte>
    var done: bool

    constructor ()
      ensures data == [] && !done
    {
      data := [];
      done := false;
    }

    /** `Len`: the number of buffered bytes; nothing changes. */
    method Len() returns (n: nat)
      ensures n == |data|
    {
      n := |data|;
    }

    /**
     * `Read`: move the first bytes of the buffer into `p`; EOF when the pipe
     * is closed and nothing is left afterwards.
     */
    method Read(p: array<byte>) returns (n: nat, err: Option<IoError>)
      modifies this, p
      ensures n == Taken(|old(data)|, p.Length)
      ensures p[..n] == old(data)[..n] && p[n..] == old(p[n..])
      ensures data == old(data)[n..] && done == old(done)
      ensures err == (if done && data == [] then Some(EOF) else None)
    {
      n := Copy(data, p);
      data := data[n..];
      if done && |data| == 0 {
        err := Some(EOF);
      } else {
        err := None;
      }
    }

    /** `Write`: append `p` to the buffer, unless the pipe is closed. */
    method Write(p: seq<byte>) returns (n: nat, err: Option<IoError>)
      modifies this
      ensures old(done) ==> n == 0 && err == Some(ErrClosedPipe) && data == old(data)
      ensures !old(done) ==> n == |p| && err == None && data == old(data) + p
      ensures done == old(done)
    {
      if done {
        return 0, Some(ErrClosedPipe);
      }
      data := data + p;
      return |p|, None;
    }

    /** `Close`: mark the pipe done; a second `Close` reports that it already was. */
    method Close() returns (err: Option<IoError>)
      modifies this
      ensures err == (if old(done) then Some(AlreadyClosed) else None)
      ensures done && data == old(data)
    {
      if done {
        return Some(AlreadyClosed);
      }
      done := true;
      return None;
    }
  }

  /** `bytes.Buffer.Read`'s copy: the first bytes of `data` into the front of `p`. */
  method Copy(data: seq<byte>, p: array<byte>) returns (n: nat)
    modifies p
    ensures n == Taken(|data|, p.Length)
    ensures p[..n] == data[..n] && p[n..] == old(p[n..])
  {
    n := Taken(|data|, p.Length);
    var i := 0;
    while i < n
      invariant 0 <= i <= n
      invariant p[..i] == data[..i] && p[n..] == old(p[n..])
    {
      p[i] := data[i];
      i := i + 1;
    }
  }

  /** `NewBlockingReadWriteCloser()`'s result: the buffer and whether its context is cancelled. */
  class BlockingReadWriteCloser {
    var buf: seq<byte>
    var cancelled: bool

    constructor ()
      ensures buf == [] && !cancelled
    {
      buf := [];
      cancelled := false;
    }

    /**
     * `Read`: move the first bytes of the buffer into `p`; once closed, EOF
     * when nothing is left, and the context's error while bytes remain. An
     * open, empty stream returns no bytes and no error.
     */
    method Read(p: array<byte>) returns (n: nat, err: Option<IoError>)
      modifies this, p
      ensures n == Taken(|old(buf)|, p.Length)
      ensures p[..n] == old(buf)[..n] && p[n..] == old(p[n..])
      ensures buf == old(buf)[n..] && cancelled == old(cancelled)
      ensures !cancelled ==> err == None
      ensures cancelled && buf == [] ==> err == Some(EOF)
      ensures cancelled && buf != [] ==> err == Some(Canceled)
    {
      n := Copy(buf, p);
      buf := buf[n..];
      err := if cancelled then Some(Canceled) else None;
      if |buf| == 0 && err.Some? {
        err := Some(EOF);
      }
    }

    /** `Write`: append `p` to the buffer, unless the context is cancelled. */
    method Write(p: seq<byte>) returns (n: nat, err: Option<IoError>)
      modifies this
      ensures old(cancelled) ==> n == 0 && err == Some(ErrClosedPipe) && buf == old(buf)
      ensures !old(cancelled) ==> n == |p| && err == None && buf == old(buf) + p
      ensures cancelled == old(cancelled)
    {
      if cancelled {
        return 0, Some(ErrClosedPipe);
      }
      buf := buf + p;
      return |p|, None;
    }

    /** `Close`: cancel the context; it never fails, however often it is called. */
    method Close() returns (err: Option<IoError>)
      modifies this
      ensures err == None
      ensures cancelled && buf == old(buf)
    {
      cancelled := true;
      return None;
    }
  }

  /**
   * The test's sequence: a message written is read back whole; after
   * `Close`, an empty read reports EOF and a write is refused.
   */
  method BlockingRoundTrip(message: seq<byte>)
    returns (back: seq<byte>, closeErr: Option<IoError>, readErr: Option<IoError>, writeErr: Option<IoError>)
    ensures back == message
    ensures closeErr == None && readErr == Some(EOF) && writeErr == Some(ErrClosedPipe)
  {
    var channel := new BlockingReadWriteCloser();
    var _, _ := channel.Write(message);
    var p := new byte[|message|](_ => 0);
    var n, _ := channel.Read(p);
    back := p[..n];
    closeErr := channel.Close();
    var empty := new byte[0];
    var _, e := channel.Read(empty);
    readErr := e;
    var _, w := channel.Write([]);
    writeErr := w;
  }

  /** On a pipe, bytes left after `Close` are still read, and EOF comes with the last of them. */
  method PipeDrainsAfterClose(first: seq<byte>, size: nat)
    returns (chunk: seq<byte>, err: Option<IoError>)
    requires 0 < size
    ensures size < |first| ==> chunk == first[..size] && err == None
    ensures size >= |first| ==> chunk == first && err == Some(EOF)
  {
    var pip := new Pipe();
    var _, _ := pip.Write(first);
    var _ := pip.Close();
    var p := new byte[size](_ => 0);
    var n;
    n, err := pip.Read(p);
    chunk := p[..n];
  }
}
