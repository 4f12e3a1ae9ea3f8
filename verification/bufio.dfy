/**
 * The buffered reader and writer a connection codec owns, reduced to what
 * the codec can observe.
 *
 * A reader is the whole byte stream the peer will ever send, a cursor into
 * it, the number of bytes after the cursor that `bufio.Reader` currently
 * holds in its buffer, and what a read past the end reports. The connection
 * is assumed to hand over as many bytes as are asked for and available, so a
 * refill of the buffer takes min(4096, available) bytes. The buffered count
 * of a reader is otherwise arbitrary, so statements about every reader cover
 * every state the real buffer can be in.
 *
 * A writer is the bytes accepted so far, how many of them were flushed to
 * the connection, and a script of replies for the next calls. Once the
 * script is exhausted the writer accepts everything.
 */
module BufIO {
  import opened Base

  /** bufio's default buffer size, used by bufio.NewReader. */
  const BufSize: nat := 4096

  /** What reading past the end of the stream reports. */
  datatype StreamEnd = AtEOF | Reset

  function EndError(e: StreamEnd): Error {
    if e == AtEOF then EOF else ConnReset
  }

  datatype ReaderState = ReaderState(stream: seq<byte>, pos: nat, buffered: nat, end: StreamEnd)

  /** The buffer holds the bytes right after the cursor and never more than its size. */
  type Reader = r: ReaderState | r.pos + r.buffered <= |r.stream| && r.buffered <= BufSize
    witness ReaderState([], 0, 0, AtEOF)

  /** The bytes the reader has not yet handed out. */
  function Remaining(r: Reader): seq<byte> {
    r.stream[r.pos..]
  }

  /** A reader over `s` that has not read anything yet. */
  function NewReader(s: seq<byte>): (r: Reader)
    ensures Remaining(r) == s && r.buffered == 0
  {
    ReaderState(s, 0, 0, AtEOF)
  }

  /** The result of a read together with the reader after it. */
  datatype Read<T> = Read(res: Result<T, Error>, r: Reader)

  /** The size of one refill of an empty buffer. */
  function Refill(r: Reader): (n: nat)
    requires r.pos < |r.stream|
    ensures 1 <= n <= BufSize && r.pos + n <= |r.stream|
  {
    Min(BufSize, |r.stream| - r.pos)
  }

  /** bufio.Reader.ReadByte. */
  function ReadByte(r: Reader): (out: Read<byte>)
    ensures out.r.stream == r.stream && out.r.end == r.end
    ensures r.pos < |r.stream| ==> out.res == Ok(r.stream[r.pos]) && out.r.pos == r.pos + 1
    ensures r.pos == |r.stream| ==> out.res == Err(EndError(r.end)) && out.r == r
  {
    if r.buffered > 0 then
      Read(Ok(r.stream[r.pos]), r.(pos := r.pos + 1, buffered := r.buffered - 1))
    else if r.pos == |r.stream| then
      Read(Err(EndError(r.end)), r)
    else
      Read(Ok(r.stream[r.pos]), r.(pos := r.pos + 1, buffered := Refill(r) - 1))
  }

  /** One bufio.Reader.Read into a buffer of `need` bytes: the count it
      delivers, 0 only at the end of the stream. */
  function ReadStep(r: Reader, need: nat): (out: (nat, Reader))
    requires need > 0
    ensures out.1.stream == r.stream && out.1.end == r.end
    ensures out.0 <= need && out.1.pos == r.pos + out.0
    ensures out.0 == 0 <==> r.pos == |r.stream|
  {
    if r.buffered > 0 then
      var k := Min(need, r.buffered);
      (k, r.(pos := r.pos + k, buffered := r.buffered - k))
    else if r.pos == |r.stream| then
      (0, r)
    else if need >= BufSize then
      // a large read with an empty buffer goes straight to the connection
      var k := Min(need, |r.stream| - r.pos);
      (k, r.(pos := r.pos + k))
    else
      var f := Refill(r);
      var k := Min(need, f);
      (k, r.(pos := r.pos + k, buffered := f - k))
  }

  /** io.ReadFull: read exactly `n` bytes. */
  function ReadFull(r: Reader, n: nat): (out: Read<seq<byte>>)
    ensures out.r.stream == r.stream && out.r.end == r.end
    ensures out.res.Ok? <==> r.pos + n <= |r.stream|
    ensures out.res.Ok? ==> out.res.value == r.stream[r.pos..r.pos + n] && out.r.pos == r.pos + n
    ensures out.res.Err? ==> out.r.pos == |r.stream|
    ensures out.res.Err? && r.end == AtEOF ==>
              out.res.error == (if r.pos == |r.stream| then EOF else UnexpectedEOF)
    ensures out.res.Err? && r.end == Reset ==> out.res.error == ConnReset
  {
    ReadAtLeast(r, n, 0)
  }

  /** The loop of io.ReadAtLeast after `got` bytes were read. */
  function ReadAtLeast(r: Reader, need: nat, got: nat): (out: Read<seq<byte>>)
    requires got <= r.pos
    ensures out.r.stream == r.stream && out.r.end == r.end
    ensures out.res.Ok? <==> r.pos + need <= |r.stream|
    ensures out.res.Ok? ==> out.res.value == r.stream[r.pos - got..r.pos + need] && out.r.pos == r.pos + need
    ensures out.res.Err? ==> out.r.pos == |r.stream|
    ensures out.res.Err? && r.end == AtEOF ==>
              out.res.error == (if got == 0 && r.pos == |r.stream| then EOF else UnexpectedEOF)
    ensures out.res.Err? && r.end == Reset ==> out.res.error == ConnReset
    decreases need
  {
    if need == 0 then
      Read(Ok(r.stream[r.pos - got..r.pos]), r)
    else
      var step := ReadStep(r, need);
      if step.0 == 0 then
        Read(Err(if r.end == AtEOF then (if got == 0 then EOF else UnexpectedEOF) else ConnReset), r)
      else
        ReadAtLeast(step.1, need - step.0, got + step.0)
  }

  /** The reply of the connection to one call on the writer. */
  datatype Reply =
    | Accept                        // every byte taken, no error
    | Fail(n: nat, kind: WriteErr)  // at most `n` bytes taken, then an error

  datatype WriterState = WriterState(sent: seq<byte>, flushed: nat, replies: seq<Reply>)

  /** `sent` is everything the writer accepted; its first `flushed` bytes reached the connection. */
  type Writer = w: WriterState | w.flushed <= |w.sent| witness WriterState([], 0, [])

  /** A writer that has accepted nothing and will accept everything. */
  function NewWriter(): (w: Writer)
    ensures w.sent == [] && w.replies == []
  {
    WriterState([], 0, [])
  }

  /** The result of one io.Writer.Write call. */
  datatype Written = Written(n: nat, err: Option<WriteErr>, w: Writer)

  /** One io.Writer.Write call, honouring the io.Writer contract: a short write carries an error. */
  function WriteOnce(w: Writer, p: seq<byte>): (out: Written)
    ensures out.n <= |p|
    ensures out.w.sent == w.sent + p[..out.n] && out.w.flushed == w.flushed
    ensures out.err.None? ==> out.n == |p| && |out.w.replies| <= |w.replies|
    ensures out.err.Some? ==> |w.replies| > 0 && out.w.replies == w.replies[1..]
                              && w.replies[0].Fail? && w.replies[0].kind == out.err.value
  {
    if |w.replies| == 0 then
      Written(|p|, None, w.(sent := w.sent + p))
    else
      match w.replies[0]
      case Accept => Written(|p|, None, w.(sent := w.sent + p, replies := w.replies[1..]))
      case Fail(n, kind) =>
        var m := Min(n, |p|);
        Written(m, Some(kind), w.(sent := w.sent + p[..m], replies := w.replies[1..]))
  }

  /** bufio.Writer.Flush: push every accepted byte to the connection. */
  function Flush(w: Writer): (out: (Option<WriteErr>, Writer))
    ensures out.1.sent == w.sent
    ensures out.0.None? ==> out.1.flushed == |w.sent|
    ensures out.0.Some? ==> out.1.flushed == w.flushed && |w.replies| > 0 && w.replies[0].Fail?
  {
    if |w.replies| == 0 then
      (None, w.(flushed := |w.sent|))
    else
      match w.replies[0]
      case Accept => (None, w.(flushed := |w.sent|, replies := w.replies[1..]))
      case Fail(_, kind) => (Some(kind), w.(replies := w.replies[1..]))
  }
}
