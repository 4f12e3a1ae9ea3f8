/**
 * The frame transport shared by both codecs (`baseConn`): a frame is the
 * payload length as an unsigned varint followed by the payload.
 */
module Conn {
  import opened Base
  import opened BufIO
  import opened Uvarint
  import opened Proto

  /** The outcome of sending bytes through the buffered writer. */
  datatype Sent = Sent(err: Option<WriteErr>, w: Writer)

  /** A write error as the codec returns it. */
  function Failed(e: Option<WriteErr>): (r: Option<Error>)
    ensures r.None? <==> e.None?
    ensures e.Some? ==> r == Some(WriteFailed(e.value))
  {
    if e.None? then None else Some(WriteFailed(e.value))
  }

  /** The number of replies a call used up. */
  function Used(before: Writer, after: Writer): int
  {
    |before.replies| - |after.replies|
  }

  /** The replies a write used up: every one but the last was a temporary
      failure (the only reason to call again), and an error returned is the
      last one's. */
  predicate Retries(used: seq<Reply>, err: Option<WriteErr>)
  {
    && (forall j :: 0 <= j < |used| - 1 ==> used[j].Fail? && used[j].kind == Temporary)
    && (err.Some? ==> |used| >= 1 && used[|used| - 1].Fail? && used[|used| - 1].kind == err.value)
  }

  /** baseConn.write: keep calling Write on what is left, resuming after a
      short write that came with a temporary error. The error returned is
      that of the last call, so a temporary error reported together with
      the final bytes is returned as well. Only a fatal error stops the
      bytes short. */
  function Write(w: Writer, data: seq<byte>): (out: Sent)
    ensures w.sent <= out.w.sent <= w.sent + data
    ensures out.err != Some(Fatal) ==> out.w.sent == w.sent + data
    ensures out.w.flushed == w.flushed
    ensures |data| == 0 ==> out == Sent(None, w)
    decreases |w.replies|
  {
    if |data| == 0 then Sent(None, w)
    else
      var call := WriteOnce(w, data);
      assert data[..call.n] + data[call.n..] == data;
      if call.err.None? || call.err == Some(Fatal) || call.n == |data| then
        Sent(call.err, call.w)
      else
        Write(call.w, data[call.n..])
  }

  /** The replies a write uses up are a prefix of the script, and they
      explain the outcome: the write goes on only after temporary errors. */
  lemma {:induction false} WriteReplies(w: Writer, data: seq<byte>)
    ensures var out := Write(w, data);
            && 0 <= Used(w, out.w) && out.w.replies == w.replies[Used(w, out.w)..]
            && Retries(w.replies[..Used(w, out.w)], out.err)
    decreases |w.replies|
  {
    if |data| > 0 {
      var call := WriteOnce(w, data);
      if call.err.None? || call.err == Some(Fatal) || call.n == |data| {
        assert call.err.Some? ==> w.replies[..Used(w, call.w)] == [w.replies[0]];
      } else {
        var rest := Write(call.w, data[call.n..]);
        WriteReplies(call.w, data[call.n..]);
        var u := Used(call.w, rest.w);
        assert Used(w, rest.w) == u + 1;
        assert w.replies[..u + 1] == [w.replies[0]] + call.w.replies[..u];
        RetriesCons(w.replies[0], call.w.replies[..u], rest.err);
      }
    }
  }

  /** A temporary failure in front of a run of retries is a run of retries. */
  lemma RetriesCons(x: Reply, used: seq<Reply>, err: Option<WriteErr>)
    requires x.Fail? && x.kind == Temporary && Retries(used, err)
    ensures Retries([x] + used, err)
  {
    var all := [x] + used;
    forall j | 0 <= j < |all| - 1
      ensures all[j].Fail? && all[j].kind == Temporary
    {
      if j > 0 {
        assert all[j] == used[j - 1];
      }
    }
    if err.Some? {
      assert all[|all| - 1] == used[|used| - 1];
    }
  }

  /** A connection whose next calls all succeed. */
  predicate Reliable(w: Writer)
  {
    forall j :: 0 <= j < |w.replies| ==> w.replies[j] == Accept
  }

  /** On a reliable connection a write succeeds and the connection stays
      reliable. */
  lemma WriteReliable(w: Writer, data: seq<byte>)
    requires Reliable(w)
    ensures Write(w, data).err.None? && Reliable(Write(w, data).w)
  {
    var out := Write(w, data);
    WriteReplies(w, data);
    assert forall j :: 0 <= j < |out.w.replies| ==> out.w.replies[j] == w.replies[Used(w, out.w) + j];
    var u := Used(w, out.w);
    assert u > 0 ==> w.replies[..u][u - 1] == Accept;
  }

  /** The loop of baseConn.write as the code runs it, with the offset it
      resumes from. */
  method WriteLoop(w: Writer, data: seq<byte>) returns (err: Option<WriteErr>, w': Writer)
    ensures Sent(err, w') == Write(w, data)
    ensures err != Some(Fatal) ==> w'.sent == w.sent + data
  {
    w' := w;
    err := None;
    var index := 0;
    while index < |data|
      invariant 0 <= index <= |data|
      invariant w'.sent == w.sent + data[..index]
      invariant Write(w, data) == if index < |data| then Write(w', data[index..]) else Sent(err, w')
      decreases |w'.replies|, |data| - index
    {
      var call := WriteOnce(w', data[index..]);
      WriteStep(w', data[index..]);
      assert data[index..][call.n..] == data[index + call.n..];
      assert data[..index + call.n] == data[..index] + data[index..][..call.n];
      w' := call.w;
      err := call.err;
      if err == Some(Fatal) {
        return;
      }
      index := index + call.n;
    }
  }

  /** One turn of the write loop. */
  lemma WriteStep(w: Writer, data: seq<byte>)
    requires |data| > 0
    ensures var call := WriteOnce(w, data);
            Write(w, data) ==
              if call.err.None? || call.err == Some(Fatal) || call.n == |data| then Sent(call.err, call.w)
              else Write(call.w, data[call.n..])
  {
  }

  /** What a bufio.Writer answers once it has recorded an error: its error
      is sticky, so each of the next `k` calls takes nothing and returns
      that error again. */
  function Stuck(k: nat): (rs: seq<Reply>)
    ensures |rs| == k && forall j :: 0 <= j < k ==> rs[j] == Fail(0, Temporary)
  {
    seq(k, _ => Fail(0, Temporary))
  }

  /** Against a stuck writer each call of the loop uses up one reply and
      sends nothing: the loop is where it was, however many such replies
      there are. */
  lemma {:induction false} StuckBurns(w: Writer, data: seq<byte>, k: nat, tail: seq<Reply>)
    requires |data| > 0 && w.replies == Stuck(k) + tail
    ensures Write(w, data) == Write(w.(replies := tail), data)
    decreases k
  {
    if k == 0 {
      assert w.replies == tail;
    } else {
      var call := WriteOnce(w, data);
      assert w.replies[0] == Fail(0, Temporary);
      assert w.replies[1..] == Stuck(k - 1) + tail;
      assert call.w == w.(replies := Stuck(k - 1) + tail);
      assert data[0..] == data;
      StuckBurns(call.w, data, k - 1, tail);
    }
  }

  /** baseConn.write against the bufio.Writer it is given, as written: after
      a short write with a temporary error the writer is stuck, and the loop
      calls it again after every failure. Whatever number `k` of further
      calls is considered, the loop has made them all without sending a
      byte past the first failure; since a bufio.Writer never recovers,
      the loop never returns. */
  lemma StickyWriterSpins(w: Writer, data: seq<byte>, n: nat, k: nat, tail: seq<Reply>)
    requires n < |data| && w.replies == [Fail(n, Temporary)] + Stuck(k) + tail
    ensures Write(w, data) == Write(w.(sent := w.sent + data[..n], replies := tail), data[n..])
    ensures |Write(w, data).w.replies| <= |tail|
  {
    var call := WriteOnce(w, data);
    assert w.replies[0] == Fail(n, Temporary);
    assert w.replies[1..] == Stuck(k) + tail;
    assert call.w == w.(sent := w.sent + data[..n], replies := Stuck(k) + tail);
    StuckBurns(call.w, data[n..], k, tail);
    WriteReplies(w.(sent := w.sent + data[..n], replies := tail), data[n..]);
  }

  /** baseConn.write corrected for a writer whose errors are sticky: a
      temporary error is retried only when its call took some bytes, so a
      call that takes nothing ends the loop with its error. */
  function WriteStopping(w: Writer, data: seq<byte>): (out: Sent)
    ensures w.sent <= out.w.sent <= w.sent + data
    ensures out.err.None? ==> out.w.sent == w.sent + data
    ensures out.w.flushed == w.flushed
    ensures |data| == 0 ==> out == Sent(None, w)
    decreases |w.replies|
  {
    if |data| == 0 then Sent(None, w)
    else
      var call := WriteOnce(w, data);
      assert data[..call.n] + data[call.n..] == data;
      if call.err.None? || call.err == Some(Fatal) || call.n == |data| || call.n == 0 then
        Sent(call.err, call.w)
      else
        WriteStopping(call.w, data[call.n..])
  }

  /** Against the stuck writer the corrected loop returns the temporary
      error after at most two calls, having sent what the first one took. */
  lemma StickyWriterStops(w: Writer, data: seq<byte>, n: nat, k: nat, tail: seq<Reply>)
    requires n < |data| && k >= 1 && w.replies == [Fail(n, Temporary)] + Stuck(k) + tail
    ensures WriteStopping(w, data).err == Some(Temporary)
    ensures WriteStopping(w, data).w.sent == w.sent + data[..n]
    ensures |WriteStopping(w, data).w.replies| + 2 >= |w.replies|
  {
    var call := WriteOnce(w, data);
    assert w.replies[0] == Fail(n, Temporary);
    assert w.replies[1..] == Stuck(k) + tail;
    assert call.w == w.(sent := w.sent + data[..n], replies := Stuck(k) + tail);
    if n > 0 {
      var w1 := call.w;
      var second := WriteOnce(w1, data[n..]);
      assert w1.replies[0] == Fail(0, Temporary);
      assert second.n == 0 && second.err == Some(Temporary);
      assert second.w.sent == w1.sent;
      assert WriteStopping(w, data) == WriteStopping(w1, data[n..]);
    }
  }

  /** A writer that never answers a call with nothing taken and a temporary
      error sees no difference between the two loops. */
  lemma {:induction false} WriteStoppingAgrees(w: Writer, data: seq<byte>)
    requires forall j :: 0 <= j < |w.replies| ==> w.replies[j] != Fail(0, Temporary)
    ensures WriteStopping(w, data) == Write(w, data)
    decreases |w.replies|
  {
    if |data| > 0 {
      var call := WriteOnce(w, data);
      if !(call.err.None? || call.err == Some(Fatal) || call.n == |data|) {
        assert w.replies[0] != Fail(0, Temporary);
        assert call.n > 0;
        assert forall j :: 0 <= j < |call.w.replies| ==> call.w.replies[j] == w.replies[j + 1];
        WriteStoppingAgrees(call.w, data[call.n..]);
      }
    }
  }

  /** The frame for a payload: its length as a uvarint, then the payload. */
  function Frame(data: Bytes): seq<byte>
  {
    PutUvarint(|data|) + data
  }

  /** baseConn.sendFrame. An empty payload is sent as the single byte
      0x00; otherwise the length prefix is written and, only if that
      succeeded, the payload. */
  function SendFrame(w: Writer, data: Bytes): (out: Sent)
    ensures w.sent <= out.w.sent <= w.sent + Frame(data)
    ensures out.err.None? ==> out.w.sent == w.sent + Frame(data)
    ensures |data| == 0 && out.err.None? ==> out.w.sent == w.sent + [0]
    ensures out.err != Some(Fatal) ==> w.sent + PutUvarint(|data|) <= out.w.sent
    ensures out.w.flushed == w.flushed
  {
    var prefix := PutUvarint(|data|);
    if |data| == 0 then
      Write(w, prefix)
    else
      var head := Write(w, prefix);
      if head.err.Some? then
        assert w.sent + prefix <= w.sent + Frame(data);
        head
      else
        var body := Write(head.w, data);
        assert head.w.sent + data == w.sent + Frame(data);
        body
  }

  /** On a reliable connection a frame is always sent whole. */
  lemma SendFrameReliable(w: Writer, data: Bytes)
    requires Reliable(w)
    ensures SendFrame(w, data).err.None? && Reliable(SendFrame(w, data).w)
    ensures SendFrame(w, data).w.sent == w.sent + Frame(data)
  {
    var prefix := PutUvarint(|data|);
    WriteReliable(w, prefix);
    if |data| > 0 {
      WriteReliable(Write(w, prefix).w, data);
    }
  }

  /** The outcome of receiving one frame into a target message. */
  datatype Received<M> = Received(err: Option<Error>, target: Option<M>, r: Reader)

  /** Go's int(size) on a 64-bit platform: sizes from 2^63 up wrap to negative. */
  function GoInt(size: uint64): (n: int64)
    ensures 0 <= n <==> size < 0x8000_0000_0000_0000
    ensures 0 <= n ==> n == size
  {
    if size < 0x8000_0000_0000_0000 then size else size - 0x1_0000_0000_0000_0000
  }

  /** proto.Unmarshal of `data` into the target; a nil target cannot take a payload. */
  function Unmarshal<M>(s: Schema<M>, data: seq<byte>, target: Option<M>): (out: (Option<Error>, Option<M>))
    ensures target.None? ==> out == (Some(NilTarget), None)
    ensures target.Some? ==> out.1.Some?
    ensures target.Some? && out.0.None? ==> s.unmarshal(data) == Parsed(out.1.value)
    ensures target.Some? && out.0.Some? ==> out.0 == Some(Malformed) && s.unmarshal(data) == Rejected(out.1.value)
  {
    match target
    case None => (Some(NilTarget), None)
    case Some(_) =>
      match s.unmarshal(data)
      case Parsed(m) => (None, Some(m))
      case Rejected(p) => (Some(Malformed), Some(p))
  }

  /** What io.ReadFull reports when the stream ends inside a payload. */
  function ShortError(r: Reader): (e: Error)
    ensures r.end == Reset <==> e == ConnReset
  {
    if r.end == Reset then ConnReset else if r.pos == |r.stream| then EOF else UnexpectedEOF
  }

  /** The slow path of recvProto once its buffer exists: io.ReadFull of
      `size` bytes, then proto.Unmarshal of them into the target. */
  function ReadPayload<M>(r: Reader, size: uint64, s: Schema<M>, target: Option<M>): (out: Received<M>)
    ensures out.r.stream == r.stream && out.r.end == r.end && r.pos <= out.r.pos
    ensures r.pos + size > |r.stream| ==>
              out.err == Some(ShortError(r)) && out.target == target && out.r.pos == |r.stream|
    ensures r.pos + size <= |r.stream| ==>
              (out.err, out.target) == Unmarshal(s, Remaining(r)[..size], target) && out.r.pos == r.pos + size
  {
    var full := ReadFull(r, size);
    if full.res.Err? then
      Received(Some(full.res.error), target, full.r)
    else
      assert full.res.value == Remaining(r)[..size];
      var u := Unmarshal(s, full.res.value, target);
      Received(u.0, u.1, full.r)
  }

  /** The second half of baseConn.recvProto, once the length is known. When
      the whole payload is already buffered it is decoded in place and
      discarded only after a successful decode; otherwise a buffer of the
      announced length is allocated and filled. A length that is negative
      as a Go int is refused by Peek; a length above the allocation limit
      makes `make` panic before anything is read; a stream ending inside
      the payload is an error of io.ReadFull; otherwise the payload bytes
      are decoded into the target, whichever path was taken. */
  function RecvPayload<M>(r: Reader, size: uint64, s: Schema<M>, target: Option<M>): (out: Received<M>)
    ensures out.r.stream == r.stream && out.r.end == r.end && r.pos <= out.r.pos
    ensures size == 0 ==> out == Received(None, target, r)
    ensures size >= 0x8000_0000_0000_0000 ==> out == Received(Some(NegativeCount), target, r)
    ensures MaxAlloc < size < 0x8000_0000_0000_0000 ==> out == Received(Some(AllocTooLarge), target, r)
    ensures 0 < size <= MaxAlloc && r.pos + size > |r.stream| ==>
              out.err == Some(ShortError(r)) && out.target == target && out.r.pos == |r.stream|
    ensures 0 < size <= MaxAlloc && r.pos + size <= |r.stream| ==>
              (out.err, out.target) == Unmarshal(s, Remaining(r)[..size], target)
              && out.r.pos == (if out.err.Some? && r.buffered >= size then r.pos else r.pos + size)
  {
    if size == 0 then
      Received(None, target, r)
    else if r.buffered >= GoInt(size) then
      if GoInt(size) < 0 then
        Received(Some(NegativeCount), target, r)
      else
        // decode in place from the buffered bytes, then discard them
        var data := r.stream[r.pos..r.pos + size];
        assert data == Remaining(r)[..size];
        var u := Unmarshal(s, data, target);
        if u.0.Some? then
          Received(u.0, u.1, r)
        else
          Received(None, u.1, r.(pos := r.pos + size, buffered := r.buffered - size))
    else if size > MaxAlloc then
      // make([]byte, size) panics
      Received(Some(AllocTooLarge), target, r)
    else
      ReadPayload(r, size, s, target)
  }

  /** The payload step with the slow path reading the payload as it
      arrives instead of allocating the announced length first: a length
      the stream does not deliver is a short read however large it is, and
      no length makes the step panic. */
  function RecvPayloadStreamed<M>(r: Reader, size: uint64, s: Schema<M>, target: Option<M>): (out: Received<M>)
    ensures out.r.stream == r.stream && out.r.end == r.end && r.pos <= out.r.pos
    ensures out.err != Some(AllocTooLarge)
    ensures 0 < size < 0x8000_0000_0000_0000 && r.pos + size > |r.stream| ==>
              out.err == Some(ShortError(r)) && out.target == target && out.r.pos == |r.stream|
    ensures 0 < size < 0x8000_0000_0000_0000 && r.pos + size <= |r.stream| ==>
              (out.err, out.target) == Unmarshal(s, Remaining(r)[..size], target)
  {
    if MaxAlloc < size < 0x8000_0000_0000_0000 then ReadPayload(r, size, s, target)
    else RecvPayload(r, size, s, target)
  }

  /** The two payload steps differ only for lengths above the allocation
      limit that are not negative as a Go int. */
  lemma StreamedAgrees<M>(r: Reader, size: uint64, s: Schema<M>, target: Option<M>)
    ensures RecvPayloadStreamed(r, size, s, target) == RecvPayload(r, size, s, target) <==>
              !(MaxAlloc < size < 0x8000_0000_0000_0000)
  {
    if MaxAlloc < size < 0x8000_0000_0000_0000 {
      assert RecvPayload(r, size, s, target).err == Some(AllocTooLarge);
    }
  }

  /** baseConn.recvProto: read a length prefix, then the payload into the
      target. A stream that does not start with a valid prefix is an error
      that leaves the target alone. */
  function RecvProto<M>(r: Reader, s: Schema<M>, target: Option<M>): (out: Received<M>)
    ensures out.r.stream == r.stream && out.r.end == r.end && r.pos <= out.r.pos
    ensures target.Some? ==> out.target.Some?
    ensures Decode(Remaining(r)).None? ==> out.err.Some? && out.target == target
    ensures Remaining(r) != [] ==> r.pos < out.r.pos
  {
    var v := ReadUvarint(r);
    if v.res.Err? then
      Received(Some(v.res.error), target, v.r)
    else
      RecvPayload(v.r, v.res.value, s, target)
  }

  /** Once the prefix is read, recvProto is the payload step. */
  lemma RecvAfterPrefix<M>(r: Reader, s: Schema<M>, target: Option<M>)
    requires Decode(Remaining(r)).Some?
    ensures var (size, k) := Decode(Remaining(r)).value;
            var r1 := ReadUvarint(r).r;
            && r1.pos == r.pos + k
            && Remaining(r1) == Remaining(r)[k..]
            && RecvProto(r, s, target) == RecvPayload(r1, size, s, target)
  {
  }

  /** On success exactly the prefix and the payload are consumed, and the
      target holds the decoding of those payload bytes; a zero length leaves
      the target as it was. */
  lemma RecvProtoSuccess<M>(r: Reader, s: Schema<M>, target: Option<M>)
    requires RecvProto(r, s, target).err.None?
    ensures Decode(Remaining(r)).Some?
    ensures var (size, k) := Decode(Remaining(r)).value;
            var out := RecvProto(r, s, target);
            && out.r.pos == r.pos + k + size
            && (size == 0 ==> out.target == target)
            && (size > 0 ==> target.Some? && out.target.Some?
                              && s.unmarshal(Remaining(r)[k..k + size]) == Parsed(out.target.value))
  {
    var (size, k) := Decode(Remaining(r)).value;
    var r1 := ReadUvarint(r).r;
    assert RecvProto(r, s, target) == RecvPayload(r1, size, s, target)
           && r1.stream == r.stream && r1.pos == r.pos + k by {
      RecvAfterPrefix(r, s, target);
    }
    PayloadSuccess(r, k, r1, size, s, target, RecvProto(r, s, target));
  }

  /** A successful payload step after a prefix of `k` bytes consumed
      exactly `size` bytes and decoded them into the target. */
  lemma PayloadSuccess<M>(r0: Reader, k: nat, r: Reader, size: uint64, s: Schema<M>, target: Option<M>,
                          out: Received<M>)
    requires r.stream == r0.stream && r.pos == r0.pos + k
    requires out == RecvPayload(r, size, s, target) && out.err.None?
    ensures && out.r.pos == r0.pos + k + size
            && (size == 0 ==> out.target == target)
            && (size > 0 ==> k + size <= |Remaining(r0)| && target.Some? && out.target.Some?
                              && s.unmarshal(Remaining(r0)[k..k + size]) == Parsed(out.target.value))
  {
    if size > 0 {
      PayloadAfterPrefix(s, r0, r, k, size);
    }
  }

  /** The payload after a prefix of `k` bytes, seen from the reader that
      stands after the prefix, decodes the same. */
  lemma PayloadAfterPrefix<M>(s: Schema<M>, r: Reader, r1: Reader, k: nat, size: nat)
    requires r1.stream == r.stream && r1.pos == r.pos + k && r1.pos + size <= |r1.stream|
    ensures s.unmarshal(Remaining(r1)[..size]) == s.unmarshal(Remaining(r)[k..k + size])
  {
    assert Remaining(r1)[..size] == Remaining(r)[k..k + size];
  }

  /** Two readers at the same place of the same stream, whatever they hold
      buffered, report the same error and leave the target the same; when
      they succeed they also stop at the same place. */
  lemma RecvPathsAgree<M>(r1: Reader, r2: Reader, s: Schema<M>, target: Option<M>)
    requires r1.stream == r2.stream && r1.pos == r2.pos && r1.end == r2.end
    ensures RecvProto(r1, s, target).err == RecvProto(r2, s, target).err
    ensures RecvProto(r1, s, target).target == RecvProto(r2, s, target).target
    ensures RecvProto(r1, s, target).err.None? ==> RecvProto(r1, s, target).r.pos == RecvProto(r2, s, target).r.pos
  {
    ReadUvarintIgnoresBuffer(r1, r2);
    if Decode(Remaining(r1)).Some? {
      RecvAfterPrefix(r1, s, target);
      RecvAfterPrefix(r2, s, target);
      var size := Decode(Remaining(r1)).value.0;
      PayloadPathsAgree(ReadUvarint(r1).r, ReadUvarint(r2).r, size, s, target);
    }
  }

  /** The payload step does not depend on what is buffered either. */
  lemma PayloadPathsAgree<M>(r1: Reader, r2: Reader, size: uint64, s: Schema<M>, target: Option<M>)
    requires r1.stream == r2.stream && r1.pos == r2.pos && r1.end == r2.end
    ensures RecvPayload(r1, size, s, target).err == RecvPayload(r2, size, s, target).err
    ensures RecvPayload(r1, size, s, target).target == RecvPayload(r2, size, s, target).target
    ensures RecvPayload(r1, size, s, target).err.None? ==>
              RecvPayload(r1, size, s, target).r.pos == RecvPayload(r2, size, s, target).r.pos
  {
    assert Remaining(r1) == Remaining(r2);
  }

  /** When the payload is already buffered and does not decode, recvProto
      returns before discarding it: only the length prefix is consumed. */
  lemma BufferedRejectKeepsPayload<M>(r: Reader, s: Schema<M>, target: Option<M>)
    requires Decode(Remaining(r)).Some?
    requires var (size, k) := Decode(Remaining(r)).value;
             && 0 < size < 0x8000_0000_0000_0000
             && ReadUvarint(r).r.buffered >= size
             && target.Some?
             && s.unmarshal(Remaining(r)[k..k + size]).Rejected?
    ensures RecvProto(r, s, target).err == Some(Malformed)
    ensures RecvProto(r, s, target).r.pos == r.pos + Decode(Remaining(r)).value.1
  {
    var (size, k) := Decode(Remaining(r)).value;
    var r1 := ReadUvarint(r).r;
    assert RecvProto(r, s, target) == RecvPayload(r1, size, s, target)
           && r1.stream == r.stream && r1.pos == r.pos + k by {
      RecvAfterPrefix(r, s, target);
    }
    BufferedReject(r, k, r1, size, s, target, RecvProto(r, s, target));
  }

  /** The payload step after a prefix of `k` bytes, on a buffered payload
      that does not decode, leaves the reader right after the prefix. */
  lemma BufferedReject<M>(r0: Reader, k: nat, r: Reader, size: uint64, s: Schema<M>, target: Option<M>,
                          out: Received<M>)
    requires r.stream == r0.stream && r.pos == r0.pos + k
    requires 0 < size <= r.buffered && target.Some?
    requires out == RecvPayload(r, size, s, target)
    requires s.unmarshal(Remaining(r0)[k..k + size]).Rejected?
    ensures out.err == Some(Malformed) && out.r.pos == r0.pos + k
  {
    PayloadAfterPrefix(s, r0, r, k, size);
    assert GoInt(size) == size;
  }

  /** A stream that ends inside the payload makes recvProto fail, with the
      error io.ReadFull reports, Peek's for a negative length, or the panic
      of `make` for a length above the allocation limit. */
  lemma ShortPayloadFails<M>(r: Reader, s: Schema<M>, target: Option<M>)
    requires Decode(Remaining(r)).Some?
    requires var (size, k) := Decode(Remaining(r)).value; |Remaining(r)| < k + size
    ensures RecvProto(r, s, target).err.Some?
    ensures RecvProto(r, s, target).target == target
    ensures var size := Decode(Remaining(r)).value.0;
            && (r.end == AtEOF && size <= MaxAlloc ==> RecvProto(r, s, target).err.value in {EOF, UnexpectedEOF})
            && (MaxAlloc < size < 0x8000_0000_0000_0000 ==> RecvProto(r, s, target).err == Some(AllocTooLarge))
            && (size >= 0x8000_0000_0000_0000 ==> RecvProto(r, s, target).err == Some(NegativeCount))
  {
    RecvAfterPrefix(r, s, target);
  }

  /** The reader left after the length prefix of a stream holding nothing
      else stands at the end of that stream. */
  lemma PrefixOnly(x: uint64)
    ensures var r := NewReader(PutUvarint(x));
            && 1 <= |Remaining(r)| <= MaxVarintLen64
            && ReadUvarint(r).res == Ok(x)
            && ReadUvarint(r).r.pos == |r.stream| && ReadUvarint(r).r.end == AtEOF
  {
    var r := NewReader(PutUvarint(x));
    PutUvarintLength(x);
    assert Remaining(r) == PutUvarint(x) + [];
    ReadPut(r, x, []);
  }

  /** A stream holding nothing but a length prefix above the allocation
      limit (at most ten bytes, such as the nine of 2^60) makes recvProto
      panic in `make`. */
  lemma HugePrefixPanics<M>(x: uint64, s: Schema<M>, target: Option<M>)
    requires MaxAlloc < x < 0x8000_0000_0000_0000
    ensures RecvProto(NewReader(PutUvarint(x)), s, target).err == Some(AllocTooLarge)
  {
    PrefixOnly(x);
  }

  /** On the same stream the streamed payload step reports io.EOF. */
  lemma HugePrefixStreamed<M>(x: uint64, s: Schema<M>, target: Option<M>)
    requires MaxAlloc < x < 0x8000_0000_0000_0000
    ensures RecvPayloadStreamed(ReadUvarint(NewReader(PutUvarint(x))).r, x, s, target).err == Some(EOF)
  {
    PrefixOnly(x);
  }

  /** Receiving a frame whose length byte is 0 succeeds, consumes exactly
      that byte and leaves the target untouched. */
  lemma EmptyFrameLaw<M>(r: Reader, s: Schema<M>, target: Option<M>)
    requires |Remaining(r)| > 0 && Remaining(r)[0] == 0
    ensures RecvProto(r, s, target).err.None?
    ensures RecvProto(r, s, target).target == target
    ensures RecvProto(r, s, target).r.pos == r.pos + 1
  {
    assert Remaining(r) == PutUvarint(0) + Remaining(r)[1..];
    ReadPut(r, 0, Remaining(r)[1..]);
    RecvAfterPrefix(r, s, target);
  }

  /** A frame carrying `data` is received as proto.Unmarshal of `data`:
      an empty frame takes one byte and leaves the target alone, a payload
      above the allocation limit panics, and a successful receive consumes
      the whole frame. */
  lemma RecvFrame<M>(r: Reader, s: Schema<M>, data: Bytes, target: Option<M>, rest: seq<byte>)
    requires Remaining(r) == Frame(data) + rest
    ensures var out := RecvProto(r, s, target);
            && (|data| == 0 ==> out.err.None? && out.target == target)
            && (0 < |data| <= MaxAlloc ==> (out.err, out.target) == Unmarshal(s, data, target))
            && (|data| > MaxAlloc ==> out.err == Some(AllocTooLarge) && out.target == target)
            && (out.err.None? ==> out.r.pos == r.pos + |Frame(data)|)
  {
    var n := |data|;
    assert Remaining(r) == PutUvarint(n) + (data + rest);
    ReadPut(r, n, data + rest);
    RecvAfterPrefix(r, s, target);
    var r1 := ReadUvarint(r).r;
    assert Remaining(r1)[..n] == data by {
      assert Remaining(r1) == data + rest;
    }
  }

  /** A frame carrying the encoding of `m` is received as `m`: the prefix
      and the payload are consumed, and the target becomes `m`, or stays as
      it was when the encoding is empty. */
  lemma FrameRoundTrip<M(!new)>(r: Reader, s: Schema<M>, m: M, target: Option<M>, rest: seq<byte>)
    requires RoundTrips(s) && Marshal(s, Some(m)).Ok?
    requires Remaining(r) == Frame(Marshal(s, Some(m)).value) + rest
    requires target.Some? || Marshal(s, Some(m)).value == []
    ensures var out := RecvProto(r, s, target);
            && out.err.None?
            && out.r.pos == r.pos + |Frame(Marshal(s, Some(m)).value)|
            && out.target == if Marshal(s, Some(m)).value == [] then target else Some(m)
  {
    var data := Marshal(s, Some(m)).value;
    RecvFrame(r, s, data, target, rest);
    assert s.unmarshal(data) == Parsed(m);
  }
}
