/**
 * The server side of the codec (`serverCodec`): a request arrives as a
 * header frame read by ReadRequestHeader and a body frame read by
 * ReadRequestBody; a response goes out as a header frame and a body frame.
 */
module Server {
  import opened Base
  import opened BufIO
  import opened Uvarint
  import opened Proto
  import opened Conn
  import opened Rpc

  /** The connection and the header work space of a server codec. */
  datatype ServerCodec = ServerCodec(w: Writer, r: Reader, respHeader: ResponseHeader, reqHeader: RequestHeader)

  /** NewServerCodec over a connection that will deliver `incoming` and
      answer writes as `replies` says. */
  function NewServerCodec(incoming: seq<byte>, end: StreamEnd, replies: seq<Reply>): (c: ServerCodec)
    ensures Remaining(c.r) == incoming && c.r.buffered == 0 && c.r.end == end
    ensures c.w.sent == [] && c.w.replies == replies
    ensures c.reqHeader == EmptyRequestHeader && c.respHeader == EmptyResponseHeader
  {
    ServerCodec(WriterState([], 0, replies), ReaderState(incoming, 0, 0, end), EmptyResponseHeader, EmptyRequestHeader)
  }

  /** The outcome of a call that only reports an error. */
  datatype Done = Done(err: Option<Error>, c: ServerCodec)

  /** The outcome of ReadRequestHeader: the error and the rpc.Request it filled in. */
  datatype HeaderRead = HeaderRead(err: Option<Error>, req: Request, c: ServerCodec)

  /** The outcome of ReadRequestBody: the error and the argument message (None for nil). */
  datatype BodyRead<B> = BodyRead(err: Option<Error>, body: Option<B>, c: ServerCodec)

  /** serverCodec.ReadRequestHeader: decode the next frame into the request
      header work space and, on success, copy its Id and Method into the
      rpc.Request. */
  function ReadRequestHeader<B>(c: ServerCodec, wire: Wire<B>, req: Request): (out: HeaderRead)
    ensures out.c.w == c.w && out.c.respHeader == c.respHeader
    ensures out.c.r.stream == c.r.stream && c.r.pos <= out.c.r.pos
    ensures out.err.Some? ==> out.req == req
    ensures out.err.None? ==>
              out.req.seqNo == out.c.reqHeader.id && out.req.serviceMethod == out.c.reqHeader.methodName
  {
    var rec := RecvProto(c.r, wire.requestHeader, Some(c.reqHeader));
    var h := rec.target.value;
    var c1 := c.(r := rec.r, reqHeader := h);
    if rec.err.Some? then HeaderRead(rec.err, req, c1)
    else HeaderRead(None, Request(h.methodName, h.id), c1)
  }

  /** serverCodec.ReadRequestBody as written. A nil argument returns at once:
      nothing is read and the header work space is kept. An argument that is
      not a proto.Message is refused without reading. Otherwise one frame is
      decoded into the argument and the work space is reset only when that
      succeeded. */
  function ReadRequestBody<B>(c: ServerCodec, wire: Wire<B>, x: Arg<B>): (out: BodyRead<B>)
    ensures x.Nil? ==> out == BodyRead(None, None, c)
    ensures x.EmptyStruct? || x.Other? ==> out == BodyRead(Some(NotProtoMessage), None, c)
    ensures out.c.w == c.w && out.c.respHeader == c.respHeader
    ensures out.c.r.stream == c.r.stream && c.r.pos <= out.c.r.pos
    ensures x.Message? && |Remaining(c.r)| > 0 ==> c.r.pos < out.c.r.pos
    ensures x.Message? ==> out.body.Some?
    ensures x.Message? && out.err.None? ==> out.c.reqHeader == EmptyRequestHeader
    ensures out.err.Some? ==> out.c.reqHeader == c.reqHeader
  {
    match x
    case Nil => BodyRead(None, None, c)
    case Message(m) =>
      var rec := RecvProto(c.r, wire.body, Some(m));
      if rec.err.Some? then BodyRead(rec.err, rec.target, c.(r := rec.r))
      else BodyRead(None, rec.target, c.(r := rec.r, reqHeader := EmptyRequestHeader))
    case _ => BodyRead(Some(NotProtoMessage), None, c)
  }

  /** net/rpc calls ReadRequestBody(nil) to have the body of a request it
      cannot serve read and discarded. As written the body frame stays in
      the stream, so the next ReadRequestHeader decodes the body as a
      header (or panics allocating it, when it is above the allocation
      limit). */
  lemma SkippedBodyReadAsHeader<B>(c: ServerCodec, wire: Wire<B>, req: Request, data: Bytes, rest: seq<byte>)
    requires |data| > 0 && Remaining(c.r) == Frame(data) + rest
    ensures var next := ReadRequestHeader(ReadRequestBody(c, wire, Nil).c, wire, req);
            && (|data| <= MaxAlloc ==>
                  (next.err, Some(next.c.reqHeader)) == Unmarshal(wire.requestHeader, data, Some(c.reqHeader)))
            && (|data| > MaxAlloc ==> next.err == Some(AllocTooLarge))
  {
    RecvFrame(c.r, wire.requestHeader, data, Some(c.reqHeader), rest);
  }

  /** Reading past one frame without decoding it: the length prefix, then
      io.ReadFull of that many bytes into a scratch buffer. */
  function SkipFrame(r: Reader): (out: Read<()>)
    ensures out.r.stream == r.stream && r.pos <= out.r.pos
    ensures out.res.Ok? <==> Decode(Remaining(r)).Some? && r.pos + Decode(Remaining(r)).value.1 + Decode(Remaining(r)).value.0 <= |r.stream|
    ensures out.res.Ok? ==> out.r.pos == r.pos + Decode(Remaining(r)).value.1 + Decode(Remaining(r)).value.0
  {
    var v := ReadUvarint(r);
    if v.res.Err? then Read(Err(v.res.error), v.r)
    else
      var full := ReadFull(v.r, v.res.value);
      if full.res.Err? then Read(Err(full.res.error), full.r) else Read(Ok(()), full.r)
  }

  /** serverCodec.ReadRequestBody as net/rpc needs it: a nil argument has
      the body frame read and discarded; every other argument is handled as
      before. */
  function ReadRequestBodyDiscarding<B>(c: ServerCodec, wire: Wire<B>, x: Arg<B>): (out: BodyRead<B>)
    ensures !x.Nil? ==> out == ReadRequestBody(c, wire, x)
    ensures x.Nil? ==> out.body.None? && out.c.w == c.w && out.c.reqHeader == c.reqHeader
    ensures x.Nil? ==> (out.err.None? <==> SkipFrame(c.r).res.Ok?)
    ensures x.Nil? && out.err.None? ==> out.c.r.pos == SkipFrame(c.r).r.pos
  {
    if x.Nil? then
      var skip := SkipFrame(c.r);
      if skip.res.Err? then BodyRead(Some(skip.res.error), None, c.(r := skip.r))
      else BodyRead(None, None, c.(r := skip.r))
    else ReadRequestBody(c, wire, x)
  }

  /** With the body discarded, the next header read starts right after the
      body frame. */
  lemma DiscardedBodyIsSkipped<B>(c: ServerCodec, wire: Wire<B>, data: Bytes, rest: seq<byte>)
    requires Remaining(c.r) == Frame(data) + rest
    ensures var out := ReadRequestBodyDiscarding(c, wire, Nil);
            out.err.None? && Remaining(out.c.r) == rest
  {
    assert Remaining(c.r) == PutUvarint(|data|) + (data + rest);
    ReadPut(c.r, |data|, data + rest);
    assert c.r.stream[c.r.pos + |Frame(data)|..] == rest;
  }

  /** serverCodec.writeResponse: a response that carries an error string is
      sent with no body. The header {Id: Seq, Error: Error} goes first, with
      Method left empty, and the body frame follows only if the header went
      out: a failed header send returns its error with no byte of the body
      written. Nothing is flushed and nothing is read. */
  function SendResponse<B>(c: ServerCodec, wire: Wire<B>, resp: Response, body: Option<B>): (out: Done)
    ensures out.c.r == c.r && out.c.reqHeader == c.reqHeader && out.c.w.flushed == c.w.flushed
    ensures c.w.sent <= out.c.w.sent
    ensures var header := ResponseHeader(resp.seqNo, "", resp.error);
            var sent := if resp.error != "" then None else body;
            && (Marshal(wire.body, sent).Err? ==> out == Done(Some(Marshal(wire.body, sent).error), c))
            && (Marshal(wire.body, sent).Ok? ==> out.c.respHeader == header)
            && (out.err.None? ==>
                  && Marshal(wire.body, sent).Ok? && Marshal(wire.responseHeader, Some(header)).Ok?
                  && out.c.w.sent == c.w.sent + Frame(Marshal(wire.responseHeader, Some(header)).value)
                                              + Frame(Marshal(wire.body, sent).value))
    ensures var header := ResponseHeader(resp.seqNo, "", resp.error);
            var sent := if resp.error != "" then None else body;
            && (Marshal(wire.body, sent).Ok? && Marshal(wire.responseHeader, Some(header)).Err? ==>
                  out.err == Some(Marshal(wire.responseHeader, Some(header)).error) && out.c.w == c.w)
            && (Marshal(wire.body, sent).Ok? && Marshal(wire.responseHeader, Some(header)).Ok? ==>
                  var hb := Marshal(wire.responseHeader, Some(header)).value;
                  && out.c.w.sent <= c.w.sent + Frame(hb) + Frame(Marshal(wire.body, sent).value)
                  && (SendFrame(c.w, hb).err.Some? ==>
                        && out.err == Failed(SendFrame(c.w, hb).err)
                        && out.c.w == SendFrame(c.w, hb).w
                        && out.c.w.sent <= c.w.sent + Frame(hb)))
    ensures resp.error != "" && out.err.None? ==>
              out.c.w.sent == c.w.sent + Frame(Marshal(wire.responseHeader, Some(ResponseHeader(resp.seqNo, "", resp.error))).value) + [0]
  {
    var response := if resp.error != "" then None else body;
    var pbResponse := Marshal(wire.body, response);
    if pbResponse.Err? then Done(Some(pbResponse.error), c)
    else
      var header := ResponseHeader(resp.seqNo, "", resp.error);
      var c1 := c.(respHeader := header);
      var pbHeader := Marshal(wire.responseHeader, Some(header));
      if pbHeader.Err? then Done(Some(pbHeader.error), c1)
      else
        var head := SendFrame(c1.w, pbHeader.value);
        if head.err.Some? then Done(Failed(head.err), c1.(w := head.w))
        else
          var tail := SendFrame(head.w, pbResponse.value);
          Done(Failed(tail.err), c1.(w := tail.w))
  }

  /** serverCodec.WriteResponse: a reply that is neither nil, a
      proto.Message nor struct{} is refused before anything is written;
      otherwise the response is sent, with an empty body for nil and
      struct{}, and, only if that succeeded, the writer is flushed. */
  function WriteResponse<B>(c: ServerCodec, wire: Wire<B>, resp: Response, x: Arg<B>): (out: Done)
    ensures x.Other? ==> out == Done(Some(NotProtoMessage), c)
    ensures out.c.r == c.r && out.c.reqHeader == c.reqHeader
    ensures c.w.sent <= out.c.w.sent
    ensures out.err.Some? ==> out.c.w.flushed == c.w.flushed
    ensures out.err.None? ==>
              var header := ResponseHeader(resp.seqNo, "", resp.error);
              var sent := if resp.error != "" then None else MessageOf(x);
              && !x.Other?
              && Marshal(wire.body, sent).Ok? && Marshal(wire.responseHeader, Some(header)).Ok?
              && out.c.w.sent == c.w.sent + Frame(Marshal(wire.responseHeader, Some(header)).value)
                                          + Frame(Marshal(wire.body, sent).value)
              && out.c.w.flushed == |out.c.w.sent|
              && out.c.respHeader == header
    ensures (x.Nil? || x.EmptyStruct? || resp.error != "") && out.err.None? ==>
              out.c.w.sent == c.w.sent + Frame(Marshal(wire.responseHeader, Some(ResponseHeader(resp.seqNo, "", resp.error))).value) + [0]
  {
    if x.Other? then Done(Some(NotProtoMessage), c)
    else
      var sent := SendResponse(c, wire, resp, MessageOf(x));
      if sent.err.Some? then sent
      else
        var (e, w) := Flush(sent.c.w);
        Done(Failed(e), sent.c.(w := w))
  }

  /** On a reliable connection a response whose parts encode is written and
      flushed without error. */
  lemma WriteResponseReliable<B>(c: ServerCodec, wire: Wire<B>, resp: Response, x: Arg<B>)
    requires Reliable(c.w) && !x.Other?
    requires Marshal(wire.body, if resp.error != "" then None else MessageOf(x)).Ok?
    requires Marshal(wire.responseHeader, Some(ResponseHeader(resp.seqNo, "", resp.error))).Ok?
    ensures WriteResponse(c, wire, resp, x).err.None?
  {
    var pbHeader := Marshal(wire.responseHeader, Some(ResponseHeader(resp.seqNo, "", resp.error))).value;
    SendFrameReliable(c.w, pbHeader);
    SendFrameReliable(SendFrame(c.w, pbHeader).w, Marshal(wire.body, if resp.error != "" then None else MessageOf(x)).value);
  }
}
