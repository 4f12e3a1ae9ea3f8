/**
 * The client side of the codec (`clientCodec`): a request goes out as a
 * header frame and a body frame, and a response comes back as a header
 * frame read by ReadResponseHeader and a body frame read by
 * ReadResponseBody.
 */
module Client {
  import opened Base
  import opened BufIO
  import opened Uvarint
  import opened Proto
  import opened Conn
  import opened Rpc

  /** The connection and the header work space of a client codec. */
  datatype ClientCodec = ClientCodec(w: Writer, r: Reader, reqHeader: RequestHeader, respHeader: ResponseHeader)

  /** NewClientCodec over a connection that will deliver `incoming` and
      answer writes as `replies` says. */
  function NewClientCodec(incoming: seq<byte>, end: StreamEnd, replies: seq<Reply>): (c: ClientCodec)
    ensures Remaining(c.r) == incoming && c.r.buffered == 0 && c.r.end == end
    ensures c.w.sent == [] && c.w.replies == replies
    ensures c.reqHeader == EmptyRequestHeader && c.respHeader == EmptyResponseHeader
  {
    ClientCodec(WriterState([], 0, replies), ReaderState(incoming, 0, 0, end), EmptyRequestHeader, EmptyResponseHeader)
  }

  /** The outcome of a call that only reports an error. */
  datatype Done = Done(err: Option<Error>, c: ClientCodec)

  /** The outcome of ReadResponseHeader: the error and the rpc.Response it filled in. */
  datatype HeaderRead = HeaderRead(err: Option<Error>, resp: Response, c: ClientCodec)

  /** The outcome of ReadResponseBody: the error and the reply message (None for nil). */
  datatype BodyRead<B> = BodyRead(err: Option<Error>, body: Option<B>, c: ClientCodec)

  /** The header a request is announced with. */
  function HeaderOf(req: Request): (h: RequestHeader)
    ensures h.id == req.seqNo && h.methodName == req.serviceMethod
  {
    RequestHeader(req.seqNo, req.serviceMethod)
  }

  /** clientCodec.writeRequest: marshal the body, then the header
      {Id: Seq, Method: ServiceMethod}, then send the header frame and, only
      if it went out, the body frame: a failed header send returns its error
      with no byte of the body written. Nothing is flushed and nothing is
      read. */
  function SendRequest<B>(c: ClientCodec, wire: Wire<B>, req: Request, body: Option<B>): (out: Done)
    ensures out.c.r == c.r && out.c.respHeader == c.respHeader && out.c.w.flushed == c.w.flushed
    ensures c.w.sent <= out.c.w.sent
    ensures Marshal(wire.body, body).Err? ==> out == Done(Some(Marshal(wire.body, body).error), c)
    ensures Marshal(wire.body, body).Ok? ==> out.c.reqHeader == HeaderOf(req)
    ensures Marshal(wire.body, body).Ok? && Marshal(wire.requestHeader, Some(HeaderOf(req))).Err? ==>
              out.err == Some(Marshal(wire.requestHeader, Some(HeaderOf(req))).error) && out.c.w == c.w
    ensures out.err.None? ==>
              && Marshal(wire.body, body).Ok? && Marshal(wire.requestHeader, Some(HeaderOf(req))).Ok?
              && out.c.w.sent == c.w.sent + Frame(Marshal(wire.requestHeader, Some(HeaderOf(req))).value)
                                          + Frame(Marshal(wire.body, body).value)
    ensures Marshal(wire.body, body).Ok? && Marshal(wire.requestHeader, Some(HeaderOf(req))).Ok? ==>
              var hb := Marshal(wire.requestHeader, Some(HeaderOf(req))).value;
              && out.c.w.sent <= c.w.sent + Frame(hb) + Frame(Marshal(wire.body, body).value)
              && (SendFrame(c.w, hb).err.Some? ==>
                    && out.err == Failed(SendFrame(c.w, hb).err)
                    && out.c.w == SendFrame(c.w, hb).w
                    && out.c.w.sent <= c.w.sent + Frame(hb))
  {
    var pbRequest := Marshal(wire.body, body);
    if pbRequest.Err? then Done(Some(pbRequest.error), c)
    else
      var header := HeaderOf(req);
      var c1 := c.(reqHeader := header);
      var pbHeader := Marshal(wire.requestHeader, Some(header));
      if pbHeader.Err? then Done(Some(pbHeader.error), c1)
      else
        var head := SendFrame(c1.w, pbHeader.value);
        if head.err.Some? then Done(Failed(head.err), c1.(w := head.w))
        else
          var tail := SendFrame(head.w, pbRequest.value);
          Done(Failed(tail.err), c1.(w := tail.w))
  }

  /** clientCodec.WriteRequest: a parameter that is neither nil nor a
      proto.Message is refused before anything is written; otherwise the
      request is sent and, only if that succeeded, the writer is flushed. */
  function WriteRequest<B>(c: ClientCodec, wire: Wire<B>, req: Request, param: Arg<B>): (out: Done)
    ensures !IsProto(param) ==> out == Done(Some(NotProtoMessage), c)
    ensures out.c.r == c.r && out.c.respHeader == c.respHeader
    ensures c.w.sent <= out.c.w.sent
    ensures out.err.Some? ==> out.c.w.flushed == c.w.flushed
    ensures out.err.None? ==>
              && IsProto(param)
              && Marshal(wire.body, MessageOf(param)).Ok?
              && Marshal(wire.requestHeader, Some(HeaderOf(req))).Ok?
              && out.c.w.sent == c.w.sent + Frame(Marshal(wire.requestHeader, Some(HeaderOf(req))).value)
                                          + Frame(Marshal(wire.body, MessageOf(param)).value)
              && out.c.w.flushed == |out.c.w.sent|
              && out.c.reqHeader == HeaderOf(req)
    ensures param.Nil? && out.err.None? ==>
              out.c.w.sent == c.w.sent + Frame(Marshal(wire.requestHeader, Some(HeaderOf(req))).value) + [0]
  {
    if !IsProto(param) then Done(Some(NotProtoMessage), c)
    else
      var sent := SendRequest(c, wire, req, MessageOf(param));
      if sent.err.Some? then sent
      else
        var (e, w) := Flush(sent.c.w);
        Done(Failed(e), sent.c.(w := w))
  }

  /** On a reliable connection a request whose parts encode is written and
      flushed without error. */
  lemma WriteRequestReliable<B>(c: ClientCodec, wire: Wire<B>, req: Request, param: Arg<B>)
    requires Reliable(c.w) && IsProto(param)
    requires Marshal(wire.body, MessageOf(param)).Ok?
    requires Marshal(wire.requestHeader, Some(HeaderOf(req))).Ok?
    ensures WriteRequest(c, wire, req, param).err.None?
  {
    var c1 := c.(reqHeader := HeaderOf(req));
    var pbHeader := Marshal(wire.requestHeader, Some(HeaderOf(req))).value;
    SendFrameReliable(c1.w, pbHeader);
    SendFrameReliable(SendFrame(c1.w, pbHeader).w, Marshal(wire.body, MessageOf(param)).value);
  }

  /** clientCodec.ReadResponseHeader: decode the next frame into the
      response header work space and, on success, copy its Id, Method and
      Error into the rpc.Response. */
  function ReadResponseHeader<B>(c: ClientCodec, wire: Wire<B>, resp: Response): (out: HeaderRead)
    ensures out.c.w == c.w && out.c.reqHeader == c.reqHeader
    ensures out.c.r.stream == c.r.stream && c.r.pos <= out.c.r.pos
    ensures out.err.Some? ==> out.resp == resp
    ensures out.err.None? ==>
              && out.resp.seqNo == out.c.respHeader.id
              && out.resp.serviceMethod == out.c.respHeader.methodName
              && out.resp.error == out.c.respHeader.error
  {
    var rec := RecvProto(c.r, wire.responseHeader, Some(c.respHeader));
    var h := rec.target.value;
    var c1 := c.(r := rec.r, respHeader := h);
    if rec.err.Some? then HeaderRead(rec.err, resp, c1)
    else HeaderRead(None, Response(h.methodName, h.id, h.error), c1)
  }

  /** A header frame with no payload is not decoded: the response is
      filled in from whatever the work space still holds. */
  lemma EmptyHeaderKeepsPrevious<B>(c: ClientCodec, wire: Wire<B>, resp: Response)
    requires |Remaining(c.r)| > 0 && Remaining(c.r)[0] == 0
    ensures var out := ReadResponseHeader(c, wire, resp);
            && out.err.None?
            && out.resp == Response(c.respHeader.methodName, c.respHeader.id, c.respHeader.error)
            && out.c.r.pos == c.r.pos + 1
  {
    EmptyFrameLaw(c.r, wire.responseHeader, Some(c.respHeader));
  }

  /** clientCodec.ReadResponseBody: a reply that is neither nil nor a
      proto.Message is refused without reading. Otherwise exactly one frame
      is read (also for a nil reply), and the response header work space is
      reset only when that succeeded. */
  function ReadResponseBody<B>(c: ClientCodec, wire: Wire<B>, x: Arg<B>): (out: BodyRead<B>)
    ensures !IsProto(x) ==> out == BodyRead(Some(NotProtoMessage), None, c)
    ensures out.c.w == c.w && out.c.reqHeader == c.reqHeader
    ensures out.c.r.stream == c.r.stream && c.r.pos <= out.c.r.pos
    ensures IsProto(x) && |Remaining(c.r)| > 0 ==> c.r.pos < out.c.r.pos
    ensures x.Message? ==> out.body.Some?
    ensures out.err.None? ==> out.c.respHeader == EmptyResponseHeader
    ensures out.err.Some? ==> out.c.respHeader == c.respHeader
  {
    if !IsProto(x) then BodyRead(Some(NotProtoMessage), None, c)
    else
      var rec := RecvProto(c.r, wire.body, MessageOf(x));
      if rec.err.Some? then BodyRead(rec.err, rec.target, c.(r := rec.r))
      else BodyRead(None, rec.target, c.(r := rec.r, respHeader := EmptyResponseHeader))
  }
}
