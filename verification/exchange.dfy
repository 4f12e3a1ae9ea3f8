/**
 * The two codecs against each other: what one side writes, the other side
 * reads back, field for field.
 */
module Exchange {
  import opened Base
  import opened BufIO
  import opened Proto
  import opened Conn
  import opened Rpc
  import Client
  import Server

  /** Past the first bytes of what a reader has left, the rest follows. */
  lemma RestAfter(r: Reader, a: seq<byte>, rest: seq<byte>)
    requires Remaining(r) == a + rest
    ensures r.stream[r.pos + |a|..] == rest
  {
    assert r.stream[r.pos + |a|..] == (a + rest)[|a|..];
  }

  /** A header frame sent for `h` is read back as `h` by a reader whose
      work space was reset. */
  lemma HeaderRoundTrip<H(!new)>(r: Reader, s: Schema<H>, h: H, empty: H, rest: seq<byte>)
    requires RoundTrips(s) && EmptyOnlyFor(s, empty) && Marshal(s, Some(h)).Ok?
    requires Remaining(r) == Frame(Marshal(s, Some(h)).value) + rest
    ensures var out := RecvProto(r, s, Some(empty));
            && out.err.None? && out.target == Some(h)
            && Remaining(out.r) == rest
  {
    var data := Marshal(s, Some(h)).value;
    FrameRoundTrip(r, s, h, Some(empty), rest);
    RestAfter(r, Frame(data), rest);
  }

  /** A body frame sent for `body` is read back into a target holding
      `m0`: the target becomes the message sent, or keeps `m0` when the
      body is empty on the wire. */
  lemma BodyRoundTrip<B(!new)>(r: Reader, s: Schema<B>, body: Option<B>, m0: B, rest: seq<byte>)
    requires RoundTrips(s) && Marshal(s, body).Ok?
    requires Remaining(r) == Frame(Marshal(s, body).value) + rest
    ensures var out := RecvProto(r, s, Some(m0));
            && out.err.None?
            && out.target == Some(if body.Some? && Marshal(s, body).value != [] then body.value else m0)
            && Remaining(out.r) == rest
  {
    var data := Marshal(s, body).value;
    if body.Some? {
      FrameRoundTrip(r, s, body.value, Some(m0), rest);
    } else {
      RecvFrame(r, s, data, Some(m0), rest);
    }
    RestAfter(r, Frame(data), rest);
  }

  /** The server reads a request header frame back as the call it
      announces. */
  lemma ServerReadsHeader<B>(sc: Server.ServerCodec, wire: Wire<B>, req: Request, req0: Request, rest: seq<byte>)
    requires RoundTrips(wire.requestHeader) && EmptyOnlyFor(wire.requestHeader, EmptyRequestHeader)
    requires sc.reqHeader == EmptyRequestHeader
    requires Marshal(wire.requestHeader, Some(Client.HeaderOf(req))).Ok?
    requires Remaining(sc.r) == Frame(Marshal(wire.requestHeader, Some(Client.HeaderOf(req))).value) + rest
    ensures var h := Server.ReadRequestHeader(sc, wire, req0);
            h.err.None? && h.req == req && Remaining(h.c.r) == rest
  {
    HeaderRoundTrip(sc.r, wire.requestHeader, Client.HeaderOf(req), EmptyRequestHeader, rest);
  }

  /** The server reads a request body frame back into its argument. */
  lemma ServerReadsBody<B(!new)>(c: Server.ServerCodec, wire: Wire<B>, body: Option<B>, m0: B, rest: seq<byte>)
    requires RoundTrips(wire.body) && Marshal(wire.body, body).Ok?
    requires Remaining(c.r) == Frame(Marshal(wire.body, body).value) + rest
    ensures var b := Server.ReadRequestBody(c, wire, Message(m0));
            && b.err.None? && Remaining(b.c.r) == rest && b.c.reqHeader == EmptyRequestHeader
            && b.body == Some(if body.Some? && Marshal(wire.body, body).value != [] then body.value else m0)
  {
    BodyRoundTrip(c.r, wire.body, body, m0, rest);
  }

  /** The client reads a response header frame back as the reply it
      announces. */
  lemma ClientReadsHeader<B>(cc: Client.ClientCodec, wire: Wire<B>, resp: Response, resp0: Response, rest: seq<byte>)
    requires RoundTrips(wire.responseHeader) && EmptyOnlyFor(wire.responseHeader, EmptyResponseHeader)
    requires cc.respHeader == EmptyResponseHeader
    requires Marshal(wire.responseHeader, Some(ResponseHeader(resp.seqNo, "", resp.error))).Ok?
    requires Remaining(cc.r) == Frame(Marshal(wire.responseHeader, Some(ResponseHeader(resp.seqNo, "", resp.error))).value) + rest
    ensures var h := Client.ReadResponseHeader(cc, wire, resp0);
            h.err.None? && h.resp == Response("", resp.seqNo, resp.error) && Remaining(h.c.r) == rest
  {
    HeaderRoundTrip(cc.r, wire.responseHeader, ResponseHeader(resp.seqNo, "", resp.error), EmptyResponseHeader, rest);
  }

  /** The client reads a response body frame back into its reply. */
  lemma ClientReadsBody<B(!new)>(c: Client.ClientCodec, wire: Wire<B>, body: Option<B>, m0: B, rest: seq<byte>)
    requires RoundTrips(wire.body) && Marshal(wire.body, body).Ok?
    requires Remaining(c.r) == Frame(Marshal(wire.body, body).value) + rest
    ensures var b := Client.ReadResponseBody(c, wire, Message(m0));
            && b.err.None? && Remaining(b.c.r) == rest && b.c.respHeader == EmptyResponseHeader
            && b.body == Some(if body.Some? && Marshal(wire.body, body).value != [] then body.value else m0)
  {
    BodyRoundTrip(c.r, wire.body, body, m0, rest);
  }

  /** What was appended after `a` is the two frames. */
  lemma Appended(a: seq<byte>, x: seq<byte>, y: seq<byte>, rest: seq<byte>)
    ensures (a + x + y)[|a|..] + rest == x + (y + rest)
  {
    assert (a + x + y)[|a|..] == x + y;
  }

  /** A request the client wrote is read by the server as the same call:
      ReadRequestHeader gives back its sequence number and method, and
      ReadRequestBody gives back its argument, after which the server stands
      at whatever followed. */
  lemma RequestDelivered<B(!new)>(cc: Client.ClientCodec, sc: Server.ServerCodec, wire: Wire<B>,
                                  req: Request, param: Arg<B>, req0: Request, m0: B, rest: seq<byte>)
    requires Faithful(wire)
    requires Client.WriteRequest(cc, wire, req, param).err.None?
    requires sc.reqHeader == EmptyRequestHeader
    requires Remaining(sc.r) == Client.WriteRequest(cc, wire, req, param).c.w.sent[|cc.w.sent|..] + rest
    ensures var h := Server.ReadRequestHeader(sc, wire, req0);
            var b := Server.ReadRequestBody(h.c, wire, Message(m0));
            && h.err.None? && h.req == req
            && b.err.None? && Remaining(b.c.r) == rest
            && b.body == Some(if param.Message? && Marshal(wire.body, Some(param.msg)).value != [] then param.msg else m0)
            && b.c.reqHeader == EmptyRequestHeader
  {
    var hb := Marshal(wire.requestHeader, Some(Client.HeaderOf(req))).value;
    var bb := Marshal(wire.body, MessageOf(param)).value;
    Appended(cc.w.sent, Frame(hb), Frame(bb), rest);
    ServerReadsHeader(sc, wire, req, req0, Frame(bb) + rest);
    ServerReadsBody(Server.ReadRequestHeader(sc, wire, req0).c, wire, MessageOf(param), m0, rest);
  }

  /** A response the server wrote is read by the client as the same reply:
      ReadResponseHeader gives back its sequence number and error string
      (and an empty method), and ReadResponseBody gives back the reply,
      which an error string or a nil or struct{} reply leaves as it was. */
  lemma ResponseDelivered<B(!new)>(sc: Server.ServerCodec, cc: Client.ClientCodec, wire: Wire<B>,
                                   resp: Response, x: Arg<B>, resp0: Response, m0: B, rest: seq<byte>)
    requires Faithful(wire)
    requires Server.WriteResponse(sc, wire, resp, x).err.None?
    requires cc.respHeader == EmptyResponseHeader
    requires Remaining(cc.r) == Server.WriteResponse(sc, wire, resp, x).c.w.sent[|sc.w.sent|..] + rest
    ensures var h := Client.ReadResponseHeader(cc, wire, resp0);
            var b := Client.ReadResponseBody(h.c, wire, Message(m0));
            && h.err.None? && h.resp == Response("", resp.seqNo, resp.error)
            && b.err.None? && Remaining(b.c.r) == rest
            && b.body == Some(if resp.error == "" && x.Message? && Marshal(wire.body, Some(x.msg)).value != []
                              then x.msg else m0)
            && b.c.respHeader == EmptyResponseHeader
  {
    var sent := if resp.error != "" then None else MessageOf(x);
    var hb := Marshal(wire.responseHeader, Some(ResponseHeader(resp.seqNo, "", resp.error))).value;
    var bb := Marshal(wire.body, sent).value;
    Appended(sc.w.sent, Frame(hb), Frame(bb), rest);
    ClientReadsHeader(cc, wire, resp, resp0, Frame(bb) + rest);
    ClientReadsBody(Client.ReadResponseHeader(cc, wire, resp0).c, wire, sent, m0, rest);
  }
}
