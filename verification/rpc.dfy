/**
 * The values net/rpc exchanges with a codec, and the two protobuf headers
 * that travel in front of every request and response body.
 */
module Rpc {
  import opened Base
  import opened Proto

  /** net/rpc.Request as a codec sees it. */
  datatype Request = Request(serviceMethod: string, seqNo: uint64)

  /** net/rpc.Response as a codec sees it; an empty `error` means success. */
  datatype Response = Response(serviceMethod: string, seqNo: uint64, error: string)

  /** The protobuf header of a request frame pair. */
  datatype RequestHeader = RequestHeader(id: uint64, methodName: string)

  /** The protobuf header of a response frame pair. */
  datatype ResponseHeader = ResponseHeader(id: uint64, methodName: string, error: string)

  /** What Reset() leaves in a request header. */
  const EmptyRequestHeader := RequestHeader(0, "")

  /** What Reset() leaves in a response header. */
  const EmptyResponseHeader := ResponseHeader(0, "", "")

  /** The encoders and decoders of one service: the two headers and the
      bodies. All bodies of a connection are taken to share one message
      type. */
  datatype Wire<!B> = Wire(
    requestHeader: Schema<RequestHeader>,
    responseHeader: Schema<ResponseHeader>,
    body: Schema<B>)

  /** Every encoding on the wire decodes back, and a header encodes to no
      bytes only when it is the reset one (as proto3 encodes it). */
  ghost predicate Faithful<B(!new)>(wire: Wire<B>)
  {
    && RoundTrips(wire.requestHeader)
    && RoundTrips(wire.responseHeader)
    && RoundTrips(wire.body)
    && EmptyOnlyFor(wire.requestHeader, EmptyRequestHeader)
    && EmptyOnlyFor(wire.responseHeader, EmptyResponseHeader)
  }
}
