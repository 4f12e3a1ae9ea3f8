/**
 * Protocol-buffer messages as the codec sees them: opaque values of some
 * type with an encoder, an optional size-aware fast-path encoder, and a
 * decoder. The encoding itself belongs to the protobuf library and is not
 * modelled; what the codec relies on is stated as the hypothesis
 * `RoundTrips`, which lemmas take as a precondition.
 */
module Proto {
  import opened Base

  /** The result of proto.Unmarshal into a target. The target is reset
      first, so a rejected payload still leaves what was merged before the
      error was found. */
  datatype Decoded<M> = Parsed(msg: M) | Rejected(partial: M)

  /** The `marshalTo` interface: Size() and MarshalTo(buffer). `marshalTo`
      gives the bytes MarshalTo writes at the front of the buffer. */
  datatype SizedMarshaler<!M> = SizedMarshaler(size: M -> nat, marshalTo: M -> Result<Bytes, Error>)

  /** What one message type offers: proto.Marshal, the optional fast path,
      and proto.Unmarshal. */
  datatype Schema<!M> = Schema(
    marshal: M -> Result<Bytes, Error>,
    sized: Option<SizedMarshaler<M>>,
    unmarshal: seq<byte> -> Decoded<M>)

  /** An `interface{}` argument as net/rpc hands it to a codec, classified
      by its dynamic type. */
  datatype Arg<M> =
    | Nil                 // a nil interface
    | Message(msg: M)     // a value implementing proto.Message
    | EmptyStruct         // a value of type struct{}
    | Other               // a value of any other type

  /** The `marshal` helper of the codec. A nil message gives no bytes and
      no error. A message with the fast path has the buffer grown to Size()
      first, which panics when Size() is above the allocation limit; it is
      then written into that buffer and the written prefix is returned,
      writing more than Size() bytes being an out-of-range slice. Any other
      message goes to the generic encoder, whose output cannot exceed the
      allocation limit either. */
  function Marshal<M>(s: Schema<M>, m: Option<M>): (r: Result<Bytes, Error>)
    ensures r.Ok? ==> |r.value| <= MaxAlloc
    ensures m.None? ==> r == Ok([])
    ensures m.Some? && s.sized.None? ==>
              && (r.Ok? <==> s.marshal(m.value).Ok? && |s.marshal(m.value).value| <= MaxAlloc)
              && (r.Ok? || s.marshal(m.value).Err? ==> r == s.marshal(m.value))
    ensures m.Some? && s.sized.Some? ==>
              var f := s.sized.value;
              && (f.size(m.value) > MaxAlloc ==> r == Err(AllocTooLarge))
              && (r.Ok? <==> f.size(m.value) <= MaxAlloc && f.marshalTo(m.value).Ok?
                             && |f.marshalTo(m.value).value| <= f.size(m.value))
              && (r.Ok? ==> r == f.marshalTo(m.value))
  {
    match m
    case None => Ok([])
    case Some(msg) =>
      match s.sized
      case Some(f) =>
        var size := f.size(msg);
        if size > MaxAlloc then Err(AllocTooLarge)
        else
          var written := f.marshalTo(msg);
          if written.Err? then Err(written.error)
          else if |written.value| > size then Err(SliceBounds)
          else Ok(written.value)
      case None =>
        var encoded := s.marshal(msg);
        if encoded.Ok? && |encoded.value| > MaxAlloc then Err(AllocTooLarge) else encoded
  }

  /** Decoding what Marshal produced gives the message back, on whichever
      path Marshal took. */
  ghost predicate RoundTrips<M(!new)>(s: Schema<M>)
  {
    forall m :: Marshal(s, Some(m)).Ok? ==> s.unmarshal(Marshal(s, Some(m)).value) == Parsed(m)
  }

  /** Only the reset value encodes to no bytes (true of proto3 messages). */
  ghost predicate EmptyOnlyFor<M(!new)>(s: Schema<M>, zero: M)
  {
    forall m :: Marshal(s, Some(m)) == Ok([]) ==> m == zero
  }

  /** A message is an acceptable argument for proto.Message-only calls. */
  predicate IsProto<M>(x: Arg<M>)
  {
    x.Nil? || x.Message?
  }

  /** The message a proto.Message-typed argument carries (nil for Nil). */
  function MessageOf<M>(x: Arg<M>): (m: Option<M>)
    ensures x.Message? <==> m.Some?
    ensures m.Some? ==> m.value == x.msg
  {
    if x.Message? then Some(x.msg) else None
  }
}
