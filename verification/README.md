# Protobuf RPC codec, ActionS configuration, rating conversions and EventCharges

A Dafny model of four sequential parts of the CGRateS charging system:

- **The Protobuf-RPC codec** behind `net/rpc`: the length-prefixed frames of
  `baseConn`, the client codec (`clientCodec`) and the server codec
  (`serverCodec`), and the `marshal` helper they share.
  - A frame is a uvarint length followed by the payload. The uvarint is the
    unsigned LEB128 encoding of Go's `encoding/binary` (as in section 7.6
    of the DWARF 4 standard).
  - The connection is a byte stream read through a bufio reader and written
    through a bufio writer. The writer's answers are a script of replies:
    a whole write, or a short write with a temporary or a fatal error.
  - Protobuf encoding is an abstract `Schema`. The codec's reliance on it is
    the hypothesis `Proto.RoundTrips`, taken as a precondition where needed.
- **The ActionS configuration** (`ActionSCfg`):
  - loading from its JSON form, with each `*internal` connection rewritten to
    a subsystem-qualified key;
  - `AsMapInterface`, which rewrites the key back to `*internal`;
  - `Clone`.
- **The wire ↔ engine conversions** of the rating records: the `New*` and
  `Convert` pairs, with `int` narrowed to `int32` and pointer fields read back
  through nil checks.
- **`EventCharges`** and its `Merge`, a left fold that sums two optional
  decimal totals.

Modules follow the program:

| module | what it holds |
|---|---|
| `Base` | bytes, Go integer widths, Option/Result, codec errors |
| `BufIO` | the bufio reader and writer |
| `Uvarint` | `PutUvarint` and `ReadUvarint` |
| `Proto` | message schemas and `marshal` |
| `Rpc` | the headers |
| `Conn` | `baseConn` |
| `Client`, `Server` | the two codecs |
| `Exchange` | a client and a server against each other |
| `ActionsCfg` | the ActionS configuration |
| `Engine`, `WireTypes` | the two record families |
| `Helpers` | the conversions |
| `EventCharges` | `EventCharges` and `Merge` |

Where the code and its description disagree, the model follows the code:

- `ReadRequestBody(nil)` does not read the body frame (see Findings).
- `RatingInfo.Convert` never sets `ActivationTime`, so neither does `CallDescriptor.Convert` (see Findings).
- `baseConn.write` retries a temporary error on a `bufio.Writer`, whose errors are sticky (see Findings).
- `baseConn.recvProto` allocates the announced payload length before reading it (see Findings).

Each function on the program's own path models the code as written. A corrected variant of it, under its own name, carries the property the code evidently meant to have.
- `WriteResponse` accepts `struct{}` and sends an empty body for it.

## Model

| member | source | states |
|---|---|---|
| Uvarint.PutUvarint | protobuf/conn.go:55 | the encoding is a terminated group sequence whose value is the length, with no trailing zero group |
| Uvarint.PutUvarintLength | protobuf/conn.go:37 | every length prefix takes 1 to 10 bytes, so it fits `frameBuf` |
| Uvarint.DecodePut | protobuf/conn.go:77 | decoding a prefix followed by anything gives back the length and the prefix's size |
| Uvarint.ReadUvarint | protobuf/conn.go:77-79 | the read succeeds exactly when the reference decoding does, and it consumes exactly the prefix; an empty stream gives EOF |
| Uvarint.ReadLoopDecodes | protobuf/conn.go:77-79 | each turn of the byte loop succeeds exactly when the reference scan from that group finds a prefix, and then returns its value and stops right after it |
| Uvarint.ReadPut | protobuf/conn.go:77 | reading a written prefix gives back the length and stops right after it |
| Uvarint.ReadUvarintIgnoresBuffer | protobuf/conn.go:77 | what the bufio reader already holds does not change the outcome or the bytes consumed |
| BufIO.ReadFull | protobuf/conn.go:96-99 | io.ReadFull succeeds exactly when enough bytes remain and returns exactly those; a short stream gives EOF or UnexpectedEOF |
| BufIO.WriteOnce | protobuf/conn.go:65 | one Write delivers a prefix of its data; an error consumes one reply of the script |
| BufIO.Flush | protobuf/client.go:67 | a successful flush marks everything written as flushed |
| Conn.Write | protobuf/conn.go:62-73 | what is delivered is a prefix of the data, and the whole data unless a fatal error stopped it; empty data writes nothing |
| Conn.WriteReplies | protobuf/conn.go:63-71 | the replies used are a prefix of the script; all but the last are temporary failures, and the last is the error returned |
| Conn.WriteLoop | protobuf/conn.go:62-73 | the loop with its offset computes `Write`, and without a fatal error delivers the data exactly once |
| Conn.WriteReliable | protobuf/conn.go:62-73 | with no failing replies the write succeeds |
| Conn.Stuck | protobuf/conn.go:34 | a `bufio.Writer` that has recorded an error answers every later call with nothing taken and the same error |
| Conn.StuckBurns | protobuf/conn.go:63-71 | against a stuck writer each turn of the loop uses up one reply and sends nothing |
| Conn.StickyWriterSpins | protobuf/conn.go:62-73 | as written, after a short write with a temporary error the loop makes any number of further calls without sending another byte |
| Conn.WriteStopping | protobuf/conn.go:62-73 | corrected: delivers a prefix of the data and the whole data when no error is returned; a call that takes nothing ends the loop |
| Conn.StickyWriterStops | protobuf/conn.go:62-73 | corrected: against a stuck writer the loop returns the temporary error after at most two calls, having sent what the first took |
| Conn.WriteStoppingAgrees | protobuf/conn.go:62-73 | with no reply that takes nothing and fails temporarily, the corrected loop is the loop as written |
| Conn.SendFrame | protobuf/conn.go:45-60 | on success exactly the frame is appended; an empty payload is the single byte 0; unless a fatal error occurred, the prefix went out before the payload |
| Conn.SendFrameReliable | protobuf/conn.go:45-60 | with no failing replies the whole frame is sent |
| Conn.GoInt | protobuf/conn.go:83 | `int(size)` is non-negative exactly for sizes below 2^63, and equal to the size there |
| Conn.Unmarshal | protobuf/conn.go:89 | a payload decodes into a set target as the schema parses it, and a rejected payload is Malformed; a nil target fails |
| Conn.ReadPayload | protobuf/conn.go:96-99 | io.ReadFull of the payload then Unmarshal: a short stream is the ReadFull error with the target untouched, otherwise the payload bytes are decoded |
| Conn.RecvPayload | protobuf/conn.go:80-100 | size 0 returns at once with the target untouched; a size at or above 2^63 is NegativeCount; a size above the allocation limit panics in `make`; otherwise a short stream fails and a present payload is decoded |
| Conn.RecvPayloadStreamed | protobuf/conn.go:95-99 | corrected: never panics; any short stream is the ReadFull error and a present payload is decoded, whatever the length |
| Conn.StreamedAgrees | protobuf/conn.go:95-99 | the corrected payload step differs from the one as written exactly for lengths above the allocation limit and below 2^63 |
| Conn.HugePrefixPanics | protobuf/conn.go:95-96 | as written, a stream holding only a length prefix above the allocation limit makes recvProto panic |
| Conn.HugePrefixStreamed | protobuf/conn.go:95-99 | corrected: on that stream the payload step reports io.EOF |
| Conn.RecvProto | protobuf/conn.go:75-101 | an undecodable prefix fails with the target untouched; a set target stays set; a non-empty stream always advances |
| Conn.RecvProtoSuccess | protobuf/conn.go:83-100 | on success exactly the prefix and `size` payload bytes are consumed, on both paths |
| Conn.RecvPathsAgree | protobuf/conn.go:83-100 | the buffered path and the allocating path give the same error, the same message and the same position |
| Conn.PayloadPathsAgree | protobuf/conn.go:83-100 | the payload step gives the same result whatever is buffered |
| Conn.BufferedRejectKeepsPayload | protobuf/conn.go:89-91 | when a buffered payload is rejected, Discard is skipped and only the prefix is consumed |
| Conn.ShortPayloadFails | protobuf/conn.go:83-99 | a stream ending inside the payload fails and leaves the target as it was: with EOF or UnexpectedEOF up to the allocation limit, a panic above it, NegativeCount from 2^63 |
| Conn.EmptyFrameLaw | protobuf/conn.go:80-82 | a zero-length frame succeeds, leaves the target untouched and consumes one byte |
| Conn.RecvFrame | protobuf/conn.go:75-101 | receiving a frame is unmarshalling its payload, after which the reader stands at what follows; a payload above the allocation limit panics |
| Conn.FrameRoundTrip | protobuf/conn.go:45-101 | a frame sent for a message's encoding is received as that message |
| Proto.Marshal | rpcbench/server.go:163-176 | nil gives no bytes and no error; the MarshalTo path panics when Size() is above the allocation limit, returns the written prefix, and fails when more than Size() was written; otherwise the generic encoder; no result exceeds the allocation limit |
| Proto.MessageOf | protobuf/client.go:56-62 | only a proto.Message argument carries a message |
| Client.NewClientCodec | protobuf/client.go:45-53 | a new codec stands at the start of the stream with nothing sent and reset headers |
| Client.HeaderOf | protobuf/client.go:107-111 | the request header carries `Seq` as Id and `ServiceMethod` as Method |
| Client.SendRequest | protobuf/client.go:99-125 | body marshalled first, then header; a header marshal error writes nothing; what is written is a prefix of the two frames; a failed header send returns its error with no byte of the body written; on success exactly the header frame then the body frame are appended; nothing is flushed or read |
| Client.WriteRequest | protobuf/client.go:55-68 | a non-proto parameter is refused before writing; success means both frames sent and flushed; a nil parameter sends the empty frame `[0]` |
| Client.WriteRequestReliable | protobuf/client.go:55-68 | on a reliable connection a request whose parts encode is written and flushed |
| Client.ReadResponseHeader | protobuf/client.go:70-79 | on success Id, Method and Error are copied into the response; on failure the response is untouched |
| Client.EmptyHeaderKeepsPrevious | protobuf/client.go:70-79 | an empty header frame is not decoded, so the response is filled from the work space as it was |
| Client.ReadResponseBody | protobuf/client.go:81-97 | a non-proto target is refused without reading; otherwise one frame is read, even for nil; the header is reset only on success |
| Server.NewServerCodec | rpcbench/server.go:46-54 | a new codec stands at the start of the stream with nothing sent and reset headers |
| Server.ReadRequestHeader | rpcbench/server.go:56-64 | on success Id and Method are copied into the request; on failure the request is untouched |
| Server.ReadRequestBody | rpcbench/server.go:66-82 | nil returns at once without reading; a non-proto argument is refused; otherwise one frame is read and the header reset only on success |
| Server.SkippedBodyReadAsHeader | rpcbench/server.go:67-69 | after a nil body read, the next header read decodes the body frame as a header, or panics allocating it when it is above the allocation limit |
| Server.ReadRequestBodyDiscarding | rpcbench/server.go:66-82 | as ReadRequestBody, except that nil reads past exactly one frame |
| Server.DiscardedBodyIsSkipped | rpcbench/server.go:67-69 | with the body discarded, the stream stands right after the body frame |
| Server.SkipFrame | rpcbench/server.go:67-69 | skipping succeeds exactly when a prefix decodes and its payload is present, and then moves past both |
| Server.SendResponse | rpcbench/server.go:101-140 | an error string sends an empty body; the header has Id and Error and an empty Method; a header marshal error writes nothing; what is written is a prefix of the two frames; a failed header send returns its error with no byte of the body written; on success header frame then body frame; nothing flushed |
| Server.WriteResponse | rpcbench/server.go:84-99 | any type other than nil, proto.Message or struct{} is refused before writing; nil and struct{} send the empty body; flushed only on success |
| Server.WriteResponseReliable | rpcbench/server.go:84-99 | on a reliable connection a response whose parts encode is written and flushed |
| Exchange.HeaderRoundTrip | protobuf/conn.go:45-101 | a header frame is read back as the header sent |
| Exchange.BodyRoundTrip | protobuf/conn.go:45-101 | a body frame is read back as the message sent, or keeps the target when the body is empty on the wire |
| Exchange.ServerReadsHeader | rpcbench/server.go:56-64 | the server reads a request header frame as the call announced |
| Exchange.ServerReadsBody | rpcbench/server.go:66-82 | the server reads a request body frame as the argument sent |
| Exchange.ClientReadsHeader | protobuf/client.go:70-79 | the client reads a response header frame as the reply announced |
| Exchange.ClientReadsBody | protobuf/client.go:81-97 | the client reads a response body frame as the reply sent |
| Exchange.RequestDelivered | protobuf/client.go:99-125 | what WriteRequest sends, the server reads back as the same method, sequence number and argument |
| Exchange.ResponseDelivered | rpcbench/server.go:101-140 | what WriteResponse sends, the client reads back as the same sequence number, error and reply; an error string leaves the reply as it was |
| ActionsCfg.ConcatenatedKey | config/actionscfg.go:49 | the key is the two parts joined by `:` |
| ActionsCfg.InternalKey | config/actionscfg.go:49 | the qualified key is never `*internal` itself |
| ActionsCfg.InternalKeyInjective | config/actionscfg.go:43-92 | the five subsystems get five different qualified keys |
| ActionsCfg.QualifyId | config/actionscfg.go:47-50 | `*internal` is rewritten and every other ID is kept |
| ActionsCfg.UnqualifyId | config/actionscfg.go:142-146 | the subsystem's qualified key is rewritten and every other ID is kept |
| ActionsCfg.IdRoundTrips | config/actionscfg.go:43-189 | an ID survives load then export iff it is not the qualified key; export then load iff it is not `*internal` |
| ActionsCfg.Qualify | config/actionscfg.go:43-92 | same length and order, each entry rewritten by QualifyId, and no `*internal` left |
| ActionsCfg.Unqualify | config/actionscfg.go:140-189 | same length and order, each entry rewritten by UnqualifyId, and no qualified key left |
| ActionsCfg.UnqualifyQualify | config/actionscfg.go:140-189 | exporting a loaded list gives it back iff it held no qualified key |
| ActionsCfg.QualifyUnqualify | config/actionscfg.go:43-92 | loading an exported list gives it back iff it held no `*internal` |
| ActionsCfg.QualifyIdempotent | config/actionscfg.go:43-92 | loading a list twice is loading it once |
| ActionsCfg.LoadFromJson | config/actionscfg.go:39-131 | nil JSON changes nothing; absent fields keep their values; conns lists are rewritten elementwise with the same length; other lists and flags are copied |
| ActionsCfg.LoadIdempotent | config/actionscfg.go:39-131 | loading the same JSON twice is loading it once |
| ActionsCfg.KeyFromName | config/actionscfg.go:135-217 | a name read back as a key is that key's name |
| ActionsCfg.KeyNameRoundTrip | config/actionscfg.go:135-217 | every key's name reads back as the key |
| ActionsCfg.KeyNamesDistinct | config/actionscfg.go:135-217 | two keys have the same name iff they are the same key |
| ActionsCfg.AsMapInterface | config/actionscfg.go:134-219 | the three flags are always present; a list key is present iff its field is non-nil; conns entries are unqualified elementwise; other lists are copied |
| ActionsCfg.ExportAfterLoad | config/actionscfg.go:140-189 | exporting after loading gives back the JSON list when it held no qualified key |
| ActionsCfg.ExportAfterLoadRewrites | config/actionscfg.go:140-189 | a JSON list that holds the qualified key is exported changed |
| ActionsCfg.ExportAsJson | config/actionscfg.go:134-219 | the exported map read as JSON: all flags set, the plain lists unchanged |
| ActionsCfg.ExportedConns | config/actionscfg.go:140-189 | an exported conns list is present iff the field is, and is its unqualified form |
| ActionsCfg.ConnsAfterExport | config/actionscfg.go:43-92 | loading an exported conns list restores the field exactly when it held no literal `*internal` |
| ActionsCfg.ListAfterExport | config/actionscfg.go:96-126 | loading an exported plain list restores it exactly |
| ActionsCfg.LoadAfterExport | config/actionscfg.go:39-219 | loading the export gives the configuration back iff no conns list holds a literal `*internal` and the base's nil fields match |
| ActionsCfg.Clone | config/actionscfg.go:222-287 | the clone equals the original field for field, nil-ness included |
| ActionsCfg.CopyList | config/actionscfg.go:258-264 | a copied optional list is nil iff the original is, with the same items |
| Helpers.MapSeq | rpcbench/helpers.go:194-199 | the `for i, v := range` copy gives the same length with each element mapped |
| Helpers.MapRoundTrip | rpcbench/helpers.go:194-199 | a mapped list comes back iff every element does |
| Helpers.MapRoundTripWhen | rpcbench/helpers.go:194-199 | a mapped list comes back iff every element meets the element's round-trip condition |
| Helpers.Int32Of | rpcbench/helpers.go:94 | `int32(x)` agrees with x modulo 2^32 and is x when x fits |
| Helpers.IntOf | rpcbench/helpers.go:109 | widening an int32 keeps it in int32 range |
| Helpers.NarrowingRoundTrip | rpcbench/helpers.go:288-296 | narrowing then widening gives x back iff x fits an int32; widening then narrowing always does |
| Helpers.Deref | rpcbench/helpers.go:340-348 | a set pointer gives its value and nil gives the zero value |
| Helpers.BalanceSummaryRoundTrip | rpcbench/helpers.go:10-27 | both directions give the record back |
| Helpers.NewAccountSummary | rpcbench/helpers.go:29-41 | the wire summary always has a (possibly empty) balance list |
| Helpers.ConvertAccountSummary | rpcbench/helpers.go:43-60 | a nil summary converts to nil and a set one to a set one |
| Helpers.AccountSummaryRoundTrip | rpcbench/helpers.go:29-60 | tenant, ID, flags and balances in order are kept; the summary comes back iff its balance list is non-nil |
| Helpers.RateRoundTrip | rpcbench/helpers.go:62-88 | the engine rate always comes back; the wire rate comes back iff its three pointers are set |
| Helpers.RIRateRoundTrip | rpcbench/helpers.go:90-118 | the rates keep their count; the record comes back iff RoundingDecimals fits an int32 |
| Helpers.IntsRoundTrip | rpcbench/helpers.go:120-166 | a narrowed list keeps its length and comes back iff every value fits |
| Helpers.RITimingRoundTrip | rpcbench/helpers.go:120-166 | the four lists keep their lengths; the timing comes back iff every value fits |
| Helpers.RateIntervalRoundTrip | rpcbench/helpers.go:168-182 | a rate interval comes back iff its timing and rating fit |
| Helpers.RateIntervalsRoundTrip | rpcbench/helpers.go:194-196 | a list of rate intervals comes back iff every one fits |
| Helpers.ConvertRatingInfoAsWritten | rpcbench/helpers.go:203-223 | as written, the converted activation time is always the zero time |
| Helpers.RatingInfoRoundTripAsWritten | rpcbench/helpers.go:203-223 | as written, a rating info comes back iff its intervals fit and its activation time is the zero time |
| Helpers.ConvertRatingInfo | rpcbench/helpers.go:203-223 | corrected: a set activation time is read through its pointer, and nil gives the zero time |
| Helpers.ConvertRatingInfoAgrees | rpcbench/helpers.go:213-215 | the two readings agree iff the message carries no activation time other than the zero time |
| Helpers.RatingInfoRoundTrip | rpcbench/helpers.go:184-223 | strings, fallback keys, activation time and interval count are kept; the record comes back iff its intervals fit |
| Helpers.DebitInfoRoundTrip | rpcbench/helpers.go:225-281 | unit, monetary and debit infos come back iff their rate intervals fit |
| Helpers.IncrementRoundTrip | rpcbench/helpers.go:283-302 | the duration always comes back; the increment comes back iff CompressFactor and its debit info fit |
| Helpers.IncrementsRoundTrip | rpcbench/helpers.go:319-321 | a list of increments comes back iff every one fits |
| Helpers.TimeSpanParts | rpcbench/helpers.go:304-353 | only the converted parts of a time span can change in a round trip |
| Helpers.TimeSpanRoundTrip | rpcbench/helpers.go:304-353 | TimeStart, TimeEnd, DurationIndex and the increment count are kept; the span comes back iff everything narrowed fits |
| Helpers.TimeSpanPointersRoundTrip | rpcbench/helpers.go:340-348 | a wire span's pointer fields come back iff they were set |
| Helpers.TimeSpansRoundTrip | rpcbench/helpers.go:368-370 | a list of time spans comes back iff every one fits |
| Helpers.CallCostRoundTrip | rpcbench/helpers.go:355-391 | a call cost comes back iff its spans fit and its account summary has a non-nil balance list |
| Helpers.RatingInfosRoundTrip | rpcbench/helpers.go:466-468 | as written, a list of rating infos comes back iff every one fits and carries the zero activation time |
| Helpers.CallDescriptorParts | rpcbench/helpers.go:393-473 | only the two converted lists of a call descriptor can change in a round trip, the rating infos going through `RatingInfo.Convert` as written |
| Helpers.CallDescriptorRoundTrip | rpcbench/helpers.go:393-473 | times, DurationIndex, MaxRateUnit and the list lengths are kept; the descriptor comes back iff everything narrowed fits and every rating info carries the zero activation time |
| Helpers.RatingInfosRoundTripCorrected | rpcbench/helpers.go:466-468 | corrected: a list of rating infos comes back iff every one fits |
| Helpers.CallDescriptorRoundTripCorrected | rpcbench/helpers.go:393-473 | corrected: the list lengths are kept, and the descriptor comes back iff everything narrowed fits, whatever its activation times |
| EventCharges.NewEventCharges | utils/eventcharges.go:26-29 | every field is nil |
| EventCharges.MergeTotal | utils/eventcharges.go:46-50 | a nil total takes the argument's; a set total is summed with the argument's, which must be set |
| EventCharges.FoldTotalLaw | utils/eventcharges.go:44-58 | one total folds without a nil dereference iff no set total meets an unset one; the result is the sum of the set totals, nil if none |
| EventCharges.MergeOne | utils/eventcharges.go:45-56 | a nil argument panics; the four other fields are never changed |
| EventCharges.Merge | utils/eventcharges.go:44-58 | no arguments leave the receiver unchanged |
| EventCharges.MergeAppend | utils/eventcharges.go:44-58 | merging a + b is merging a, then b |
| EventCharges.MergeIsFold | utils/eventcharges.go:44-58 | merging a list is a left fold of single merges |
| EventCharges.MergeSplits | utils/eventcharges.go:44-58 | Abstracts and Concretes fold independently; Merge fails iff an argument is nil or either fold fails |
| EventCharges.MergeLaw | utils/eventcharges.go:44-58 | success iff no argument is nil and both totals are summable; each total is then the sum of its set values, and the other four fields are the receiver's |
| EventCharges.MergeIntoNew | utils/eventcharges.go:26-58 | merging into a new EventCharges yields the sums of the arguments' totals when the unset ones come first |
| EventCharges.MergeInPlace | utils/eventcharges.go:44-58 | the loop over the arguments computes Merge |

## Left out

- **Close and sockets.** `Close` only closes the socket (protobuf/conn.go:41-43). Sockets are a byte stream plus a script of write replies.
- **bufio internals.**
  - The reader refills up to 4096 bytes at a time, but the model never relies on how much it holds: every result is proved for any buffered amount.
  - The writer's buffering is folded into the reply script, and the script decides each reply. The sticky error of a `bufio.Writer` is the script `Conn.Stuck` after a failure; `Conn.StickyWriterSpins` shows what the write loop does with it (see Findings).
- **Panics.** A Go panic ends the call with one of two outcomes, `SliceBounds` and `AllocTooLarge`, reported where an error would go. Go unwinds the goroutine instead, and without a recover the process ends.
- **Proto.Marshal: slice bounds.** `b[:n]` with `n` above `Size()` panics only when `n` is also above the buffer's capacity; the model reports `SliceBounds` for every `n` above `Size()`. A buffer that would double past the allocation limit after an earlier message above 2^47 bytes is not modelled.
- **Conn.RecvPayload: memory.** An allocation below the limit that the machine cannot satisfy is a fatal error in Go. The model assumes memory up to the limit is always available.
- **Protobuf.**
  - `proto.Marshal` and `proto.Unmarshal` are abstract functions of a `Schema`, so their encoding is not modelled.
  - One body message type per connection.
  - Unmarshal into a nil target is a panic in the library. It is modelled as the error `NilTarget`.
- **net/rpc glue.** `ServeConn` and `NewClient` (rpcbench/server.go:154-156, protobuf/client.go:138-140) only hand a codec to `net/rpc`. Its call loop is not modelled.
- **Files not modelled.**
  - rpcbench/server_model.go is not part of this model (listener and forwarding of `GetCost`).
  - protobuf/helpers.go is not part of this model. It is a duplicate of rpcbench/helpers.go that does not compile.
  - Tests and benchmarks are not modelled.
- **Concurrency.** `net/rpc` serialises calls into a codec, and every call is modelled as a sequential step.
- **ReadUvarint.** It follows the current Go standard library: at most 10 bytes are read, and an end of stream after the first byte is `io.ErrUnexpectedEOF`.
- **Error texts.** The errors of `WriteRequest`, `ReadResponseBody`, `ReadRequestBody` and `WriteResponse` for non-proto values are one constructor, `NotProtoMessage`, without the formatted type name.
- **ActionsCfg.LoadFromJson: the error result.** `loadFromJSONCfg` returns `error` but never sets it, so the model returns only the configuration.
- **ActionsCfg.AsMapInterface: the key type.** The map is keyed by a datatype; `KeyName` gives the string each key stands for.
- **The utils constants.** `*internal`, `*cdrs`, `*ees`, `*thresholds`, `*stats`, `*accounts`, the `:` separator of `ConcatenatedKey` and the map key strings come from utils/consts.go. That file is not part of this model; the values are written out in `ActionsCfg`.
- **Helpers.**
  - Nested record pointers (e.g. `RateInterval.Timing`) are taken to be non-nil; Go would panic on a nil one. Only `AccountSummary` carries a modelled nil receiver.
  - A nil slice and an empty slice are told apart only for `AccountSummary.BalanceSummaries`, the one place the code checks for nil.
  - `time.Time` is a value that is only copied; its location and monotonic reading are not modelled.
  - float64 fields are bit patterns that are only copied.
  - `time.Month` and `time.Weekday` are `int` values.
- **Helpers.NewCallCost** requires a non-nil `AccountSummary`: `NewAccountSummary` dereferences it, so a nil one is a panic in Go.
- **EventCharges: AsExtEventCharges** (utils/eventcharges.go:61-79) converts to float64 and is not modelled.
- **EventCharges: decimals.** `Decimal` is an exact real number, so `SumBig`'s precision and rounding context are not modelled.
- **EventCharges.Merge: panics.** A nil argument, or a nil total after the receiver's is set, ends the call with `NilDereference`. The partial update Go has made to the receiver before panicking is not modelled, since only a recover could observe it.

## Findings

| source | as written | input that shows it | evidently intended | confidence | as-written member | corrected member |
|---|---|---|---|---|---|---|
| rpcbench/server.go:67-69 | `ReadRequestBody(nil)` returns without reading, so the request's body frame stays in the stream | a request for a method the server does not know: net/rpc calls `ReadRequestBody(nil)` to discard its body, and the next `ReadRequestHeader` decodes the body frame as a header | a nil argument reads the body frame and discards it | medium, not executed | Server.SkippedBodyReadAsHeader | Server.DiscardedBodyIsSkipped |
| rpcbench/helpers.go:213-215 | the nil check on `ActivationTime` assigns `r.ActivationTime` to itself, so the engine record never gets it | any `RatingInfo` whose `ActivationTime` is not the zero time: its round trip returns the zero time | `rt.ActivationTime = *r.ActivationTime`, as `Convert` does for every other pointer field | medium, not executed | Helpers.RatingInfoRoundTripAsWritten | Helpers.RatingInfoRoundTrip |
| rpcbench/helpers.go:466-468 | `CallDescriptor.Convert` converts its rating infos with the `RatingInfo.Convert` above | a fitting `CallDescriptor` whose first rating info has an `ActivationTime` that is not the zero time: its round trip differs | every rating info keeps its activation time | medium, not executed | Helpers.CallDescriptorRoundTrip | Helpers.CallDescriptorRoundTripCorrected |
| protobuf/conn.go:62-73 | a temporary error is retried on `c.w`, a `bufio.Writer`, which keeps returning that error with nothing taken once it has one | a write deadline expiring in the middle of a frame: the net error reports `Temporary()`, and every later `Write` returns 0 bytes and the same error | the write returns the error once retrying makes no progress | medium, not executed | Conn.StickyWriterSpins | Conn.StickyWriterStops |
| protobuf/conn.go:95-96 | `make([]byte, size)` allocates the length the peer announced before any payload byte is read | the 9 bytes of the uvarint 2^60 alone: `make` panics (`len out of range`) and takes the process down | a length the peer does not deliver is a short read, `io.EOF` or `io.ErrUnexpectedEOF` | medium, not executed | Conn.HugePrefixPanics | Conn.HugePrefixStreamed |
