# swift-grpc wire core in Dafny

This project models the wire-level core of swift-grpc, a small gRPC client for Swift. It covers:

- **HTTP/2 frame codec and stream allocator** (`Sources/http2.swift`, module `Http2`).
  - `HttpFrame.bytes` writes the 9-byte header through `htonl` and shifts.
  - `HttpResponse.parse` reads a header.
  - `HttpResponse.process` splits one frame off a buffer.
  - `HttpFrame.read` loops `process`.
  - `settings` and `send(bytes:)` are the frame factories.
  - `HttpStream.new` hands out client stream ids.
  - The header layout is the one in section 4.1 of RFC 7540. The host is fixed as little-endian, so `htonl` is a 32-bit byte swap.
- **Current gRPC client** (`Sources/gRPC.swift`, module `GrpcSession`).
  - The header list and the Length-Prefixed-Message envelope that `GrpcSession.write` builds.
  - The callback table the session delegate updates on each received frame.
- **Legacy gRPC client** (`Sources/grpc.swift`, module `GrpcLegacy`).
  - The same shape, with a fixed header list and a one-byte envelope length.
  - Lemmas that compare it with the current client.
- **Status codes** (`Sources/Errors.swift`, module `Errors`): `ResponseError.init?(code:message:)`.

Module `SessionBoundary` reduces the external `SwiftHttp2` session to values:

- a received-frame record;
- the session's effects as an event log (`Connect`, `Register`, `SendHeaders`, `SendData`, `Deliver`, `Disconnect`);
- the delegate's result as an `Outcome`.

Callbacks are identified by `CallbackId`. Stream ids handed out by the session's allocator are parameters of `Write`. The session's `.streamClosed` flag value is a constant the client is built with.

Where Swift stops the program, the model does one of three things:

- On the decode path (force-unwrapped frame type, slice past the end of the buffer) it returns `Failure(Fault)`.
- In the delegates, a DATA payload shorter than its 5-byte prefix makes `payload[5..<count]` an invalid range. There `Handle` returns `None` and `HasFrame` reports `trapped` and changes nothing.
- On the encode path (`UInt8(n)` or `UInt32(n)` out of range, `UInt32` overflow in `new()`) it puts a `requires` on the caller.

The model follows the code in these places:

- `bytes` does not clear the reserved bit of the stream id.
- `new()` assigns `.none` through the dictionary's optional-valued setter, which removes the key, so the stream table stays empty (see Findings). It traps on 32-bit overflow instead of wrapping.
- `process` faults on a partial frame instead of keeping the bytes for a later read.
- The delegates compare the flags byte for equality with the stream-closed value instead of testing a bit.

## Model

| member | source | states |
|---|---|---|
| Http2.HtonlLengthBytes | Sources/http2.swift:97-100 | on a little-endian host the three bytes taken from `htonl(length) >> 8` are the low 24 bits of `length`, big-endian |
| Http2.HtonlStreamBytes | Sources/http2.swift:105-109 | on a little-endian host the four bytes taken from `htonl(streamId)` are `streamId`, big-endian |
| Http2.BigEndian24 | Sources/http2.swift:97-100 | the length digits have 3 bytes and read back as `length mod 2^24` |
| Http2.BigEndian32 | Sources/http2.swift:105-109 | the stream-id digits have 4 bytes and read back as the stream id |
| Http2.Code | Sources/http2.swift:14-24 | every frame type's raw code is below 10 |
| Http2.FrameTypeOf | Sources/http2.swift:214 | `HttpFrameType(rawValue:)` succeeds exactly on codes 0..9 and gives the type with that code |
| Http2.CodeRoundTrip | Sources/http2.swift:14-24 | the raw code of a frame type maps back to that type |
| Http2.EncodeHeader | Sources/http2.swift:94-111 | the header is always 9 bytes |
| Http2.Bytes | Sources/http2.swift:94-111 | `bytes` is 9 bytes: length mod 2^24 big-endian, type code, flags, stream id big-endian with the reserved bit as given; no payload |
| Http2.DecodeHeader | Sources/http2.swift:212-225 | `parse` succeeds iff at least 9 bytes are given and byte 3 is a type code; it then gives that type, flags = byte 4, length < 2^24, stream id < 2^31 and no payload; an unknown code is reported as such |
| Http2.Parse | Sources/http2.swift:212-225 | the shift-and-add decoding with `sid &= ~0x80000000` computes the header decoder's result, faults included |
| Http2.ShiftFits | Sources/http2.swift:216-222 | the `<<= 8` steps of `parse` lose no bits, since the accumulated value is below 2^24 before each shift |
| Http2.ClearTopBit | Sources/http2.swift:223 | clearing the top bit of a 32-bit word is taking it modulo 2^31, which clears bit 7 of its top byte |
| Http2.HeaderRoundTrip | Sources/http2.swift:94-111 | decoding an encoded header gives back type and flags, length mod 2^24 and the stream id without its reserved bit; a header with a 24-bit length and a 31-bit stream id comes back unchanged |
| Http2.HeaderReencode | Sources/http2.swift:212-225 | re-encoding a decoded header gives back the 9 input bytes, except that the reserved bit is cleared |
| Http2.DecodeHeaderReadsNine | Sources/http2.swift:212-225 | `parse` looks at the first 9 bytes only |
| Http2.DecodeSerialized | Sources/http2.swift:212-225 | the header of a well-formed frame on the wire decodes to that frame without its payload, whatever follows it |
| Http2.Process | Sources/http2.swift:227-236 | `process` succeeds iff the header decodes and `9 + length` bytes are present; the frame it returns is well formed and at least 9 bytes are consumed |
| Http2.ProcessSplits | Sources/http2.swift:227-236 | the payload is `b[9..9+length]` when length > 0 and absent otherwise; the remainder is `b[9+length..]`; header, payload and remainder concatenate back to `b` |
| Http2.ProcessFault | Sources/http2.swift:227-236 | a failing `process` reports the header's fault, or else a payload past the end of the buffer |
| Http2.ProcessSerialized | Sources/http2.swift:227-236 | a well-formed frame on the wire, followed by anything, is split off whole |
| Http2.ProcessPrefixFaults | Sources/http2.swift:227-236 | a strict non-empty prefix of a frame's wire form makes `process` fault |
| Http2.FramesOf | Sources/http2.swift:168-178 | every frame `read` yields is well formed, and each consumed at least 9 bytes |
| Http2.Read | Sources/http2.swift:168-178 | `read(nil)` is empty; otherwise the `while` loop yields the frames `process` splits off, in order, and stops at the first fault |
| Http2.ReadRoundTrip | Sources/http2.swift:168-178 | `read` over a concatenation of complete well-formed frames yields exactly those frames, in order |
| Http2.PartialFrameRejected | Sources/http2.swift:168-178 | a buffer that ends in a partial frame makes `read` fault, never yielding a truncated frame |
| Http2.SettingsFrame | Sources/http2.swift:140-142 | `settings` is a SETTINGS frame with length 0, no payload and the given flags and stream |
| Http2.SettingsRoundTrip | Sources/http2.swift:140-142 | a SETTINGS frame on a 31-bit stream reads back as itself |
| Http2.SendBytes | Sources/http2.swift:155-164 | `send(bytes:)` as written: a DATA frame whose payload is `[0,0,0,0,n] + bytes` while its length field is `n`, for n <= 255 |
| Http2.SendBytesMisframed | Sources/http2.swift:155-164 | the frame `send(bytes:)` builds does not read back: the reader meets a 5-byte fragment and faults |
| Http2.SendMessage | Sources/http2.swift:155-164 | corrected `send(bytes:)`: the same payload, with the length field counting all of it; well formed |
| Http2.SendMessageRoundTrip | Sources/http2.swift:155-164 | the corrected frame reads back as itself |
| Http2.LengthBytesOnHost | Sources/http2.swift:11-12 | on a little-endian host the length bytes are the big-endian digits of the length |
| Http2.StreamBytesOnHost | Sources/http2.swift:105-109 | on a little-endian host the stream-id bytes are the big-endian digits of the stream id |
| Http2.BigEndianHostDropsLowByte | Sources/http2.swift:97-109 | on a big-endian host length 1 is written as `[0,0,0]`, length 0x010203 as `[0x02,0x01,0x00]` instead of `[0x01,0x02,0x03]`, and stream id 1 as `[1,0,0,0]` instead of `[0,0,0,1]` |
| Http2.Assign | Sources/http2.swift:245 | the dictionary setter removes the key when given nil and stores the value otherwise, leaving every other entry unchanged |
| Http2.HttpStream.constructor | Sources/http2.swift:241-242 | an allocator starts with an empty table and counter 1 |
| Http2.HttpStream.New | Sources/http2.swift:244-249 | `new()` as written returns the old counter, which is odd; the table stays empty; the counter advances by 2; traps on 32-bit overflow; ids issued are 1, 3, 5, … |
| Http2.RecordingStream.constructor | Sources/http2.swift:241-242 | the corrected allocator starts with an empty table and counter 1 |
| Http2.RecordingStream.New | Sources/http2.swift:244-249 | the corrected `new()` returns the old counter, which is odd and not yet in the table; records it in state `none` and leaves every other entry unchanged; advances the counter by 2; the table holds exactly the ids issued |
| Http2.NoneAssignmentDropsStream | Sources/http2.swift:245 | assigning `.none` into an empty table leaves it empty, while storing the state `none` records stream 1 |
| Http2.IssuedIdsDistinct | Sources/http2.swift:239-250 | ids issued from 1 onward are odd and pairwise distinct |
| GrpcSession.RawValue | Sources/gRPC.swift:14-22 | every header field has a non-empty wire name |
| GrpcSession.RawValueInjective | Sources/gRPC.swift:14-22 | distinct header fields have distinct wire names, and exactly `:method`, `:scheme`, `:path` and `:authority` are pseudo-headers |
| GrpcSession.RequestHeaders | Sources/gRPC.swift:48-58 | the header list is method, scheme, path, authority, content type, te, then token when given (6 or 7 entries), with the defaults "http" and "localhost" and the token only when present |
| GrpcSession.RequestHeadersWellOrdered | Sources/gRPC.swift:48-60 | no header name repeats, and pseudo-headers come before all regular headers |
| GrpcSession.WireHeaders | Sources/gRPC.swift:60 | the `rawValue` map keeps the list's length and each value, naming each field by its wire name |
| GrpcSession.WireLookup | Sources/gRPC.swift:60 | looking a header up by wire name finds what the typed list holds |
| GrpcSession.Envelope | Sources/gRPC.swift:68-74 | the envelope is `|payload| + 5` bytes; its prefix reads as flag 0 and length `|payload| mod 2^24`, exactly `|payload|` below 2^24; dropping the prefix gives the payload back |
| GrpcSession.EnvelopeOf | Sources/gRPC.swift:74 | `[0,0]` plus a 3-byte big-endian length reads as a prefix with flag 0 and that length mod 2^24 (the length itself below 2^24), and dropping the prefix gives the payload back |
| GrpcSession.FullEnvelope | Sources/gRPC.swift:68-74 | corrected envelope with a 4-byte length: `|payload| + 5` bytes whose prefix reads as flag 0 and exactly `|payload|` for every length `write` accepts, and dropping the prefix gives the payload back |
| GrpcSession.EnvelopeTruncatesLength | Sources/gRPC.swift:68-74 | below 2^24 bytes the envelope as written equals the corrected one; a message of exactly 2^24 bytes declares length 0 |
| GrpcSession.Dispatch | Sources/gRPC.swift:85-122 | for a DATA payload of at least 5 bytes: stream 0 changes nothing; only the frame's own entry can be removed, and exactly when the flags equal the stream-closed value; other entries are unchanged; after a non-zero-stream frame it disconnects iff the table is empty; only a DATA frame with payload delivers, and what it delivers is `payload[5..<count]` (line 108), the payload after its prefix, to its own stream's callback and only if one is registered; the callback is called at most once, and anything after the first event is the disconnect |
| GrpcSession.Handle | Sources/gRPC.swift:104-109 | the delegate stops the program exactly on a DATA frame on a non-zero stream whose payload is shorter than 5 bytes; otherwise it acts as `Dispatch` states |
| GrpcSession.GrpcSession.constructor | Sources/gRPC.swift:32-40 | a new session has no callbacks and has done nothing |
| GrpcSession.GrpcSession.Write | Sources/gRPC.swift:42-77 | `write` connects, then registers the callback under the allocated stream (one more entry when the id is fresh), and only then sends the header list and then the envelope on that stream |
| GrpcSession.GrpcSession.HasFrame | Sources/gRPC.swift:85-122 | the delegate stops, changing nothing, exactly where `Handle` does; otherwise its new callback table and its effects are those `Dispatch` states |
| GrpcLegacy.RequestHeaders | Sources/grpc.swift:32-38 | exactly five headers, in the order `:method`, `:scheme`, `:path`, content type, `te`, with scheme "http", distinct names and pseudo-headers first; no `:authority` and no token |
| GrpcLegacy.Envelope | Sources/grpc.swift:42-44 | for payloads of at most 255 bytes the envelope is `|payload| + 5` bytes, its prefix reads as flag 0 and length `|payload|`, and dropping it gives the payload back |
| GrpcLegacy.EnvelopesAgree | Sources/grpc.swift:42-44 | on such payloads the legacy envelope equals the current client's |
| GrpcLegacy.Dispatch | Sources/grpc.swift:56-77 | for a DATA payload of at least 5 bytes, as the current delegate (delivering `payload[5..<count]`, line 64), except that a DATA frame without payload returns at once: no removal, no disconnect; at most one callback call, and anything after the first event is the disconnect |
| GrpcLegacy.Handle | Sources/grpc.swift:59-64 | the legacy delegate stops the program exactly on a DATA frame on a non-zero stream whose payload is shorter than 5 bytes; otherwise it acts as the legacy `Dispatch` states |
| GrpcLegacy.DispatchAgrees | Sources/grpc.swift:62-66 | the two delegates agree except on a DATA frame without payload on a live stream whose entry the current one removes, or that finds the table empty |
| GrpcLegacy.Grpc.constructor | Sources/grpc.swift:19-24 | a new client has no callbacks and has done nothing |
| GrpcLegacy.Grpc.Write | Sources/grpc.swift:26-48 | `write` connects, then adds the callback under the allocated stream (one more entry when the id is fresh), and only then sends the five headers and then the envelope; the message must fit the one-byte length |
| GrpcLegacy.Grpc.HasFrame | Sources/grpc.swift:56-77 | the delegate stops, changing nothing, exactly where the legacy `Handle` does; otherwise its new callback table and its effects are those the legacy `Dispatch` states |
| Errors.StatusCode | Sources/Errors.swift:29-48 | each case stands for a status code in 1..16 |
| Errors.FromCode | Sources/Errors.swift:29-48 | the initialiser succeeds iff 1 <= code <= 16, giving the case whose status code is `code`, carrying the message unchanged |
| Errors.StatusCodeInjective | Sources/Errors.swift:31-46 | code and message determine the error: distinct cases have distinct codes |
| Errors.FromStatusCode | Sources/Errors.swift:31-46 | every case is what the initialiser returns for its own code and message, so the map from 1..16 is onto |

## Left out

- Transport I/O is not modelled: `write(to:)`, `preface(task:)`, and the session's `connect`, `write` and `disconnect`. These appear only as events in a log. The preface string is kept as the constant `Http2.Preface`.
- HPACK header compression is not modelled: `send(headers:)`, `HttpRequest.set`, the header decoders, and the HEADERS branch of the current delegate. It belongs to an external library. Header lists are logged unencoded.
- Protobuf serialization is not modelled. A message is an arbitrary byte sequence.
- `windowUpdate` is not modelled: its payload comes from `Bytes.import32Bits`, which is not part of this model.
- These are not modelled because they are only formatting or unused:
  - the `description` and `flagsStr` strings;
  - the `HttpSettings` enum;
  - the `priority` flag value 20.
- Host byte-order detection is not modelled. The host is little-endian throughout, except in `Http2.LengthBytesOnHost` and `Http2.StreamBytesOnHost`.
- Callback closures and their asynchronous calls are not modelled. They become callback ids and `Deliver` events.
- The `throws` of `session.write` is not modelled. A write that throws would leave the callback registered without the frames sent.
- `Http2.HttpStream` is a Swift struct with a `mutating` method; it is modelled as a class, so copies of an allocator are not modelled.
- `GrpcSession.GrpcSession.Write` and `GrpcLegacy.Grpc.Write` take the id from the external session's `streams.next()` as a parameter. That allocator is not part of this model; `Http2.HttpStream` models the one in `Sources/http2.swift`.

## Findings

| source | as written | input that shows it | evidently intended | confidence | as-written member | corrected member |
|---|---|---|---|---|---|---|
| Sources/http2.swift:155-164 | `send(bytes:)` sets `length` to the message size but sends 5 more payload bytes | any message, e.g. the empty one: the header announces 0 bytes and 5 follow | `length` counts the whole payload, so the frame reads back as itself | high (not executed) | Http2.SendBytesMisframed | Http2.SendMessageRoundTrip |
| Sources/http2.swift:97-109 | `bytes` writes `htonl(length) >> 8` and `htonl(streamId)` least significant byte first, which is big-endian only when `htonl` swaps bytes | on a big-endian host, length 1 is written as `[0,0,0]`, length 0x010203 as `[0x02,0x01,0x00]`, and stream id 1 as `[1,0,0,0]` | the low 24 bits of `length` and the stream id, big-endian, on every host | high (not executed) | Http2.BigEndianHostDropsLowByte | Http2.BigEndian24 |
| Sources/http2.swift:244-245 | `streams[counter] = .none` on a `[UInt32: HttpStreamState]` resolves `.none` to the optional's nil, which removes the key | a fresh allocator's first `new()` returns 1 and leaves the table empty | the new stream is recorded in the state `HttpStreamState.none` | high (not executed) | Http2.NoneAssignmentDropsStream | Http2.RecordingStream.New |
| Sources/gRPC.swift:68-74 | the envelope is `[0,0]` plus 3 length bytes, so the declared length is the message size mod 2^24 | a message of 2^24 bytes declares length 0 | a 1-byte flag and a 4-byte big-endian length equal to the message size | high (not executed) | GrpcSession.EnvelopeTruncatesLength | GrpcSession.FullEnvelope |
