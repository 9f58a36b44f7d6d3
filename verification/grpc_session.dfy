/** The current gRPC client of Sources/gRPC.swift: `GrpcSession.write` builds the
    request headers and the enveloped message for a freshly allocated stream and
    registers the caller's callback under it; the session delegate routes each
    received frame to the callback of its stream. */
module GrpcSession {
  import opened Wrappers
  import opened Http2
  import opened SessionBoundary

  // ---------------------------------------------------------------------------
  // Request headers

  datatype HeaderField = Method | Scheme | Path | Authority | ContentType | Te | Token

  /** The header name on the wire (the enum's raw value). */
  function RawValue(h: HeaderField): (r: string)
    ensures |r| > 0
  {
    match h
    case Method => ":method"
    case Scheme => ":scheme"
    case Path => ":path"
    case Authority => ":authority"
    case ContentType => "content-type"
    case Te => "te"
    case Token => "token"
  }

  /** Distinct header fields have distinct names on the wire; exactly the first
      four are pseudo-headers. */
  lemma RawValueInjective(a: HeaderField, b: HeaderField)
    ensures RawValue(a) == RawValue(b) ==> a == b
    ensures IsPseudoName(RawValue(a)) <==> a in {Method, Scheme, Path, Authority}
  {
  }


  /** The URL parts the request reads; either may be absent. */
  datatype Url = Url(scheme: Option<string>, host: Option<string>)

  function Names(headers: seq<(HeaderField, string)>): seq<HeaderField>
  {
    seq(|headers|, i requires 0 <= i < |headers| => headers[i].0)
  }

  /** The header list `write` builds: the four pseudo-headers, then content type
      and `te`, then the token when there is one. */
  function RequestHeaders(url: Url, path: string, token: Option<string>)
    : (r: seq<(HeaderField, string)>)
    ensures Names(r) == [Method, Scheme, Path, Authority, ContentType, Te]
                          + (if token.Some? then [Token] else [])
    ensures |r| == if token.Some? then 7 else 6
    ensures Lookup(r, Method) == Some("POST")
    ensures Lookup(r, Scheme) == Some(url.scheme.GetOr("http"))
    ensures Lookup(r, Path) == Some(path)
    ensures Lookup(r, Authority) == Some(url.host.GetOr("localhost"))
    ensures Lookup(r, ContentType) == Some("application/grpc+proto")
    ensures Lookup(r, Te) == Some("trailers")
    ensures Lookup(r, Token) == token
  {
    var headers := [
      (Method, "POST"),
      (Scheme, url.scheme.GetOr("http")),
      (Path, path),
      (Authority, url.host.GetOr("localhost")),
      (ContentType, "application/grpc+proto"),
      (Te, "trailers")
    ];
    var r := if token.Some? then headers + [(Token, token.value)] else headers;
    LookupAt(r, Method, 0);
    LookupAt(r, Scheme, 1);
    LookupAt(r, Path, 2);
    LookupAt(r, Authority, 3);
    LookupAt(r, ContentType, 4);
    LookupAt(r, Te, 5);
    if token.Some? then LookupAt(r, Token, 6); r else LookupAbsent(r, Token); r
  }

  /** Every field occurs once, and the pseudo-headers come before all regular
      headers. */
  lemma RequestHeadersWellOrdered(url: Url, path: string, token: Option<string>)
    ensures var r := RequestHeaders(url, path, token);
            && (forall i, j | 0 <= i < j < |r| :: r[i].0 != r[j].0)
            && (forall i, j | 0 <= i < j < |r| ::
                  IsPseudoName(RawValue(r[j].0)) ==> IsPseudoName(RawValue(r[i].0)))
  {
  }


  /** `headers.map { ($0.0.rawValue, $0.1) }`: the list with names as strings. */
  function WireHeaders(headers: seq<(HeaderField, string)>): (r: seq<(string, string)>)
    ensures |r| == |headers|
    ensures forall i | 0 <= i < |r| :: r[i] == (RawValue(headers[i].0), headers[i].1)
  {
    if headers == [] then []
    else [(RawValue(headers[0].0), headers[0].1)] + WireHeaders(headers[1..])
  }

  /** Looking a header up by its wire name finds what the typed list holds. */
  lemma {:induction false} WireLookup(headers: seq<(HeaderField, string)>, h: HeaderField)
    ensures Lookup(WireHeaders(headers), RawValue(h)) == Lookup(headers, h)
  {
    if headers != [] {
      RawValueInjective(headers[0].0, h);
      WireLookup(headers[1..], h);
      assert WireHeaders(headers)[1..] == WireHeaders(headers[1..]);
    }
  }

  // ---------------------------------------------------------------------------
  // Message envelope

  /** `[0, 0] + length + payload`, where `length` is the three bytes of
      `htonl(UInt32(payload.count)) >> 8` from the least significant up.
      `UInt32(payload.count)` traps from 2^32 bytes on. */
  function Envelope(payload: seq<uint8>): (r: seq<uint8>)
    requires |payload| < 0x1_0000_0000
    ensures |r| == |payload| + 5
    ensures ReadPrefix(r) == Prefix(0, |payload| % LengthLimit)
    ensures |payload| < LengthLimit ==> ReadPrefix(r) == Prefix(0, |payload|)
    ensures Unframe(r) == payload
  {
    var length := LengthBytesOnHost(true, |payload|);
    assert length == BigEndian24(|payload|);
    EnvelopeOf(|payload|, payload);
    [0, 0] + length + payload
  }

  /** A zero byte and a 3-byte big-endian length read as a 5-byte prefix with flag 0
      and that length; the prefix is all `Unframe` drops. */
  lemma EnvelopeOf(n: nat, payload: seq<uint8>)
    ensures var r := [0, 0] + BigEndian24(n) + payload;
            && |r| == |payload| + 5
            && ReadPrefix(r) == Prefix(0, n % LengthLimit)
            && (n < LengthLimit ==> ReadPrefix(r) == Prefix(0, n))
            && Unframe(r) == payload
  {
    var r := [0, 0] + BigEndian24(n) + payload;
    if n < LengthLimit {
      DivModUnique(n, LengthLimit, 0, n);
    }
    assert r[1..5] == [0] + BigEndian24(n);
    FromBigEndianLeadingZero(BigEndian24(n));
    assert r[5..] == payload;
  }

  /** The envelope with the 4-byte length a gRPC Length-Prefixed-Message
      carries: every length `write` accepts is declared exactly. */
  function FullEnvelope(payload: seq<uint8>): (r: seq<uint8>)
    requires |payload| < 0x1_0000_0000
    ensures |r| == |payload| + 5
    ensures ReadPrefix(r) == Prefix(0, |payload|)
    ensures Unframe(r) == payload
  {
    var r := [0] + BigEndian32(|payload|) + payload;
    assert r[1..5] == BigEndian32(|payload|);
    assert r[5..] == payload;
    r
  }

  /** Below 2^24 bytes the envelope as written is the full one; a message of
      2^24 bytes declares length 0. */
  lemma EnvelopeTruncatesLength(payload: seq<uint8>)
    requires |payload| < 0x1_0000_0000
    ensures |payload| < LengthLimit ==> Envelope(payload) == FullEnvelope(payload)
    ensures |payload| == LengthLimit ==> ReadPrefix(Envelope(payload)) == Prefix(0, 0)
  {
    var a, b := Envelope(payload), FullEnvelope(payload);
    if |payload| < LengthLimit {
      assert a[..5] == b[..5] by {
        ToFromBigEndian(a[1..5]);
        ToFromBigEndian(b[1..5]);
      }
      assert a == a[..5] + payload && b == b[..5] + payload;
    }
  }

  // ---------------------------------------------------------------------------
  // Response dispatch

  /** The delegate's handling of one frame, as a value: frames on stream 0 are
      ignored; a DATA payload minus its prefix goes to its own stream's callback;
      the stream's entry is dropped when the flags equal the stream-closed value;
      an empty table disconnects. HEADERS payloads are only decoded and printed. */
  function Dispatch(callbacks: map<StreamId, CallbackId>, streamClosed: uint8,
                    frame: SessionFrame): (o: Outcome)
    requires DataSliceInRange(frame)
    ensures frame.stream == 0 ==> o == Outcome(callbacks, [])
    ensures forall s | s in o.callbacks :: s in callbacks && o.callbacks[s] == callbacks[s]
    ensures forall s | s in callbacks && s != frame.stream :: s in o.callbacks
    ensures frame.stream in callbacks ==>
              (frame.stream !in o.callbacks <==> frame.stream > 0 && frame.flags == streamClosed)
    ensures frame.stream > 0 ==> (Disconnect in o.events <==> |o.callbacks| == 0)
    ensures forall e | e in o.events && e.Deliver? ::
              && frame.stream > 0 && frame.ftype == Data && frame.payload.Some?
              && frame.stream in callbacks
              && e == Deliver(callbacks[frame.stream], Unframe(frame.payload.value))
    ensures frame.stream > 0 && frame.ftype == Data && frame.payload.Some?
              && frame.stream in callbacks ==>
              Deliver(callbacks[frame.stream], Unframe(frame.payload.value)) in o.events
    ensures forall e | e in o.events :: e.Deliver? || e.Disconnect?
    ensures |o.events| <= 2 && (|o.events| == 2 ==> o.events[0].Deliver?)
    ensures forall i | 0 < i < |o.events| :: o.events[i] == Disconnect
  {
    if frame.stream == 0 then Outcome(callbacks, [])
    else
      var delivered :=
        if frame.ftype == Data && frame.payload.Some? && frame.stream in callbacks
        then [Deliver(callbacks[frame.stream], Unframe(frame.payload.value))]
        else [];
      var remaining :=
        if frame.flags == streamClosed then callbacks - {frame.stream} else callbacks;
      Outcome(remaining, delivered + if |remaining| == 0 then [Disconnect] else [])
  }

  /** One received frame: the program stops (None) exactly on a DATA frame on a
      live stream whose payload is shorter than the 5-byte prefix; every other
      frame is dispatched. */
  function Handle(callbacks: map<StreamId, CallbackId>, streamClosed: uint8,
                  frame: SessionFrame): (r: Option<Outcome>)
    ensures r.None? <==>
              frame.stream > 0 && frame.ftype == Data && frame.payload.Some?
              && |frame.payload.value| < 5
    ensures r.Some? ==> DataSliceInRange(frame) && r.value == Dispatch(callbacks, streamClosed, frame)
    ensures frame.stream == 0 ==> r == Some(Outcome(callbacks, []))
  {
    if DataSliceInRange(frame) then Some(Dispatch(callbacks, streamClosed, frame)) else None
  }

  /** `GrpcSession`: the callback table, the external session's stream-closed
      flag value, and the log of what the session did. */
  class GrpcSession {
    const url: Url
    const streamClosed: uint8
    var callbacks: map<StreamId, CallbackId>
    var log: seq<Event>

    constructor (url: Url, streamClosed: uint8)
      ensures this.url == url && this.streamClosed == streamClosed
      ensures callbacks == map[] && log == []
    {
      this.url := url;
      this.streamClosed := streamClosed;
      callbacks := map[];
      log := [];
    }

    /** `write(path:message:token:callback:)`, with `message` already serialized
        and `stream` the id the session's allocator returned. The callback is in
        the table before either frame is written. */
    method Write(path: string, message: seq<uint8>, token: Option<string>,
                 callback: CallbackId, stream: StreamId)
      requires |message| < 0x1_0000_0000
      modifies this
      ensures callbacks == old(callbacks)[stream := callback]
      ensures stream !in old(callbacks) ==> |callbacks| == |old(callbacks)| + 1
      ensures log == old(log) + [Connect,
                                 Register(stream, callback),
                                 SendHeaders(stream, WireHeaders(RequestHeaders(url, path, token))),
                                 SendData(stream, Envelope(message))]
    {
      log := log + [Connect];
      callbacks := callbacks[stream := callback];
      log := log + [Register(stream, callback)];
      var headers := RequestHeaders(url, path, token);
      log := log + [SendHeaders(stream, WireHeaders(headers))];
      var out := Envelope(message);
      log := log + [SendData(stream, out)];
    }

    /** `session(session:hasFrame:)`. `trapped` says the program stopped on a DATA payload
        shorter than its prefix; nothing else happens then. */
    method HasFrame(frame: SessionFrame) returns (trapped: bool)
      modifies this
      ensures trapped <==> Handle(old(callbacks), streamClosed, frame).None?
      ensures trapped ==> callbacks == old(callbacks) && log == old(log)
      ensures !trapped ==>
                && callbacks == Dispatch(old(callbacks), streamClosed, frame).callbacks
                && log == old(log) + Dispatch(old(callbacks), streamClosed, frame).events
    {
      trapped := false;
      if frame.stream == 0 {
        return;
      }
      if !DataSliceInRange(frame) {
        trapped := true;
        return;
      }
      ghost var o := Dispatch(callbacks, streamClosed, frame);
      // A HEADERS payload is decoded by the external header codec and printed:
      // no effect here. Other frame types are ignored.
      var delivered: seq<Event> := [];
      if frame.ftype == Data && frame.payload.Some? {
        var bytes := frame.payload.value[5..];
        if frame.stream in callbacks {
          delivered := [Deliver(callbacks[frame.stream], bytes)];
        }
      }
      log := log + delivered;
      assert callbacks == old(callbacks);
      if frame.flags == streamClosed {
        callbacks := callbacks - {frame.stream};
      }
      if |callbacks| == 0 {
        log := log + [Disconnect];
      }
    }
  }
}
