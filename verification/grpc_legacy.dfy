/** The legacy gRPC client of Sources/grpc.swift: `GRPC.write` sends a fixed
    header list without `:authority` or a token, and a message behind a prefix
    whose length is a single byte; its delegate returns early on a DATA frame
    without payload. */
module GrpcLegacy {
  import opened Wrappers
  import opened Http2
  import opened SessionBoundary
  import GrpcSession

  /** The header list `write` builds: three pseudo-headers, content type and `te`. */
  function RequestHeaders(path: string): (r: seq<(string, string)>)
    ensures |r| == 5
    ensures seq(|r|, i requires 0 <= i < |r| => r[i].0)
              == [":method", ":scheme", ":path", "content-type", "te"]
    ensures Lookup(r, ":method") == Some("POST")
    ensures Lookup(r, ":scheme") == Some("http")
    ensures Lookup(r, ":path") == Some(path)
    ensures Lookup(r, "content-type") == Some("application/grpc+proto")
    ensures Lookup(r, "te") == Some("trailers")
    ensures Lookup(r, ":authority") == None
    ensures Lookup(r, "token") == None
    ensures forall i, j | 0 <= i < j < |r| :: r[i].0 != r[j].0
    ensures forall i | 0 <= i < |r| :: IsPseudoName(r[i].0) <==> i < 3
  {
    var r := [
      (":method", "POST"),
      (":scheme", "http"),
      (":path", path),
      ("content-type", "application/grpc+proto"),
      ("te", "trailers")
    ];
    LookupAt(r, ":method", 0);
    LookupAt(r, ":scheme", 1);
    LookupAt(r, ":path", 2);
    LookupAt(r, "content-type", 3);
    LookupAt(r, "te", 4);
    assert forall j | 0 <= j < |r| :: r[j].0[0] != 't' || r[j].0 == "te";
    LookupAbsent(r, ":authority");
    LookupAbsent(r, "token");
    r
  }

  /** `[0, 0, 0, 0, UInt8(payload.count)] + payload`; the conversion traps above 255. */
  function Envelope(payload: seq<uint8>): (r: seq<uint8>)
    requires |payload| <= 0xFF
    ensures |r| == |payload| + 5
    ensures ReadPrefix(r) == Prefix(0, |payload|)
    ensures Unframe(r) == payload
  {
    var r := [0, 0, 0, 0, |payload| as uint8] + payload;
    FromBigEndianDigits(r[1..5]);
    assert r[5..] == payload;
    r
  }

  /** The delegate's handling of one frame, as a value. As in the current client,
      except that a DATA frame without payload returns before the stream-closed and
      empty-table checks. */
  function Dispatch(callbacks: map<StreamId, CallbackId>, streamClosed: uint8,
                    frame: SessionFrame): (o: Outcome)
    requires DataSliceInRange(frame)
    ensures frame.stream == 0 ==> o == Outcome(callbacks, [])
    ensures frame.ftype == Data && frame.payload.None? ==> o == Outcome(callbacks, [])
    ensures forall s | s in o.callbacks :: s in callbacks && o.callbacks[s] == callbacks[s]
    ensures forall s | s in callbacks && s != frame.stream :: s in o.callbacks
    ensures frame.stream in callbacks ==>
              (frame.stream !in o.callbacks <==>
                 && frame.stream > 0 && frame.flags == streamClosed
                 && (frame.ftype == Data ==> frame.payload.Some?))
    ensures frame.stream > 0 && (frame.ftype == Data ==> frame.payload.Some?) ==>
              (Disconnect in o.events <==> |o.callbacks| == 0)
    ensures forall e | e in o.events && e.Deliver? ::
              && frame.stream > 0 && frame.ftype == Data && frame.payload.Some?
              && frame.stream in callbacks
              && e == Deliver(callbacks[frame.stream], Unframe(frame.payload.value))
    ensures frame.stream > 0 && frame.ftype == Data && frame.payload.Some?
              && frame.stream in callbacks ==>
              Deliver(callbacks[frame.stream], Unframe(frame.payload.value)) in o.events
    ensures forall e | e in o.events :: e.Deliver? || e.Disconnect?
    ensures |o.events| <= 2 && (|o.events| == 2 ==> o.events[0].Deliver?)
    ensures forall i | 0 < i < |o.events| :: o.events[i] == Disconnect
  {
    if frame.stream == 0 then Outcome(callbacks, [])
    else if frame.ftype == Data && frame.payload.None? then Outcome(callbacks, [])
    else
      var delivered :=
        if frame.ftype == Data && frame.stream in callbacks
        then [Deliver(callbacks[frame.stream], Unframe(frame.payload.value))]
        else [];
      var remaining :=
        if frame.flags == streamClosed then callbacks - {frame.stream} else callbacks;
      Outcome(remaining, delivered + if |remaining| == 0 then [Disconnect] else [])
  }

  /** One received frame: the program stops (None) exactly on a DATA frame on a
      live stream whose payload is shorter than the 5-byte prefix; every other
      frame is dispatched. */
  function Handle(callbacks: map<StreamId, CallbackId>, streamClosed: uint8,
                  frame: SessionFrame): (r: Option<Outcome>)
    ensures r.None? <==>
              frame.stream > 0 && frame.ftype == Data && frame.payload.Some?
              && |frame.payload.value| < 5
    ensures r.Some? ==> DataSliceInRange(frame) && r.value == Dispatch(callbacks, streamClosed, frame)
    ensures frame.stream == 0 ==> r == Some(Outcome(callbacks, []))
  {
    if DataSliceInRange(frame) then Some(Dispatch(callbacks, streamClosed, frame)) else None
  }

  /** On a message the legacy prefix can carry, both clients put the same bytes
      on the wire. */
  lemma EnvelopesAgree(payload: seq<uint8>)
    requires |payload| <= 0xFF
    ensures Envelope(payload) == GrpcSession.Envelope(payload)
  {
    var a, b := Envelope(payload), GrpcSession.Envelope(payload);
    assert a[..5] == b[..5] by {
      ToFromBigEndian(a[1..5]);
      ToFromBigEndian(b[1..5]);
    }
    assert a == a[..5] + payload && b == b[..5] + payload;
  }


  /** The two delegates differ only on a DATA frame without payload on a live
      stream: the legacy one returns early, the current one still drops a closed
      stream's callback and disconnects from an empty table. */
  lemma DispatchAgrees(callbacks: map<StreamId, CallbackId>, streamClosed: uint8,
                       frame: SessionFrame)
    requires DataSliceInRange(frame)
    ensures Dispatch(callbacks, streamClosed, frame)
              == GrpcSession.Dispatch(callbacks, streamClosed, frame)
            <==> !(frame.stream > 0 && frame.ftype == Data && frame.payload.None?
                   && ((frame.flags == streamClosed && frame.stream in callbacks)
                       || |callbacks| == 0))
  {
  }


  /** `GRPC`: the callback table, the session's stream-closed flag value, and the
      log of what the connection did. */
  class Grpc {
    const streamClosed: uint8
    var callbacks: map<StreamId, CallbackId>
    var log: seq<Event>

    constructor (streamClosed: uint8)
      ensures this.streamClosed == streamClosed
      ensures callbacks == map[] && log == []
    {
      this.streamClosed := streamClosed;
      callbacks := map[];
      log := [];
    }

    /** `write(path:data:callback:)`, with `message` already serialized and
        `stream` the id the allocator returned. */
    method Write(path: string, message: seq<uint8>, callback: CallbackId, stream: StreamId)
      requires |message| <= 0xFF
      modifies this
      ensures callbacks == old(callbacks)[stream := callback]
      ensures stream !in old(callbacks) ==> |callbacks| == |old(callbacks)| + 1
      ensures log == old(log) + [Connect,
                                 Register(stream, callback),
                                 SendHeaders(stream, RequestHeaders(path)),
                                 SendData(stream, Envelope(message))]
    {
      log := log + [Connect];
      callbacks := callbacks[stream := callback];
      log := log + [Register(stream, callback)];
      log := log + [SendHeaders(stream, RequestHeaders(path))];
      var bytes := Envelope(message);
      log := log + [SendData(stream, bytes)];
    }

    /** `client(http:hasFrame:)`. `trapped` says the program stopped on a DATA payload
        shorter than its prefix; nothing else happens then. */
    method HasFrame(frame: SessionFrame) returns (trapped: bool)
      modifies this
      ensures trapped <==> Handle(old(callbacks), streamClosed, frame).None?
      ensures trapped ==> callbacks == old(callbacks) && log == old(log)
      ensures !trapped ==>
                && callbacks == Dispatch(old(callbacks), streamClosed, frame).callbacks
                && log == old(log) + Dispatch(old(callbacks), streamClosed, frame).events
    {
      trapped := false;
      if frame.stream == 0 {
        return;
      }
      if !DataSliceInRange(frame) {
        trapped := true;
        return;
      }
      ghost var o := Dispatch(callbacks, streamClosed, frame);
      var delivered: seq<Event> := [];
      if frame.ftype == Data {
        if frame.payload.None? {
          return;
        }
        var bytes := frame.payload.value[5..];
        if frame.stream in callbacks {
          delivered := [Deliver(callbacks[frame.stream], bytes)];
        }
      }
      log := log + delivered;
      assert callbacks == old(callbacks);
      if frame.flags == streamClosed {
        callbacks := callbacks - {frame.stream};
      }
      if |callbacks| == 0 {
        log := log + [Disconnect];
      }
    }
  }
}
