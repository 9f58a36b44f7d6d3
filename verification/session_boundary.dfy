/** What the two gRPC clients see of the external HTTP/2 session package, reduced
    to values: the frame record the session hands to its delegate, the session's
    effects on the outside world as an event log, the callback table's update as
    an outcome, and the gRPC Length-Prefixed-Message framing of a DATA payload
    (a 1-byte compression flag, a 4-byte big-endian length, the message). */
module SessionBoundary {
  import opened Wrappers
  import opened Http2

  /** Stream ids as the external allocator hands them out. */
  type StreamId = nat
  /** A registered response callback, by identity. */
  type CallbackId = nat

  /** A received frame: type, flags, stream and optional payload. */
  datatype SessionFrame = SessionFrame(ftype: FrameType, flags: uint8, stream: StreamId,
                                       payload: Option<seq<uint8>>)

  /** The session's effects: `connect()`, a callback stored in the table under a
      stream, a HEADERS frame written with END_HEADERS, a DATA frame written with
      END_STREAM, a callback invoked, `disconnect()`. */
  datatype Event =
    | Connect
    | Register(stream: StreamId, callback: CallbackId)
    | SendHeaders(stream: StreamId, headers: seq<(string, string)>)
    | SendData(stream: StreamId, body: seq<uint8>)
    | Deliver(callback: CallbackId, message: seq<uint8>)
    | Disconnect

  /** The callback table after one received frame, and what the handler did. */
  datatype Outcome = Outcome(callbacks: map<StreamId, CallbackId>, events: seq<Event>)

  /** The handlers slice `payload[5..<count]` out of a DATA frame on a non-zero
      stream; a payload of fewer than 5 bytes makes that range invalid, which
      stops the program. */
  predicate DataSliceInRange(frame: SessionFrame)
  {
    frame.stream > 0 && frame.ftype == Data && frame.payload.Some? ==> |frame.payload.value| >= 5
  }

  /** The prefix of a gRPC Length-Prefixed-Message: compression flag and length. */
  datatype Prefix = Prefix(compressed: uint8, length: nat)

  function ReadPrefix(message: seq<uint8>): Prefix
    requires |message| >= 5
  {
    Prefix(message[0], FromBigEndian(message[1..5]))
  }

  /** What both DATA handlers hand to a callback: the payload after its 5-byte prefix. */
  function Unframe(payload: seq<uint8>): seq<uint8>
    requires |payload| >= 5
  {
    payload[5..]
  }

  /** The value of the first pair named `name`, if any. */
  function Lookup<K(==), V>(pairs: seq<(K, V)>, name: K): Option<V>
  {
    if pairs == [] then None
    else if pairs[0].0 == name then Some(pairs[0].1)
    else Lookup(pairs[1..], name)
  }

  /** A name no pair carries is not found. */
  lemma {:induction false} LookupAbsent<K, V>(pairs: seq<(K, V)>, name: K)
    requires forall j | 0 <= j < |pairs| :: pairs[j].0 != name
    ensures Lookup(pairs, name) == None
  {
    if pairs != [] {
      LookupAbsent(pairs[1..], name);
    }
  }

  /** The first pair named `name` decides the lookup. */
  lemma {:induction false} LookupAt<K, V>(pairs: seq<(K, V)>, name: K, i: nat)
    requires i < |pairs| && pairs[i].0 == name
    requires forall j | 0 <= j < i :: pairs[j].0 != name
    ensures Lookup(pairs, name) == Some(pairs[i].1)
  {
    if i > 0 {
      LookupAt(pairs[1..], name, i - 1);
    }
  }

  /** A pseudo-header name (section 8.1.2.1 of RFC 7540) starts with a colon. */
  predicate IsPseudoName(name: string)
  {
    |name| > 0 && name[0] == ':'
  }
}
