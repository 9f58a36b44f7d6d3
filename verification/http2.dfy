/** The HTTP/2 frame codec and client stream-id allocator of Sources/http2.swift.

    A frame is a 9-byte header (section 4.1 of RFC 7540: a 24-bit length, a type
    byte, a flags byte, one reserved bit and a 31-bit stream identifier, all in
    network byte order) followed by `length` payload bytes. The host is fixed as
    little-endian, so `htonl` is a 32-bit byte swap. */
module Http2 {
  import opened Wrappers

  type uint8 = x: int | 0 <= x < 0x100
  type uint32 = x: int | 0 <= x < 0x1_0000_0000

  /** 2^24: one more than the largest frame length the header can carry. */
  const LengthLimit: nat := 0x100_0000
  /** 2^31: one more than the largest stream identifier (the top bit is reserved). */
  const StreamLimit: nat := 0x8000_0000

  /** The connection preface of section 3.5 of RFC 7540, sent verbatim before any frame. */
  const Preface: string := "PRI * HTTP/2.0\r\n\r\nSM\r\n\r\n"

  // ---------------------------------------------------------------------------
  // Byte order

  /** `htonl` on a little-endian host: the four bytes of `x` in reverse order. */
  function Htonl(x: uint32): (r: uint32)
  {
    (x % 0x100) * 0x100_0000 + (x / 0x100 % 0x100) * 0x1_0000
      + (x / 0x1_0000 % 0x100) * 0x100 + x / 0x100_0000
  }

  function Pow256(k: nat): (p: nat)
    ensures p > 0
  {
    if k == 0 then 1 else 0x100 * Pow256(k - 1)
  }

  /** The low `width` bytes of `n`, most significant first. */
  function ToBigEndian(n: nat, width: nat): (r: seq<uint8>)
    ensures |r| == width
  {
    if width == 0 then [] else ToBigEndian(n / 0x100, width - 1) + [n % 0x100]
  }

  /** The number whose base-256 digits, most significant first, are `s`. */
  function FromBigEndian(s: seq<uint8>): nat
  {
    if s == [] then 0 else FromBigEndian(s[..|s| - 1]) * 0x100 + s[|s| - 1]
  }

  /** Reading back `width` written bytes gives `n` modulo 256^width. */
  lemma {:induction false} FromToBigEndian(n: nat, width: nat)
    ensures FromBigEndian(ToBigEndian(n, width)) == n % Pow256(width)
  {
    if width > 0 {
      var s := ToBigEndian(n, width);
      assert s[..|s| - 1] == ToBigEndian(n / 0x100, width - 1);
      FromToBigEndian(n / 0x100, width - 1);
      SplitLowByte(n, Pow256(width - 1));
    }
  }

  /** Writing the digits of a number below 256^|s| gives them back. */
  lemma {:induction false} ToFromBigEndian(s: seq<uint8>)
    ensures ToBigEndian(FromBigEndian(s), |s|) == s
  {
    if s != [] {
      var n := FromBigEndian(s);
      var init := s[..|s| - 1];
      DivModUnique(n, 0x100, FromBigEndian(init), s[|s| - 1]);
      ToFromBigEndian(init);
      assert s == init + [s[|s| - 1]];
    }
  }

  lemma {:induction false} FromBigEndianBound(s: seq<uint8>)
    ensures FromBigEndian(s) < Pow256(|s|)
  {
    if s != [] {
      FromBigEndianBound(s[..|s| - 1]);
      MulLe(FromBigEndian(s[..|s| - 1]) + 1, Pow256(|s| - 1), 0x100);
    }
  }

  /** A leading zero byte does not change the number. */
  lemma {:induction false} FromBigEndianLeadingZero(s: seq<uint8>)
    ensures FromBigEndian([0] + s) == FromBigEndian(s)
  {
    if s != [] {
      assert ([0] + s)[..|s|] == [0] + s[..|s| - 1];
      FromBigEndianLeadingZero(s[..|s| - 1]);
    } else {
      var z: seq<uint8> := [0];
      assert z[..0] == [];
    }
  }

  /** Network-order digits of the low 24 bits of `n`. */
  function BigEndian24(n: nat): (r: seq<uint8>)
    ensures |r| == 3
    ensures FromBigEndian(r) == n % LengthLimit
  {
    FromToBigEndian(n, 3);
    assert Pow256(3) == LengthLimit;
    ToBigEndian(n, 3)
  }

  /** Network-order digits of a 32-bit word. */
  function BigEndian32(n: uint32): (r: seq<uint8>)
    ensures |r| == 4
    ensures FromBigEndian(r) == n
  {
    FromToBigEndian(n, 4);
    assert Pow256(4) == 0x1_0000_0000;
    ToBigEndian(n, 4)
  }

  lemma ToBigEndian3(n: nat)
    ensures ToBigEndian(n, 3) == [n / 0x1_0000 % 0x100, n / 0x100 % 0x100, n % 0x100]
  {
    ByteDigits(n);
    assert ToBigEndian(n, 3) == ToBigEndian(n / 0x100, 2) + [n % 0x100];
    assert ToBigEndian(n / 0x100, 2) == ToBigEndian(n / 0x100 / 0x100, 1) + [n / 0x100 % 0x100];
  }

  lemma ToBigEndian4(n: nat)
    ensures ToBigEndian(n, 4)
              == [n / 0x100_0000 % 0x100, n / 0x1_0000 % 0x100, n / 0x100 % 0x100, n % 0x100]
  {
    ByteDigits(n);
    assert ToBigEndian(n, 4) == ToBigEndian(n / 0x100, 3) + [n % 0x100];
    assert ToBigEndian(n / 0x100, 3) == ToBigEndian(n / 0x100 / 0x100, 2) + [n / 0x100 % 0x100];
    assert ToBigEndian(n / 0x100 / 0x100, 2)
        == ToBigEndian(n / 0x100 / 0x100 / 0x100, 1) + [n / 0x100 / 0x100 % 0x100];
  }

  /** Dropping the low byte of a 4-byte big-endian number leaves its top three bytes. */
  lemma ToBigEndianShift(n: nat)
    ensures ToBigEndian(n / 0x100, 3) == ToBigEndian(n, 4)[..3]
  {
  }


  lemma SplitLowByte(n: nat, m: nat)
    requires m > 0
    ensures n % (0x100 * m) == (n / 0x100 % m) * 0x100 + n % 0x100
  {
    var q, r := n / 0x100, n % 0x100;
    var q2, r2 := q / m, q % m;
    assert n == q2 * (0x100 * m) + (r2 * 0x100 + r);
    MulLe(r2 + 1, m, 0x100);
    DivModUnique(n, 0x100 * m, q2, r2 * 0x100 + r);
  }

  lemma FromBigEndianDigits(s: seq<uint8>)
    ensures |s| == 3 ==> FromBigEndian(s) == (s[0] as int) * 0x1_0000 + (s[1] as int) * 0x100 + s[2]
    ensures |s| == 4 ==>
              FromBigEndian(s)
                == (s[0] as int) * 0x100_0000 + (s[1] as int) * 0x1_0000 + (s[2] as int) * 0x100 + s[3]
  {
    if |s| == 3 || |s| == 4 {
      var n := |s|;
      assert s[..n - 1][..n - 2] == s[..n - 2];
      assert s[..n - 2][..n - 3] == s[..n - 3];
      if n == 4 {
        assert s[..1][..0] == [];
        assert FromBigEndian(s[..1]) == s[0];
      } else {
        assert s[..0] == [];
      }
    }
  }

  /** The byte digits of `n`: the remainders modulo 2^16 and 2^24 in terms of the
      bytes `n / 2^(8k) % 2^8`. */
  lemma ByteDigits(n: nat)
    ensures n / 0x1_0000 == n / 0x100 / 0x100
    ensures n / 0x100_0000 == n / 0x100 / 0x100 / 0x100
  {
  }


  lemma MulLe(a: nat, b: nat, d: nat)
    requires a <= b
    ensures a * d <= b * d
  {
  }


  lemma DivModUnique(n: nat, d: nat, q: nat, r: nat)
    requires d > 0 && r < d && n == q * d + r
    ensures n / d == q && n % d == r
  {
    var q', r' := n / d, n % d;
    if q' < q {
      MulLe(q' + 1, q, d);
    } else if q < q' {
      MulLe(q + 1, q', d);
    }
  }

  /** The bytes of `Htonl(x)`, most significant first, are those of `x` reversed. */
  lemma HtonlDigits(x: uint32)
    ensures var d := ToBigEndian(x, 4);
            ToBigEndian(Htonl(x), 4) == [d[3], d[2], d[1], d[0]]
  {
    ToBigEndian4(x);
    var d := ToBigEndian(x, 4);
    assert d[0] == x / 0x100_0000 && d[1] == x / 0x1_0000 % 0x100;
    assert d[2] == x / 0x100 % 0x100 && d[3] == x % 0x100;
    var w: seq<uint8> := [d[3], d[2], d[1], d[0]];
    FromBigEndianDigits(w);
    assert FromBigEndian(w) == Htonl(x);
    ToFromBigEndian(w);
  }

  /** The three length bytes `bytes` writes: `htonl(length) >> 8`, then its bytes
      from the least significant up. On a little-endian host this is big-endian. */
  lemma HtonlLengthBytes(x: uint32)
    ensures var l := Htonl(x) / 0x100;
            [l % 0x100, l / 0x100 % 0x100, l / 0x1_0000 % 0x100] == BigEndian24(x)
  {
    var s := Htonl(x);
    var d := ToBigEndian(x, 4);
    HtonlDigits(x);
    ToBigEndianShift(s);
    assert ToBigEndian(s / 0x100, 3) == [d[3], d[2], d[1]];
    ToBigEndian3(s / 0x100);
    ToBigEndianShift(x * 0x100);
    assert (x * 0x100) / 0x100 == x;
    ToBigEndian3(x);
    ToBigEndian4(x);
  }

  /** The four stream-id bytes `bytes` writes: `htonl(streamId)`, then its bytes
      from the least significant up. On a little-endian host this is big-endian. */
  lemma HtonlStreamBytes(x: uint32)
    ensures var s := Htonl(x);
            [s % 0x100, s / 0x100 % 0x100, s / 0x1_0000 % 0x100, s / 0x100_0000 % 0x100]
              == BigEndian32(x)
  {
    HtonlDigits(x);
    ToBigEndian4(Htonl(x));
  }

  // ---------------------------------------------------------------------------
  // Frame types, flags and frames

  datatype FrameType =
    | Data | Headers | Priority | RstStream | Settings
    | PushPromise | Ping | Goaway | WindowUpdate | Continuation

  /** The type code on the wire (the enum's raw value). */
  function Code(t: FrameType): (c: uint8)
    ensures c < 10
  {
    match t
    case Data => 0
    case Headers => 1
    case Priority => 2
    case RstStream => 3
    case Settings => 4
    case PushPromise => 5
    case Ping => 6
    case Goaway => 7
    case WindowUpdate => 8
    case Continuation => 9
  }

  /** `HttpFrameType(rawValue:)`: the type with code `c`, if there is one. */
  function FrameTypeOf(c: uint8): (r: Option<FrameType>)
    ensures r.Some? <==> c < 10
    ensures r.Some? ==> Code(r.value) == c
  {
    if c == 0 then Some(Data)
    else if c == 1 then Some(Headers)
    else if c == 2 then Some(Priority)
    else if c == 3 then Some(RstStream)
    else if c == 4 then Some(Settings)
    else if c == 5 then Some(PushPromise)
    else if c == 6 then Some(Ping)
    else if c == 7 then Some(Goaway)
    else if c == 8 then Some(WindowUpdate)
    else if c == 9 then Some(Continuation)
    else None
  }

  lemma CodeRoundTrip(t: FrameType)
    ensures FrameTypeOf(Code(t)) == Some(t)
  {
  }



  datatype Frame = Frame(length: uint32, ftype: FrameType, flags: uint8, streamId: uint32,
                         payload: Option<seq<uint8>>)

  /** The frame invariant the decoder establishes: the length fits the 24-bit
      field, the stream id the 31-bit field, and a payload is present exactly when
      the length is non-zero, with exactly `length` bytes. */
  ghost predicate WellFormed(f: Frame)
  {
    && f.length < LengthLimit
    && f.streamId < StreamLimit
    && (f.payload.Some? <==> f.length > 0)
    && (f.payload.Some? ==> |f.payload.value| == f.length)
  }

  function PayloadBytes(f: Frame): seq<uint8>
  {
    if f.payload.Some? then f.payload.value else []
  }

  // ---------------------------------------------------------------------------
  // Encoding

  /** The header as section 4.1 of RFC 7540 lays it out: the low 24 bits of the
      length, the type code, the flags and the stream id, each big-endian. The
      reserved bit is written as it stands in `streamId`, not cleared. */
  function EncodeHeader(f: Frame): (r: seq<uint8>)
    ensures |r| == 9
  {
    BigEndian24(f.length) + [Code(f.ftype), f.flags] + BigEndian32(f.streamId)
  }

  /** `HttpFrame.bytes`: the header, built by successive appends of `htonl` shifts. */
  method Bytes(f: Frame) returns (data: seq<uint8>)
    ensures |data| == 9
    ensures FromBigEndian(data[..3]) == f.length % LengthLimit
    ensures data[3] == Code(f.ftype) && data[4] == f.flags
    ensures FromBigEndian(data[5..]) == f.streamId
    ensures data == EncodeHeader(f)
  {
    data := [];
    var l := Htonl(f.length) / 0x100;
    data := data + [l % 0x100];
    data := data + [l / 0x100 % 0x100];
    data := data + [l / 0x1_0000 % 0x100];
    HtonlLengthBytes(f.length);
    assert data == BigEndian24(f.length);

    data := data + [Code(f.ftype)];
    data := data + [f.flags];

    var s := Htonl(f.streamId);
    data := data + [s % 0x100];
    data := data + [s / 0x100 % 0x100];
    data := data + [s / 0x1_0000 % 0x100];
    data := data + [s / 0x100_0000 % 0x100];
    HtonlStreamBytes(f.streamId);
    assert data[5..] == BigEndian32(f.streamId);
    assert data[..3] == BigEndian24(f.length);
  }

  /** The bytes `write(to:)` puts on the wire for one frame: header, then payload. */
  function Serialize(f: Frame): seq<uint8>
  {
    EncodeHeader(f) + PayloadBytes(f)
  }

  function SerializeAll(fs: seq<Frame>): seq<uint8>
  {
    if fs == [] then [] else Serialize(fs[0]) + SerializeAll(fs[1..])
  }

  // ---------------------------------------------------------------------------
  // Decoding

  /** Where the Swift decoder stops the program: an index past the end of the
      header, a type code with no `HttpFrameType` (force-unwrap), a payload slice
      past the end of the buffer. */
  datatype Fault = HeaderOutOfRange | UnknownFrameType(code: uint8) | PayloadOutOfRange

  /** `HttpResponse.parse`, as a value: bytes 0..2 are the length, byte 3 the type,
      byte 4 the flags, bytes 5..8 the stream id with the reserved bit cleared.
      Faults in the order the Swift code meets them. */
  function DecodeHeader(b: seq<uint8>): (r: Result<Frame, Fault>)
    ensures r.Success? <==> |b| >= 9 && b[3] < 10
    ensures r.Success? ==>
              && Code(r.value.ftype) == b[3]
              && r.value.flags == b[4]
              && r.value.payload.None?
              && r.value.length < LengthLimit
              && r.value.streamId < StreamLimit
    ensures |b| >= 4 && b[3] >= 10 ==> r == Failure(UnknownFrameType(b[3]))
  {
    if |b| < 4 then Failure(HeaderOutOfRange)
    else match FrameTypeOf(b[3])
      case None => Failure(UnknownFrameType(b[3]))
      case Some(t) =>
        if |b| < 9 then Failure(HeaderOutOfRange)
        else
          FromBigEndianBound(b[..3]);
          assert Pow256(3) == LengthLimit;
          Success(Frame(FromBigEndian(b[..3]), t, b[4], FromBigEndian(b[5..9]) % StreamLimit, None))
  }

  /** `x & ~0x80000000` on a 32-bit word whose top byte is `hi`. */
  lemma ClearTopBit(hi: uint8, lo: nat)
    requires lo < 0x100_0000
    ensures ((hi as int) * 0x100_0000 + lo) % StreamLimit == (hi as int % 0x80) * 0x100_0000 + lo
  {
  }


  /** `x << 8` on a UInt32 below 2^24 loses no bits. */
  lemma ShiftFits(x: nat)
    requires x < 0x100_0000
    ensures x * 0x100 < 0x1_0000_0000 && x * 0x100 % 0x1_0000_0000 == x * 0x100
  {
  }

  /** `HttpResponse.parse`: shift-and-add over bytes 5..8, then `sid &= ~0x80000000`. */
  method Parse(b: seq<uint8>) returns (r: Result<Frame, Fault>)
    ensures r == DecodeHeader(b)
  {
    if |b| < 4 {
      return Failure(HeaderOutOfRange);
    }
    var t := FrameTypeOf(b[3]);
    if t.None? {
      return Failure(UnknownFrameType(b[3]));
    }
    if |b| < 9 {
      return Failure(HeaderOutOfRange);
    }
    var length: uint32 := (b[0] as int) * 0x1_0000 + (b[1] as int) * 0x100 + b[2];
    var flags := b[4];
    // Swift's `<<=` on UInt32 discards the bits shifted out; `+=` cannot overflow here.
    var sid: uint32 := b[5];
    ShiftFits(sid);
    sid := (sid as int) * 0x100 % 0x1_0000_0000;
    sid := sid + b[6];
    assert sid == (b[5] as int) * 0x100 + b[6];
    ShiftFits(sid);
    sid := (sid as int) * 0x100 % 0x1_0000_0000;
    sid := sid + b[7];
    assert sid == (b[5] as int) * 0x1_0000 + (b[6] as int) * 0x100 + b[7];
    ShiftFits(sid);
    sid := (sid as int) * 0x100 % 0x1_0000_0000;
    sid := sid + b[8];
    FromBigEndianDigits(b[..3]);
    FromBigEndianDigits(b[5..9]);
    assert sid == FromBigEndian(b[5..9]);
    sid := sid % StreamLimit;
    r := Success(Frame(length, t.value, flags, sid, None));
  }

  /** `HttpResponse.process`: one frame and its payload split off the front of `b`. */
  function Process(b: seq<uint8>): (r: Result<(Frame, seq<uint8>), Fault>)
    ensures r.Success? <==>
              DecodeHeader(b).Success? && |b| >= 9 + DecodeHeader(b).value.length
    ensures r.Success? ==> WellFormed(r.value.0) && |r.value.1| + 9 <= |b|
  {
    match DecodeHeader(b)
    case Failure(e) => Failure(e)
    case Success(h) =>
      if h.length == 0 then Success((h, b[9..]))
      else if |b| < 9 + h.length then Failure(PayloadOutOfRange)
      else Success((h.(payload := Some(b[9..9 + h.length])), b[9 + h.length..]))
  }

  /** What `process` returns: the decoded header with the next `length` bytes as
      payload (none for length 0), and the bytes after them; header, payload and
      remainder put back together give the input. */
  lemma ProcessSplits(b: seq<uint8>)
    requires Process(b).Success?
    ensures var (f, rest) := Process(b).value;
            && f.(payload := None) == DecodeHeader(b).value
            && (f.length > 0 ==> f.payload == Some(b[9..9 + f.length]))
            && (f.length == 0 ==> f.payload.None?)
            && rest == b[9 + f.length..]
            && b == b[..9] + PayloadBytes(f) + rest
  {
  }


  /** Which fault `process` meets: the header's, else a short payload. */
  lemma ProcessFault(b: seq<uint8>)
    requires Process(b).Failure?
    ensures Process(b).error
              == if DecodeHeader(b).Failure? then DecodeHeader(b).error else PayloadOutOfRange
  {
  }

  function Prepend(frames: seq<Frame>, r: Result<seq<Frame>, Fault>): Result<seq<Frame>, Fault>
  {
    match r
    case Success(fs) => Success(frames + fs)
    case Failure(e) => Failure(e)
  }

  /** What `HttpFrame.read` computes: `process` applied until the buffer is empty. */
  function FramesOf(b: seq<uint8>): (r: Result<seq<Frame>, Fault>)
    ensures r.Success? ==> forall i | 0 <= i < |r.value| :: WellFormed(r.value[i])
    ensures r.Success? ==> 9 * |r.value| <= |b|
    decreases |b|
  {
    if |b| == 0 then Success([])
    else match Process(b)
      case Failure(e) => Failure(e)
      case Success((f, rest)) =>
        match FramesOf(rest)
        case Failure(e) => Failure(e)
        case Success(fs) => Success([f] + fs)
  }

  /** `HttpFrame.read`: no data gives no frames; otherwise `process` in a loop. */
  method Read(data: Option<seq<uint8>>) returns (r: Result<seq<Frame>, Fault>)
    ensures data.None? ==> r == Success([])
    ensures data.Some? ==> r == FramesOf(data.value)
  {
    if data.None? {
      return Success([]);
    }
    var frames: seq<Frame> := [];
    var bytes := data.value;
    assert FramesOf(bytes).Success? ==> [] + FramesOf(bytes).value == FramesOf(bytes).value;
    while |bytes| > 0
      invariant FramesOf(data.value) == Prepend(frames, FramesOf(bytes))
      decreases |bytes|
    {
      var step := Process(bytes);
      if step.Failure? {
        return Failure(step.error);
      }
      var (frame, remaining) := step.value;
      assert frames + ([frame] + (if FramesOf(remaining).Success? then FramesOf(remaining).value else []))
          == (frames + [frame]) + (if FramesOf(remaining).Success? then FramesOf(remaining).value else []);
      frames := frames + [frame];
      bytes := remaining;
    }
    assert frames + [] == frames;
    r := Success(frames);
  }

  // ---------------------------------------------------------------------------
  // Round trips

  /** Decoding an encoded header gives back the type and flags, the length modulo
      2^24 and the stream id without its reserved bit. */
  lemma HeaderRoundTrip(f: Frame)
    ensures DecodeHeader(EncodeHeader(f))
              == Success(Frame(f.length % LengthLimit, f.ftype, f.flags,
                               f.streamId % StreamLimit, None))
    ensures f.length < LengthLimit && f.streamId < StreamLimit ==>
              DecodeHeader(EncodeHeader(f)) == Success(f.(payload := None))
  {
    var b := EncodeHeader(f);
    assert b[..3] == BigEndian24(f.length);
    assert b[5..9] == BigEndian32(f.streamId);
    CodeRoundTrip(f.ftype);
    if f.length < LengthLimit && f.streamId < StreamLimit {
      DivModUnique(f.length, LengthLimit, 0, f.length);
      DivModUnique(f.streamId, StreamLimit, 0, f.streamId);
    }
  }

  /** Re-encoding a decoded header gives back the input bytes, save the reserved bit. */
  lemma HeaderReencode(b: seq<uint8>)
    requires DecodeHeader(b).Success?
    ensures EncodeHeader(DecodeHeader(b).value) == b[..5] + [b[5] % 0x80] + b[6..9]
  {
    var c := [b[5] % 0x80] + b[6..9];
    ToFromBigEndian(b[..3]);
    FromBigEndianDigits(b[5..9]);
    FromBigEndianDigits(c);
    ClearTopBit(b[5], (b[6] as int) * 0x1_0000 + (b[7] as int) * 0x100 + b[8]);
    ToFromBigEndian(c);
  }


  /** The header decoder looks at the first nine bytes only. */
  lemma DecodeHeaderReadsNine(b: seq<uint8>)
    requires |b| >= 9
    ensures DecodeHeader(b) == DecodeHeader(b[..9])
  {
    assert b[..3] == b[..9][..3];
    assert b[5..9] == b[..9][5..9];
  }

  /** The header of a well-formed frame on the wire decodes to the frame itself,
      less its payload. */
  lemma DecodeSerialized(f: Frame, rest: seq<uint8>)
    requires WellFormed(f)
    ensures DecodeHeader(Serialize(f) + rest) == Success(f.(payload := None))
  {
    var b := Serialize(f) + rest;
    assert b[..9] == EncodeHeader(f);
    DecodeHeaderReadsNine(b);
    HeaderRoundTrip(f);
  }

  /** A well-formed frame on the wire, followed by anything, is split off whole. */
  lemma ProcessSerialized(f: Frame, rest: seq<uint8>)
    requires WellFormed(f)
    ensures Process(Serialize(f) + rest) == Success((f, rest))
  {
    var b := Serialize(f) + rest;
    DecodeSerialized(f, rest);
    assert b[9..] == PayloadBytes(f) + rest;
    if f.length > 0 {
      assert b[9..9 + f.length] == f.payload.value;
      assert b[9 + f.length..] == rest;
    }
  }

  /** `read` over a concatenation of complete well-formed frames yields exactly
      those frames, in order. */
  lemma {:induction false} ReadRoundTrip(fs: seq<Frame>)
    requires forall i | 0 <= i < |fs| :: WellFormed(fs[i])
    ensures FramesOf(SerializeAll(fs)) == Success(fs)
  {
    if fs != [] {
      var b := SerializeAll(fs);
      ProcessSerialized(fs[0], SerializeAll(fs[1..]));
      ReadRoundTrip(fs[1..]);
      assert |b| > 0;
      assert [fs[0]] + fs[1..] == fs;
    }
  }

  /** A strict, non-empty prefix of a frame's wire form makes `process` fault:
      either the header is short or the payload is. */
  lemma ProcessPrefixFaults(g: Frame, k: nat)
    requires WellFormed(g)
    requires 0 < k < |Serialize(g)|
    ensures Process(Serialize(g)[..k]).Failure?
  {
    var tail := Serialize(g)[..k];
    if k >= 9 {
      assert tail[..9] == EncodeHeader(g);
      DecodeHeaderReadsNine(tail);
      HeaderRoundTrip(g);
      assert DecodeHeader(tail).value.length == g.length;
    }
  }

  /** A buffer ending in a strict, non-empty prefix of a frame's wire form is
      never decoded: no partial frame comes out, the decoder faults. */
  lemma {:induction false} PartialFrameRejected(fs: seq<Frame>, g: Frame, k: nat)
    requires forall i | 0 <= i < |fs| :: WellFormed(fs[i])
    requires WellFormed(g)
    requires 0 < k < |Serialize(g)|
    ensures FramesOf(SerializeAll(fs) + Serialize(g)[..k]).Failure?
  {
    var tail := Serialize(g)[..k];
    if fs == [] {
      assert SerializeAll(fs) + tail == tail;
      ProcessPrefixFaults(g, k);
    } else {
      var rest := SerializeAll(fs[1..]) + tail;
      var b := SerializeAll(fs) + tail;
      assert b == Serialize(fs[0]) + rest;
      ProcessSerialized(fs[0], rest);
      PartialFrameRejected(fs[1..], g, k);
      assert |b| > 0;
    }
  }

  // ---------------------------------------------------------------------------
  // Frame factories

  /** `HttpFrame.settings`: an empty SETTINGS frame. */
  function SettingsFrame(flags: uint8, stream: uint32): (f: Frame)
    ensures f.ftype == Settings && f.length == 0 && f.payload.None?
    ensures f.flags == flags && f.streamId == stream
    ensures stream < StreamLimit ==> WellFormed(f)
  {
    Frame(0, Settings, flags, stream, None)
  }

  /** An empty SETTINGS frame on its own stream reads back as itself. */
  lemma SettingsRoundTrip(flags: uint8, stream: uint32)
    requires stream < StreamLimit
    ensures FramesOf(Serialize(SettingsFrame(flags, stream))) == Success([SettingsFrame(flags, stream)])
  {
    var f := SettingsFrame(flags, stream);
    assert SerializeAll([f]) == Serialize(f) + SerializeAll([]);
    assert Serialize(f) + [] == Serialize(f);
    ReadRoundTrip([f]);
  }

  /** `HttpFrame.send(bytes:)` as written: a DATA frame whose payload is the
      message behind a 5-byte prefix with a one-byte length, but whose length
      field counts only the message. `UInt8(bytes.count)` traps above 255. */
  function SendBytes(bytes: seq<uint8>, flags: uint8, stream: uint32): (f: Frame)
    requires |bytes| <= 0xFF
    ensures f.ftype == Data && f.flags == flags && f.streamId == stream
    ensures f.length == |bytes| && f.payload.Some?
    ensures |f.payload.value| == f.length + 5
    ensures f.payload.value[..5] == [0, 0, 0, 0, |bytes|] && f.payload.value[5..] == bytes
  {
    Frame(|bytes|, Data, flags, stream, Some([0, 0, 0, 0, |bytes|] + bytes))
  }

  /** The frame `send(bytes:)` builds does not survive the wire: its header
      announces five bytes fewer than follow it, so the reader is left with a
      5-byte fragment it cannot decode. */
  lemma SendBytesMisframed(bytes: seq<uint8>, flags: uint8, stream: uint32)
    requires |bytes| <= 0xFF
    ensures FramesOf(Serialize(SendBytes(bytes, flags, stream))).Failure?
  {
    var f := SendBytes(bytes, flags, stream);
    var b := Serialize(f);
    var n := |bytes|;
    assert b[..9] == EncodeHeader(f);
    HeaderRoundTrip(f);
    DecodeHeaderReadsNine(b);
    DivModUnique(n, LengthLimit, 0, n);
    assert DecodeHeader(b).value.length == n;
    var tail := b[9 + n..];
    assert |tail| == 5;
    assert Process(b).Success? && Process(b).value.1 == tail;
    assert Process(tail).Failure?;
  }


  /** `send(bytes:)` with the length field counting the whole payload, so that
      the frame is well formed. */
  function SendMessage(bytes: seq<uint8>, flags: uint8, stream: uint32): (f: Frame)
    requires |bytes| <= 0xFF
    ensures f.ftype == Data && f.flags == flags && f.streamId == stream
    ensures f.payload == Some([0, 0, 0, 0, |bytes|] + bytes)
    ensures f.length == |f.payload.value|
    ensures stream < StreamLimit ==> WellFormed(f)
  {
    var out := [0, 0, 0, 0, |bytes|] + bytes;
    Frame(|out|, Data, flags, stream, Some(out))
  }

  lemma SendMessageRoundTrip(bytes: seq<uint8>, flags: uint8, stream: uint32)
    requires |bytes| <= 0xFF && stream < StreamLimit
    ensures FramesOf(Serialize(SendMessage(bytes, flags, stream)))
              == Success([SendMessage(bytes, flags, stream)])
  {
    var f := SendMessage(bytes, flags, stream);
    assert SerializeAll([f]) == Serialize(f) + SerializeAll([]);
    assert Serialize(f) + [] == Serialize(f);
    ReadRoundTrip([f]);
  }

  /** The three bytes of `htonl(length) >> 8`, from the least significant up, as
      `bytes` and the gRPC envelope take them, on a host of either byte order:
      `htonl` is the identity on a big-endian host, so `>> 8` there drops the low
      byte. */
  function LengthBytesOnHost(littleEndianHost: bool, length: uint32): (r: seq<uint8>)
    ensures littleEndianHost ==> r == BigEndian24(length)
  {
    HtonlLengthBytes(length);
    var l := (if littleEndianHost then Htonl(length) else length) / 0x100;
    [l % 0x100, l / 0x100 % 0x100, l / 0x1_0000 % 0x100]
  }

  /** The four bytes of `htonl(streamId)`, from the least significant up, as
      `bytes` takes them, on a host of either byte order. */
  function StreamBytesOnHost(littleEndianHost: bool, streamId: uint32): (r: seq<uint8>)
    ensures littleEndianHost ==> r == BigEndian32(streamId)
  {
    HtonlStreamBytes(streamId);
    var s := if littleEndianHost then Htonl(streamId) else streamId;
    [s % 0x100, s / 0x100 % 0x100, s / 0x1_0000 % 0x100, s / 0x100_0000 % 0x100]
  }

  /** On a big-endian host the header is wrong in both fields: the length loses
      its low byte and its other bytes come out reversed, and the stream id comes
      out least significant byte first. */
  lemma BigEndianHostDropsLowByte()
    ensures LengthBytesOnHost(false, 1) == [0, 0, 0]
    ensures FromBigEndian(LengthBytesOnHost(false, 1)) != 1
    ensures FromBigEndian(BigEndian24(1)) == 1
    ensures LengthBytesOnHost(false, 0x01_0203) == [0x02, 0x01, 0x00]
    ensures BigEndian24(0x01_0203) == [0x01, 0x02, 0x03]
    ensures StreamBytesOnHost(false, 1) == [1, 0, 0, 0]
    ensures BigEndian32(1) == [0, 0, 0, 1]
  {
    BigEndianHostLength();
    BigEndianHostStreamId();
  }

  lemma BigEndianHostLength()
    ensures LengthBytesOnHost(false, 0x01_0203) == [0x02, 0x01, 0x00]
    ensures BigEndian24(0x01_0203) == [0x01, 0x02, 0x03]
  {
    ToBigEndian3(0x01_0203);
  }

  lemma BigEndianHostStreamId()
    ensures StreamBytesOnHost(false, 1) == [1, 0, 0, 0]
    ensures BigEndian32(1) == [0, 0, 0, 1]
  {
    ToBigEndian4(1);
  }

  // ---------------------------------------------------------------------------
  // Stream identifiers

  /** `HttpStreamState`; `NoneState` is its case named `none`. */
  datatype StreamState =
    | NoneState | Idle | ReservedLocal | ReservedRemote
    | Open | HalfClosedRemote | HalfClosedLocal | Closed

  /** Swift's `table[key] = value` on a dictionary, whose setter takes an optional:
      nil removes the key, any other value stores it. */
  function Assign(table: map<uint32, StreamState>, key: uint32, value: Option<StreamState>)
    : (r: map<uint32, StreamState>)
    ensures value.None? ==> r.Keys == table.Keys - {key}
    ensures value.Some? ==> r.Keys == table.Keys + {key} && r[key] == value.value
    ensures forall k | k in table && k != key :: r[k] == table[k]
  {
    if value.None? then table - {key} else table[key := value.value]
  }

  /** The allocator has handed out `1, 3, 5, …` in order, and `counter` is next. */
  ghost predicate IssuedInOrder(counter: uint32, issued: seq<uint32>)
  {
    && counter == 2 * |issued| + 1
    && (forall k | 0 <= k < |issued| :: issued[k] == 2 * k + 1)
  }

  /** `HttpStream`: the client's stream table and the next id to hand out. */
  class HttpStream {
    var streams: map<uint32, StreamState>
    var counter: uint32
    /** The ids handed out so far, in order. */
    ghost var issued: seq<uint32>

    /** As written, the table never gains an entry. */
    ghost predicate Valid()
      reads this
    {
      IssuedInOrder(counter, issued) && streams == map[]
    }

    constructor ()
      ensures Valid()
      ensures streams == map[] && counter == 1 && issued == []
    {
      streams := map[];
      counter := 1;
      issued := [];
    }

    /** `new()` as written. The setter of a `[UInt32: HttpStreamState]` takes an
        `HttpStreamState?`, against which `.none` is the optional's nil, so the
        assignment removes the counter's entry (never present) instead of
        recording it. Then the counter advances by 2, trapping on 32-bit
        overflow, and the old value is returned. */
    method New() returns (id: uint32)
      requires Valid()
      requires counter + 2 < 0x1_0000_0000
      modifies this
      ensures Valid()
      ensures id == old(counter) && id == 2 * |old(issued)| + 1 && id % 2 == 1
      ensures streams == old(streams) == map[]
      ensures counter == old(counter) + 2
      ensures issued == old(issued) + [id]
    {
      streams := Assign(streams, counter, None);
      id := counter;
      counter := counter + 2;
      issued := issued + [id];
    }
  }

  /** The allocator `new()` was evidently meant to be: each id handed out is
      recorded in the table with the state `HttpStreamState.none`. */
  class RecordingStream {
    var streams: map<uint32, StreamState>
    var counter: uint32
    /** The ids handed out so far, in order. */
    ghost var issued: seq<uint32>

    /** The table holds exactly the ids handed out, each in state `NoneState`. */
    ghost predicate Valid()
      reads this
    {
      && IssuedInOrder(counter, issued)
      && streams.Keys == (set k | 0 <= k < |issued| :: issued[k])
      && (forall id | id in streams :: streams[id] == NoneState)
    }

    constructor ()
      ensures Valid()
      ensures streams == map[] && counter == 1 && issued == []
    {
      streams := map[];
      counter := 1;
      issued := [];
    }

    /** `new()` storing `HttpStreamState.none` explicitly: the old counter is
        recorded and returned, no other entry changes, the counter advances by 2. */
    method New() returns (id: uint32)
      requires Valid()
      requires counter + 2 < 0x1_0000_0000
      modifies this
      ensures Valid()
      ensures id == old(counter) && id == 2 * |old(issued)| + 1
      ensures id % 2 == 1 && id !in old(streams)
      ensures streams == old(streams)[id := NoneState]
      ensures counter == old(counter) + 2
      ensures issued == old(issued) + [id]
    {
      ghost var before := issued;
      assert counter !in streams;
      streams := Assign(streams, counter, Some(NoneState));
      id := counter;
      counter := counter + 2;
      issued := issued + [id];
      assert (set k | 0 <= k < |issued| :: issued[k])
          == (set k | 0 <= k < |before| :: before[k]) + {id} by {
        forall k | 0 <= k < |before|
          ensures before[k] in (set k | 0 <= k < |issued| :: issued[k])
        {
          assert issued[k] == before[k];
        }
        assert issued[|before|] == id;
      }
    }
  }

  /** A fresh allocator's first `new()`: as written the table stays empty, while
      storing the state explicitly records stream 1. */
  lemma NoneAssignmentDropsStream()
    ensures Assign(map[], 1, None) == map[]
    ensures Assign(map[], 1, Some(NoneState)) == map[1 := NoneState]
    ensures Assign(map[], 1, None) != Assign(map[], 1, Some(NoneState))
  {
    assert 1 in Assign(map[], 1, Some(NoneState));
  }

  /** Ids issued by an allocator that started at 1 are odd and pairwise distinct. */
  lemma IssuedIdsDistinct(issued: seq<uint32>, i: nat, j: nat)
    requires forall k | 0 <= k < |issued| :: issued[k] == 2 * k + 1
    requires i < |issued| && j < |issued|
    ensures issued[i] % 2 == 1
    ensures issued[i] == issued[j] <==> i == j
  {
  }
}
