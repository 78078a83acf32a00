/** The frames of a packet payload and their encoding (Polygon/lib/ngtcp2_pkt.c). */
module Frames {
  import opened Basics
  import R = Ranges
  import opened Numbers
  import opened Wire
  import opened AckFrames
  import opened Fields
  import opened DataFrames

  datatype Frame =
    | Padding(len: nat)
    | RstStream(id: nat, code: nat, finalOffset: nat)
    | ConnectionClose(code: nat, reason: seq<byte>)
    | ApplicationClose(code: nat, reason: seq<byte>)
    | MaxData(max: nat)
    | MaxStreamData(id: nat, max: nat)
    | MaxStreamId(id: nat)
    | Ping(data: seq<byte>)
    | Blocked(offset: nat)
    | StreamBlocked(id: nat, offset: nat)
    | StreamIdBlocked(id: nat)
    | NewConnectionId(number: nat, connId: nat, token: seq<byte>)
    | StopSending(id: nat, code: nat)
    | Pong(data: seq<byte>)
    | AckFrame(ack: Ack)
    | StreamSegment(segment: Segment)

  predicate IsUint16(n: nat) {
    n < 0x1_0000
  }

  /** The fields are in the range of their C types and of the integers that can be sent. */
  predicate Fits(f: Frame) {
    match f
    case Padding(n) => n > 0
    case RstStream(id, code, final) => IsVarint(id) && IsUint16(code) && IsVarint(final)
    case ConnectionClose(code, reason) => IsUint16(code) && IsVarint(|reason|)
    case ApplicationClose(code, reason) => IsUint16(code) && IsVarint(|reason|)
    case MaxData(n) => IsVarint(n)
    case MaxStreamData(id, n) => IsVarint(id) && IsVarint(n)
    case MaxStreamId(id) => IsVarint(id)
    case Ping(_) => true
    case Blocked(n) => IsVarint(n)
    case StreamBlocked(id, n) => IsVarint(id) && IsVarint(n)
    case StreamIdBlocked(id) => IsVarint(id)
    case NewConnectionId(n, connId, token) => IsUint16(n) && connId <= R.UINT64_MAX && |token| == TOKEN_LEN
    case StopSending(id, code) => IsVarint(id) && IsUint16(code)
    case Pong(_) => true
    case AckFrame(a) => AckFits(a)
    case StreamSegment(g) => SegmentFits(g)
  }

  /** The first byte. */
  function Type(f: Frame): byte {
    match f
    case Padding(_) => 0x00
    case RstStream(_, _, _) => 0x01
    case ConnectionClose(_, _) => 0x02
    case ApplicationClose(_, _) => 0x03
    case MaxData(_) => 0x04
    case MaxStreamData(_, _) => 0x05
    case MaxStreamId(_) => 0x06
    case Ping(_) => 0x07
    case Blocked(_) => 0x08
    case StreamBlocked(_, _) => 0x09
    case StreamIdBlocked(_) => 0x0a
    case NewConnectionId(_, _, _) => 0x0b
    case StopSending(_, _) => 0x0c
    case Pong(_) => 0x0d
    case AckFrame(_) => 0x0e
    case StreamSegment(g) => StreamType(g)
  }

  /** ACK is recognised by three bits. */
  predicate IsAckType(t: byte) {
    t / 2 % 8 == 7
  }

  // The frames that are a fixed list of fields.

  predicate Plain(f: Frame) {
    !f.AckFrame? && !f.StreamSegment?
  }

  /** The fields that follow first byte `t`; None for a type that is not known. */
  function Layout(t: byte): Option<seq<Kind>> {
    if t == 0x00 then Some([Run])
    else if t == 0x01 then Some([Varint, Uint(2), Varint])
    else if t == 0x02 || t == 0x03 then Some([Uint(2), Text])
    else if t == 0x04 || t == 0x06 || t == 0x08 || t == 0x0a then Some([Varint])
    else if t == 0x05 || t == 0x09 then Some([Varint, Varint])
    else if t == 0x07 || t == 0x0d then Some([ShortText])
    else if t == 0x0b then Some([Varint, Uint(8), Raw(TOKEN_LEN)])
    else if t == 0x0c then Some([Varint, Uint(2)])
    else None
  }

  function FieldsOf(f: Frame): seq<Field>
    requires Plain(f)
  {
    match f
    case Padding(n) => [Number(if n > 0 then n - 1 else 0)]
    case RstStream(id, code, final) => [Number(id), Number(code), Number(final)]
    case ConnectionClose(code, reason) => [Number(code), Bytes(reason)]
    case ApplicationClose(code, reason) => [Number(code), Bytes(reason)]
    case MaxData(n) => [Number(n)]
    case MaxStreamData(id, n) => [Number(id), Number(n)]
    case MaxStreamId(id) => [Number(id)]
    case Ping(data) => [Bytes(data)]
    case Blocked(n) => [Number(n)]
    case StreamBlocked(id, n) => [Number(id), Number(n)]
    case StreamIdBlocked(id) => [Number(id)]
    case NewConnectionId(n, connId, token) => [Number(n), Number(connId), Bytes(token)]
    case StopSending(id, code) => [Number(id), Number(code)]
    case Pong(data) => [Bytes(data)]
  }

  /** The frame with first byte `t` and the given fields. The sequence number of a
      NEW_CONNECTION_ID frame is cut to 16 bits. */
  function Build(t: byte, vs: seq<Field>): Frame
    requires Layout(t).Some? && Shaped(vs, Layout(t).value)
  {
    if t == 0x00 then Padding(1 + vs[0].n)
    else if t == 0x01 then RstStream(vs[0].n, vs[1].n, vs[2].n)
    else if t == 0x02 then ConnectionClose(vs[0].n, vs[1].s)
    else if t == 0x03 then ApplicationClose(vs[0].n, vs[1].s)
    else if t == 0x04 then MaxData(vs[0].n)
    else if t == 0x05 then MaxStreamData(vs[0].n, vs[1].n)
    else if t == 0x06 then MaxStreamId(vs[0].n)
    else if t == 0x07 then Ping(vs[0].s)
    else if t == 0x08 then Blocked(vs[0].n)
    else if t == 0x09 then StreamBlocked(vs[0].n, vs[1].n)
    else if t == 0x0a then StreamIdBlocked(vs[0].n)
    else if t == 0x0b then NewConnectionId(vs[0].n % 0x1_0000, vs[1].n, vs[2].s)
    else if t == 0x0c then StopSending(vs[0].n, vs[1].n)
    else Pong(vs[0].s)
  }

  lemma FieldsShaped(f: Frame)
    requires Fits(f) && Plain(f)
    ensures Layout(Type(f)).Some? && Shaped(FieldsOf(f), Layout(Type(f)).value)
  {
    Powers();
  }

  lemma BuildFields(f: Frame)
    requires Fits(f) && Plain(f)
    ensures Layout(Type(f)).Some? && Shaped(FieldsOf(f), Layout(Type(f)).value)
    ensures Build(Type(f), FieldsOf(f)) == f
  {
    FieldsShaped(f);
  }

  /** What survives the wire: up to 255 blocks of an ACK and up to 255 bytes of PING and PONG. */
  predicate Lossless(f: Frame) {
    match f
    case AckFrame(a) => |a.blks| <= MAX_ACK_BLKS
    case Ping(data) => |data| < 256
    case Pong(data) => |data| < 256
    case _ => true
  }

  lemma BuildFits(t: byte, vs: seq<Field>, n: nat)
    requires Layout(t).Some? && Shaped(vs, Layout(t).value)
    requires forall i :: 0 <= i < |vs| ==> Small(vs[i], Layout(t).value[i], n)
    ensures Lossless(Build(t, vs)) && (IsVarint(n) ==> Fits(Build(t, vs)))
  {
    Powers();
  }

  function PutPlain(f: Frame): seq<byte>
    requires Fits(f) && Plain(f)
  {
    FieldsShaped(f);
    PutFields(FieldsOf(f), Layout(Type(f)).value)
  }

  function TakePlain(s: seq<byte>, t: byte): Option<Read<Frame>> {
    var ks :- Layout(t);
    var vs :- TakeFields(s, ks);
    TakeFieldsSound(s, ks);
    Some(Read(Build(t, vs.value), vs.rest))
  }

  lemma TakePlainIs(t: byte, s: seq<byte>, vs: seq<Field>, rest: seq<byte>)
    requires Layout(t).Some? && TakeFields(s, Layout(t).value) == Some(Read(vs, rest))
    ensures Shaped(vs, Layout(t).value)
    ensures TakePlain(s, t) == Some(Read(Build(t, vs), rest))
  {
    TakeFieldsSound(s, Layout(t).value);
  }

  lemma TakePlainSound(s: seq<byte>, t: byte)
    requires TakePlain(s, t).Some?
    ensures Suffix(TakePlain(s, t).value.rest, s)
    ensures Lossless(TakePlain(s, t).value.value) && (IsVarint(|s|) ==> Fits(TakePlain(s, t).value.value))
  {
    var ks := Layout(t).value;
    TakeFieldsSound(s, ks);
    BuildFits(t, TakeFields(s, ks).value.value, |s|);
  }

  lemma FieldsSendable(f: Frame, i: nat)
    requires Fits(f) && Plain(f) && !f.Padding? && Lossless(f) && i < |FieldsOf(f)|
    ensures Layout(Type(f)).Some? && Shaped(FieldsOf(f), Layout(Type(f)).value)
    ensures Sendable(FieldsOf(f)[i], Layout(Type(f)).value[i])
  {
    FieldsShaped(f);
  }

  lemma PlainRoundTrip(f: Frame, rest: seq<byte>)
    requires Fits(f) && Plain(f) && !f.Padding? && Lossless(f)
    ensures TakePlain(PutPlain(f) + rest, Type(f)) == Some(Read(f, rest))
  {
    FieldsShaped(f);
    var t, vs, ks := Type(f), FieldsOf(f), Layout(Type(f)).value;
    forall i | 0 <= i < |vs| ensures Sendable(vs[i], ks[i]) {
      FieldsSendable(f, i);
    }
    FieldsRoundTrip(vs, ks, rest);
    BuildFields(f);
    TakePlainIs(t, PutFields(vs, ks) + rest, vs, rest);
  }

  // All frames.

  /** What follows the first byte. */
  function Body(f: Frame): seq<byte>
    requires Fits(f)
  {
    match f
    case AckFrame(a) => PutAck(a)
    case StreamSegment(g) => PutStream(g)
    case _ => PutPlain(f)
  }

  function Encode(f: Frame): seq<byte>
    requires Fits(f)
  {
    [Type(f)] + Body(f)
  }

  function AsStream(r: Option<Read<Segment>>): Option<Read<Frame>> {
    var x :- r;
    Some(Read(StreamSegment(x.value), x.rest))
  }

  function AsAck(r: Option<Read<Ack>>): Option<Read<Frame>> {
    var x :- r;
    Some(Read(AckFrame(x.value), x.rest))
  }

  function TakeBody(s: seq<byte>, t: byte): Option<Read<Frame>> {
    if IsStreamType(t) then AsStream(TakeStream(s, t))
    else if IsAckType(t) then AsAck(TakeAck(s))
    else TakePlain(s, t)
  }

  function Decode(s: seq<byte>): Option<Read<Frame>> {
    if s == [] then None else TakeBody(s[1..], s[0])
  }

  lemma TakeBodySound(s: seq<byte>, t: byte)
    requires TakeBody(s, t).Some?
    ensures Suffix(TakeBody(s, t).value.rest, s)
    ensures Lossless(TakeBody(s, t).value.value) && (IsVarint(|s|) ==> Fits(TakeBody(s, t).value.value))
  {
    if IsStreamType(t) {
      TakeStreamSound(s, t);
    } else if IsAckType(t) {
      TakeAckSound(s);
    } else {
      TakePlainSound(s, t);
    }
  }

  /** Whatever is decoded, at least one byte is used up, what follows is left as it was, and the frame
      can be encoded again without loss. */
  lemma DecodeSound(s: seq<byte>)
    requires Decode(s).Some?
    ensures Suffix(Decode(s).value.rest, s) && |Decode(s).value.rest| < |s|
    ensures Lossless(Decode(s).value.value) && (IsVarint(|s|) ==> Fits(Decode(s).value.value))
  {
    TakeBodySound(s[1..], s[0]);
    SuffixTrans(Decode(s).value.rest, s[1..], s);
  }

  /** What the receiver makes of a single frame. */
  function Clipped(f: Frame): Frame {
    if f.AckFrame? then AckFrame(ClipAck(f.ack)) else f
  }

  /** The first byte selects the decoder. */
  lemma Dispatch(s: seq<byte>, t: byte)
    ensures IsStreamType(t) ==> TakeBody(s, t) == AsStream(TakeStream(s, t))
    ensures !IsStreamType(t) && IsAckType(t) ==> TakeBody(s, t) == AsAck(TakeAck(s))
    ensures !IsStreamType(t) && !IsAckType(t) ==> TakeBody(s, t) == TakePlain(s, t)
  {
  }

  lemma Types(f: Frame)
    ensures IsStreamType(Type(f)) <==> f.StreamSegment?
    ensures !f.StreamSegment? ==> (IsAckType(Type(f)) <==> f.AckFrame?)
  {
  }

  lemma AckBodyRoundTrip(f: Frame, rest: seq<byte>)
    requires Fits(f) && f.AckFrame?
    ensures AsAck(TakeAck(Body(f) + rest)) == Some(Read(Clipped(f), rest))
  {
    AckRoundTrip(f.ack, rest);
  }

  lemma StreamBodyRoundTrip(f: Frame, rest: seq<byte>)
    requires Fits(f) && f.StreamSegment?
    ensures AsStream(TakeStream(Body(f) + rest, Type(f))) == Some(Read(Clipped(f), rest))
  {
    StreamRoundTrip(f.segment, rest);
  }

  lemma BodyRoundTrip(f: Frame, rest: seq<byte>)
    requires Fits(f) && !f.Padding? && Lossless(Clipped(f))
    ensures TakeBody(Body(f) + rest, Type(f)) == Some(Read(Clipped(f), rest))
  {
    var t, s := Type(f), Body(f) + rest;
    Types(f);
    Dispatch(s, t);
    if f.StreamSegment? {
      StreamBodyRoundTrip(f, rest);
    } else if f.AckFrame? {
      AckBodyRoundTrip(f, rest);
    } else {
      PlainRoundTrip(f, rest);
    }
  }

  lemma DecodeTyped(t: byte, s: seq<byte>, rest: seq<byte>)
    ensures Decode([t] + s + rest) == TakeBody(s + rest, t)
  {
    assert ([t] + s + rest)[1..] == s + rest;
  }

  /** Decoding gives back every frame that is not padding, with an ACK cut to 255 blocks. */
  lemma FrameRoundTrip(f: Frame, rest: seq<byte>)
    requires Fits(f) && !f.Padding? && Lossless(Clipped(f))
    ensures Decode(Encode(f) + rest) == Some(Read(Clipped(f), rest))
  {
    DecodeTyped(Type(f), Body(f), rest);
    BodyRoundTrip(f, rest);
  }

  lemma {:induction false} ZeroRunPrefix(n: nat, s: seq<byte>)
    ensures ZeroRun(Zeros(n) + s) == n + ZeroRun(s)
    ensures (Zeros(n) + s)[n + ZeroRun(s)..] == s[ZeroRun(s)..]
  {
    if n == 0 {
      assert Zeros(n) + s == s;
    } else {
      ZeroRunPrefix(n - 1, s);
      assert (Zeros(n) + s)[1..] == Zeros(n - 1) + s;
    }
  }

  lemma TakePadding(s: seq<byte>, t: byte)
    requires t == 0
    ensures TakePlain(s, t) == Some(Read(Padding(1 + ZeroRun(s)), s[ZeroRun(s)..]))
  {
    var ks := [Run];
    assert Layout(t) == Some(ks);
    assert TakeFields(s, ks).value.value == [Number(ZeroRun(s))];
    TakePlainIs(t, s, [Number(ZeroRun(s))], s[ZeroRun(s)..]);
  }

  lemma ZeroRunStep(s: seq<byte>)
    requires s != [] && s[0] == 0
    ensures ZeroRun(s) == 1 + ZeroRun(s[1..]) && s[1..][ZeroRun(s[1..])..] == s[ZeroRun(s)..]
  {
  }

  lemma DecodeTail(s: seq<byte>, t: byte, tail: seq<byte>)
    requires s != [] && s[0] == t && s[1..] == tail && !IsStreamType(t) && !IsAckType(t)
    ensures Decode(s) == TakePlain(tail, t)
  {
    Dispatch(tail, t);
  }

  lemma DecodeZeros(s: seq<byte>)
    requires s != [] && s[0] == 0
    ensures Decode(s) == Some(Read(Padding(ZeroRun(s)), s[ZeroRun(s)..]))
  {
    DecodeTail(s, s[0], s[1..]);
    TakePadding(s[1..], s[0]);
    ZeroRunStep(s);
  }

  lemma EncodePadding(n: nat)
    requires n > 0
    ensures Encode(Padding(n)) == Zeros(n)
  {
    FieldsShaped(Padding(n));
    assert PutFields([Number(n - 1)], [Run]) == Zeros(n - 1);
  }

  /** Padding joins with the zero bytes that follow it. */
  lemma PaddingRoundTrip(n: nat, rest: seq<byte>)
    requires n > 0
    ensures Decode(Encode(Padding(n)) + rest) == Some(Read(Padding(n + ZeroRun(rest)), rest[ZeroRun(rest)..]))
  {
    EncodePadding(n);
    ZerosFirst(n, Encode(Padding(n)) + rest, rest);
  }

  lemma ZerosFirst(n: nat, s: seq<byte>, rest: seq<byte>)
    requires n > 0 && s == Zeros(n) + rest
    ensures Decode(s) == Some(Read(Padding(n + ZeroRun(rest)), rest[ZeroRun(rest)..]))
  {
    ZeroRunPrefix(n, rest);
    DecodeZeros(s);
  }

  /** A frame comes back as it was, with everything behind it untouched, exactly when it is lossless
      and is not padding followed by a zero byte. */
  lemma ExactRoundTrip(f: Frame, rest: seq<byte>)
    requires Fits(f)
    ensures Decode(Encode(f) + rest) == Some(Read(f, rest))
       <==> Lossless(f) && (f.Padding? ==> rest == [] || rest[0] != 0)
  {
    if f.Padding? {
      PaddingRoundTrip(f.len, rest);
    } else if Lossless(Clipped(f)) {
      FrameRoundTrip(f, rest);
    } else {
      LongPing(f, rest);
    }
  }

  /** The length byte of PING and PONG can only announce 255 bytes, whatever follows. */
  lemma LongPing(f: Frame, rest: seq<byte>)
    requires Fits(f) && !f.AckFrame? && !Lossless(f)
    ensures Decode(Encode(f) + rest) != Some(Read(f, rest))
  {
    var s := Encode(f) + rest;
    if Decode(s).Some? {
      DecodeSound(s);
    }
  }
}
