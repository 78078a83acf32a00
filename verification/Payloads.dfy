/** Whole payloads: the frames of a packet written one after the other, and the receive loop that
    takes them off again (Polygon/lib/ngtcp2_conn.c:3597-3604). */
module Payloads {
  import opened Basics
  import opened Wire
  import opened AckFrames
  import opened Fields
  import opened DataFrames
  import opened Frames

  /** The length that each encoder works out before it writes. */
  function EncodedLen(f: Frame): nat {
    match f
    case Padding(n) => n
    case RstStream(id, _, final) => 1 + VarintLen(id) + 2 + VarintLen(final)
    case ConnectionClose(_, reason) => 1 + 2 + VarintLen(|reason|) + |reason|
    case ApplicationClose(_, reason) => 1 + 2 + VarintLen(|reason|) + |reason|
    case MaxData(n) => 1 + VarintLen(n)
    case MaxStreamData(id, n) => 1 + VarintLen(id) + VarintLen(n)
    case MaxStreamId(id) => 1 + VarintLen(id)
    case Ping(data) => 1 + 1 + |data|
    case Blocked(n) => 1 + VarintLen(n)
    case StreamBlocked(id, n) => 1 + VarintLen(id) + VarintLen(n)
    case StreamIdBlocked(id) => 1 + VarintLen(id)
    case NewConnectionId(n, _, _) => 1 + VarintLen(n) + 8 + TOKEN_LEN
    case StopSending(id, _) => 1 + VarintLen(id) + 2
    case Pong(data) => 1 + 1 + |data|
    case AckFrame(a) =>
      1 + VarintLen(a.largest) + VarintLen(a.delay) + VarintLen(|a.blks|) + VarintLen(a.firstLen) + PairsLen(a.blks)
    case StreamSegment(g) =>
      1 + (if g.offset != 0 then VarintLen(g.offset) else 0) + VarintLen(g.id) + VarintLen(|g.data|) + |g.data|
  }

  function PairsLen(blks: seq<Block>): nat {
    if blks == [] then 0 else VarintLen(blks[0].gap) + VarintLen(blks[0].len) + PairsLen(blks[1..])
  }

  lemma {:induction false} PairsLenIs(blks: seq<Block>)
    requires BlocksFit(blks)
    ensures |PutPairs(blks)| == PairsLen(blks)
  {
    if blks != [] {
      PairsLenIs(blks[1..]);
    }
  }

  function FieldLen(v: Field, k: Kind): nat {
    match v
    case Number(n) => if k.Varint? then VarintLen(n) else if k.Uint? then k.width else n
    case Bytes(s) => |s| + (if k.Text? then VarintLen(|s|) else if k.ShortText? then 1 else 0)
  }

  function FieldsLen(vs: seq<Field>, ks: seq<Kind>): nat
    requires |vs| == |ks|
  {
    if vs == [] then 0 else FieldLen(vs[0], ks[0]) + FieldsLen(vs[1..], ks[1..])
  }

  lemma {:induction false} FieldsLenIs(vs: seq<Field>, ks: seq<Kind>)
    requires Shaped(vs, ks)
    ensures |PutFields(vs, ks)| == FieldsLen(vs, ks)
  {
    if vs != [] {
      FieldsLenIs(vs[1..], ks[1..]);
    }
  }

  lemma UpToThree(vs: seq<Field>, ks: seq<Kind>)
    requires |vs| == |ks|
    ensures |vs| == 1 ==> FieldsLen(vs, ks) == FieldLen(vs[0], ks[0])
    ensures |vs| == 2 ==> FieldsLen(vs, ks) == FieldLen(vs[0], ks[0]) + FieldLen(vs[1], ks[1])
    ensures |vs| == 3 ==>
      FieldsLen(vs, ks) == FieldLen(vs[0], ks[0]) + FieldLen(vs[1], ks[1]) + FieldLen(vs[2], ks[2])
  {
    if |vs| == 3 {
      UpToThree(vs[1..], ks[1..]);
    }
  }

  /** Every encoder writes exactly the number of bytes it worked out. */
  lemma EncodedLenIs(f: Frame)
    requires Fits(f)
    ensures |Encode(f)| == EncodedLen(f)
  {
    match f
    case AckFrame(a) => PairsLenIs(a.blks);
    case StreamSegment(_) =>
    case _ => PlainLen(f);
  }

  lemma PlainLen(f: Frame)
    requires Fits(f) && Plain(f)
    ensures 1 + |PutPlain(f)| == EncodedLen(f)
  {
    FieldsShaped(f);
    FieldsLenIs(FieldsOf(f), Layout(Type(f)).value);
    LayoutLen(f);
  }

  lemma LayoutLen(f: Frame)
    requires Fits(f) && Plain(f) && Layout(Type(f)).Some? && |FieldsOf(f)| == |Layout(Type(f)).value|
    ensures 1 + FieldsLen(FieldsOf(f), Layout(Type(f)).value) == EncodedLen(f)
  {
    UpToThree(FieldsOf(f), Layout(Type(f)).value);
  }

  // The receive loop, for any decoder that makes progress.

  /** The frames handled before the payload ends or a frame is malformed. */
  datatype Parsed = Parsed(frames: seq<Frame>, complete: bool)

  type Decoder = seq<byte> -> Option<Read<Frame>>

  ghost predicate Progresses(d: Decoder) {
    forall s: seq<byte> :: d(s).Some? ==> |d(s).value.rest| < |s|
  }

  function ReadAll(d: Decoder, s: seq<byte>): Parsed
    requires Progresses(d)
    decreases |s|
  {
    if s == [] then Parsed([], true)
    else if d(s).None? then Parsed([], false)
    else
      var p := ReadAll(d, d(s).value.rest);
      Parsed([d(s).value.value] + p.frames, p.complete)
  }

  /** What the receiver makes of a list of frames: padding next to padding is one frame, and an ACK
      is cut to 255 blocks. */
  function Received(fs: seq<Frame>): (r: seq<Frame>)
    ensures |r| <= |fs|
  {
    if fs == [] then [] else Prepend(fs[0], Received(fs[1..]))
  }

  function Prepend(f: Frame, r: seq<Frame>): (r': seq<Frame>)
    ensures 1 <= |r'| <= |r| + 1 && (r'[0].Padding? <==> f.Padding?)
  {
    if f.Padding? && r != [] && r[0].Padding? then [Padding(f.len + r[0].len)] + r[1..]
    else [Clipped(f)] + r
  }

  ghost predicate JoinsZeros(d: Decoder) {
    forall s: seq<byte> :: s != [] && s[0] == 0 ==> d(s) == Some(Read(Padding(ZeroRun(s)), s[ZeroRun(s)..]))
  }

  /** Decoder `d` takes the bytes `e` for frame `f`. */
  ghost predicate Stands(d: Decoder, e: seq<byte>, f: Frame) {
    if f.Padding? then f.len > 0 && e == Zeros(f.len)
    else e != [] && e[0] != 0 && forall rest: seq<byte> :: d(e + rest) == Some(Read(Clipped(f), rest))
  }

  ghost predicate AllStand(d: Decoder, es: seq<seq<byte>>, fs: seq<Frame>) {
    |es| == |fs| && forall i :: 0 <= i < |es| ==> Stands(d, es[i], fs[i])
  }

  function Concat(es: seq<seq<byte>>): seq<byte> {
    if es == [] then [] else es[0] + Concat(es[1..])
  }

  /** Only padding starts with a zero byte. */
  lemma StartsWithZero(d: Decoder, es: seq<seq<byte>>, fs: seq<Frame>)
    requires AllStand(d, es, fs) && es != []
    ensures Concat(es) != [] && (Concat(es)[0] == 0 <==> fs[0].Padding?)
  {
    assert Stands(d, es[0], fs[0]);
  }

  lemma PaddingApart(d: Decoder, n: nat, rest: seq<byte>, r: seq<Frame>)
    requires Progresses(d) && JoinsZeros(d) && ReadAll(d, rest) == Parsed(r, true)
    requires n > 0 && (rest == [] || rest[0] != 0)
    ensures ReadAll(d, Zeros(n) + rest) == Parsed([Padding(n)] + r, true)
  {
    ZeroRunPrefix(n, rest);
  }

  lemma PaddingJoined(d: Decoder, n: nat, rest: seq<byte>, r: seq<Frame>)
    requires Progresses(d) && JoinsZeros(d) && ReadAll(d, rest) == Parsed(r, true)
    requires n > 0 && rest != [] && rest[0] == 0
    ensures r != [] && r[0].Padding? && ReadAll(d, Zeros(n) + rest) == Parsed([Padding(n + r[0].len)] + r[1..], true)
  {
    var z := ZeroRun(rest);
    var tail := ReadAll(d, rest[z..]);
    ReadZeros(d, rest, z, rest[z..]);
    assert r == [Padding(z)] + tail.frames;
    ZeroRunPrefix(n, rest);
    ReadZeros(d, Zeros(n) + rest, n + z, rest[z..]);
  }

  /** A run of zeros is read as one padding. */
  lemma ReadZeros(d: Decoder, s: seq<byte>, n: nat, rest: seq<byte>)
    requires Progresses(d) && JoinsZeros(d) && s != [] && s[0] == 0 && ZeroRun(s) == n && s[n..] == rest
    ensures ReadAll(d, s) == Parsed([Padding(n)] + ReadAll(d, rest).frames, ReadAll(d, rest).complete)
  {
  }

  lemma PrependPadding(n: nat, r: seq<Frame>)
    ensures Prepend(Padding(n), r) ==
      if r != [] && r[0].Padding? then [Padding(n + r[0].len)] + r[1..] else [Padding(n)] + r
  {
  }

  lemma PaddingFirst(d: Decoder, n: nat, rest: seq<byte>, r: seq<Frame>)
    requires Progresses(d) && JoinsZeros(d) && ReadAll(d, rest) == Parsed(r, true) && n > 0
    requires rest != [] && rest[0] == 0 <==> r != [] && r[0].Padding?
    ensures ReadAll(d, Zeros(n) + rest) == Parsed(Prepend(Padding(n), r), true)
  {
    if rest != [] && rest[0] == 0 {
      PrependPadding(n, r);
      PaddingJoined(d, n, rest, r);
    } else {
      PrependPadding(n, r);
      PaddingApart(d, n, rest, r);
    }
  }

  lemma FrameFirst(d: Decoder, e: seq<byte>, f: Frame, rest: seq<byte>, r: seq<Frame>)
    requires Progresses(d) && ReadAll(d, rest) == Parsed(r, true)
    requires !f.Padding? && Stands(d, e, f)
    ensures ReadAll(d, e + rest) == Parsed(Prepend(f, r), true)
  {
    assert d(e + rest) == Some(Read(Clipped(f), rest));
  }

  lemma {:induction false} LoopRoundTrip(d: Decoder, es: seq<seq<byte>>, fs: seq<Frame>)
    requires Progresses(d) && JoinsZeros(d) && AllStand(d, es, fs)
    ensures ReadAll(d, Concat(es)) == Parsed(Received(fs), true)
    decreases |es|
  {
    if es != [] {
      var rest, r := Concat(es[1..]), Received(fs[1..]);
      LoopRoundTrip(d, es[1..], fs[1..]);
      assert Stands(d, es[0], fs[0]);
      if |es| > 1 {
        StartsWithZero(d, es[1..], fs[1..]);
      }
      if fs[0].Padding? {
        PaddingFirst(d, fs[0].len, rest, r);
      } else {
        FrameFirst(d, es[0], fs[0], rest, r);
      }
    }
  }

  // The receive loop with the frame decoder.

  predicate AllSendable(fs: seq<Frame>) {
    forall i :: 0 <= i < |fs| ==> Fits(fs[i]) && Lossless(Clipped(fs[i]))
  }

  function Encodings(fs: seq<Frame>): seq<seq<byte>>
    requires AllSendable(fs)
  {
    seq(|fs|, i requires 0 <= i < |fs| => Encode(fs[i]))
  }

  function EncodeAll(fs: seq<Frame>): seq<byte>
    requires AllSendable(fs)
  {
    Concat(Encodings(fs))
  }

  lemma DecodeProgresses()
    ensures Progresses(Decode)
  {
    forall s: seq<byte> | Decode(s).Some? ensures |Decode(s).value.rest| < |s| {
      DecodeSound(s);
    }
  }

  lemma DecodeJoinsZeros()
    ensures JoinsZeros(Decode)
  {
    forall s: seq<byte> | s != [] && s[0] == 0
      ensures Decode(s) == Some(Read(Padding(ZeroRun(s)), s[ZeroRun(s)..]))
    {
      DecodeZeros(s);
    }
  }

  lemma EncodeStands(f: Frame)
    requires Fits(f) && Lossless(Clipped(f))
    ensures Stands(Decode, Encode(f), f)
  {
    if f.Padding? {
      EncodePadding(f.len);
    } else {
      forall rest: seq<byte> ensures Decode(Encode(f) + rest) == Some(Read(Clipped(f), rest)) {
        FrameRoundTrip(f, rest);
      }
      NonZeroType(f);
    }
  }

  lemma NonZeroType(f: Frame)
    requires Fits(f) && !f.Padding?
    ensures Encode(f) != [] && Encode(f)[0] != 0
  {
  }

  function DecodeAll(s: seq<byte>): Parsed {
    DecodeProgresses();
    ReadAll(Decode, s)
  }

  /** The receive loop gives back every list of frames, up to joined padding and cut ACKs. */
  lemma PayloadRoundTrip(fs: seq<Frame>)
    requires AllSendable(fs)
    ensures DecodeAll(EncodeAll(fs)) == Parsed(Received(fs), true)
  {
    DecodeProgresses();
    DecodeJoinsZeros();
    forall i | 0 <= i < |fs| ensures Stands(Decode, Encodings(fs)[i], fs[i]) {
      EncodeStands(fs[i]);
    }
    LoopRoundTrip(Decode, Encodings(fs), fs);
  }

  ghost predicate NoAdjacentPadding(fs: seq<Frame>) {
    forall i :: 0 < i < |fs| ==> !(fs[i - 1].Padding? && fs[i].Padding?)
  }

  /** The list comes back unchanged exactly when no two paddings are adjacent and no ACK has more
      than 255 blocks. */
  lemma {:induction false} ReceivedExact(fs: seq<Frame>)
    ensures Received(fs) == fs <==> NoAdjacentPadding(fs) && forall i :: 0 <= i < |fs| ==> Clipped(fs[i]) == fs[i]
  {
    if fs != [] {
      ReceivedExact(fs[1..]);
    }
  }
}
