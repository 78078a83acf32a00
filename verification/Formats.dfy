/** The bytes of every frame, written out field by field, and what a receiver makes of first bytes and of
    frames that are cut short (Polygon/lib/ngtcp2_pkt.c). */
module Formats {
  import opened Basics
  import opened Numbers
  import opened Wire
  import opened AckFrames
  import opened Fields
  import opened DataFrames
  import opened Frames

  // ---------- the bytes ----------

  function Blocks(blks: seq<Block>): seq<byte>
    requires BlocksFit(blks)
  {
    if blks == [] then []
    else
      var n := |blks| - 1;
      Blocks(blks[..n]) + PutVarint(blks[n].gap) + PutVarint(blks[n].len)
  }

  lemma {:induction false} BlocksAre(blks: seq<Block>)
    requires BlocksFit(blks)
    ensures PutPairs(blks) == Blocks(blks)
    decreases |blks|
  {
    if |blks| > 0 {
      var n := |blks| - 1;
      BlocksAre(blks[..n]);
      PairsLast(blks[..n], blks[n]);
      assert blks[..n] + [blks[n]] == blks;
    }
  }

  lemma {:induction false} PairsLast(blks: seq<Block>, b: Block)
    requires BlocksFit(blks) && BlockFits(b)
    ensures BlocksFit(blks + [b])
    ensures PutPairs(blks + [b]) == PutPairs(blks) + PutVarint(b.gap) + PutVarint(b.len)
    decreases |blks|
  {
    if blks == [] {
      assert blks + [b] == [b] && [b][1..] == [];
    } else {
      PairsLast(blks[1..], b);
      assert (blks + [b])[1..] == blks[1..] + [b];
      var first := PutVarint(blks[0].gap) + PutVarint(blks[0].len);
      AssocFour(first, PutPairs(blks[1..]), PutVarint(b.gap), PutVarint(b.len));
    }
  }

  lemma AssocFour(a: seq<byte>, b: seq<byte>, c: seq<byte>, d: seq<byte>)
    ensures a + (b + c + d) == a + b + c + d
  {
  }

  /** The first byte of a STREAM frame: 0x10, the end 0x01, a length 0x02, an offset 0x04. */
  function StreamBytes(g: Segment): seq<byte>
    requires SegmentFits(g)
  {
    var first: byte := if g.fin then (if g.offset == 0 then 0x13 else 0x17) else if g.offset == 0 then 0x12 else 0x16;
    var offset := if g.offset == 0 then [] else PutVarint(g.offset);
    [first] + (PutVarint(g.id) + (offset + (PutVarint(|g.data|) + g.data)))
  }

  function AckBytes(a: Ack): seq<byte>
    requires AckFits(a)
  {
    [0x0e] + (PutVarint(a.largest) + (PutVarint(a.delay) +
      (PutVarint(|a.blks|) + (PutVarint(a.firstLen) + Blocks(a.blks)))))
  }

  /** Each frame on the wire. */
  function BytesOf(f: Frame): seq<byte>
    requires Frames.Fits(f)
  {
    Powers();
    match f
    case Padding(n) => Zeros(n)
    case RstStream(id, code, final) => [0x01] + (PutVarint(id) + PutUint(code, 2) + PutVarint(final))
    case ConnectionClose(code, reason) => [0x02] + (PutUint(code, 2) + (PutVarint(|reason|) + reason))
    case ApplicationClose(code, reason) => [0x03] + (PutUint(code, 2) + (PutVarint(|reason|) + reason))
    case MaxData(n) => [0x04] + PutVarint(n)
    case MaxStreamData(id, n) => [0x05] + (PutVarint(id) + PutVarint(n))
    case MaxStreamId(id) => [0x06] + PutVarint(id)
    case Ping(data) => [0x07] + ([(|data| % 256) as byte] + data)
    case Blocked(n) => [0x08] + PutVarint(n)
    case StreamBlocked(id, n) => [0x09] + (PutVarint(id) + PutVarint(n))
    case StreamIdBlocked(id) => [0x0a] + PutVarint(id)
    case NewConnectionId(n, connId, token) => [0x0b] + (PutVarint(n) + PutUint(connId, 8) + token)
    case StopSending(id, code) => [0x0c] + (PutVarint(id) + PutUint(code, 2))
    case Pong(data) => [0x0d] + ([(|data| % 256) as byte] + data)
    case AckFrame(a) => AckBytes(a)
    case StreamSegment(g) => StreamBytes(g)
  }

  lemma OneField(v: Field, k: Kind)
    requires Shape(v, k)
    ensures Shaped([v], [k]) && PutFields([v], [k]) == PutField(v, k)
  {
    assert [v][1..] == [] && [k][1..] == [];
  }

  lemma TwoFields(v: Field, k: Kind, w: Field, l: Kind)
    requires Shape(v, k) && Shape(w, l)
    ensures Shaped([v, w], [k, l]) && PutFields([v, w], [k, l]) == PutField(v, k) + PutField(w, l)
  {
    assert [v, w][1..] == [w] && [k, l][1..] == [l];
    OneField(w, l);
  }

  lemma ThreeFields(v: Field, k: Kind, w: Field, l: Kind, x: Field, m: Kind)
    requires Shape(v, k) && Shape(w, l) && Shape(x, m)
    ensures Shaped([v, w, x], [k, l, m])
    ensures PutFields([v, w, x], [k, l, m]) == PutField(v, k) + PutField(w, l) + PutField(x, m)
  {
    assert [v, w, x][1..] == [w, x] && [k, l, m][1..] == [l, m];
    TwoFields(w, l, x, m);
    Assoc(PutField(v, k), PutField(w, l), PutField(x, m));
  }

  // The frames that are a fixed list of fields, by how many there are.

  lemma OneFieldBytes(f: Frame)
    requires Frames.Fits(f)
    requires f.MaxData? || f.MaxStreamId? || f.Blocked? || f.StreamIdBlocked? || f.Ping? || f.Pong?
    ensures Frames.Encode(f) == BytesOf(f)
  {
    match f
    case MaxData(n) => OneField(Number(n), Varint);
    case MaxStreamId(id) => OneField(Number(id), Varint);
    case Blocked(n) => OneField(Number(n), Varint);
    case StreamIdBlocked(id) => OneField(Number(id), Varint);
    case Ping(data) => OneField(Bytes(data), ShortText);
    case Pong(data) => OneField(Bytes(data), ShortText);
  }

  lemma TwoFieldBytes(f: Frame)
    requires Frames.Fits(f)
    requires f.ConnectionClose? || f.ApplicationClose? || f.MaxStreamData? || f.StreamBlocked? || f.StopSending?
    ensures Frames.Encode(f) == BytesOf(f)
  {
    Powers();
    match f
    case ConnectionClose(code, reason) => TwoFields(Number(code), Uint(2), Bytes(reason), Text);
    case ApplicationClose(code, reason) => TwoFields(Number(code), Uint(2), Bytes(reason), Text);
    case MaxStreamData(id, n) => TwoFields(Number(id), Varint, Number(n), Varint);
    case StreamBlocked(id, n) => TwoFields(Number(id), Varint, Number(n), Varint);
    case StopSending(id, code) => TwoFields(Number(id), Varint, Number(code), Uint(2));
  }

  lemma ThreeFieldBytes(f: Frame)
    requires Frames.Fits(f) && (f.RstStream? || f.NewConnectionId?)
    ensures Frames.Encode(f) == BytesOf(f)
  {
    Powers();
    match f
    case RstStream(id, code, final) => ThreeFields(Number(id), Varint, Number(code), Uint(2), Number(final), Varint);
    case NewConnectionId(n, connId, token) =>
      ThreeFields(Number(n), Varint, Number(connId), Uint(8), Bytes(token), Raw(TOKEN_LEN));
  }

  lemma AckIs(a: Ack)
    requires AckFits(a)
    ensures [0x0e] + PutAck(a) == AckBytes(a)
  {
    BlocksAre(a.blks);
  }

  lemma StreamIs(g: Segment)
    requires SegmentFits(g)
    ensures [StreamType(g)] + PutStream(g) == StreamBytes(g)
  {
  }

  /** Every frame is encoded as listed. */
  lemma FrameBytes(f: Frame)
    requires Frames.Fits(f)
    ensures Frames.Encode(f) == BytesOf(f)
  {
    match f
    case Padding(n) => EncodePadding(n);
    case AckFrame(a) => AckIs(a);
    case StreamSegment(g) => StreamIs(g);
    case RstStream(_, _, _) => ThreeFieldBytes(f);
    case NewConnectionId(_, _, _) => ThreeFieldBytes(f);
    case ConnectionClose(_, _) => TwoFieldBytes(f);
    case ApplicationClose(_, _) => TwoFieldBytes(f);
    case MaxStreamData(_, _) => TwoFieldBytes(f);
    case StreamBlocked(_, _) => TwoFieldBytes(f);
    case StopSending(_, _) => TwoFieldBytes(f);
    case _ => OneFieldBytes(f);
  }

  /** And such bytes are decoded as the frame, with an ACK cut to its first 255 blocks. */
  lemma BytesDecoded(f: Frame, rest: seq<byte>)
    requires Frames.Fits(f) && !f.Padding? && Lossless(Clipped(f))
    ensures Frames.Decode(BytesOf(f) + rest) == Some(Read(Clipped(f), rest))
  {
    FrameBytes(f);
    FrameRoundTrip(f, rest);
  }

  // ---------- first bytes ----------

  /** A number by its bits, the lowest first. */
  function Value(b: seq<bool>): nat {
    if b == [] then 0 else (if b[0] then 1 else 0) + 2 * Value(b[1..])
  }

  lemma Half(b: seq<bool>)
    requires b != []
    ensures Value(b) / 2 == Value(b[1..]) && (Value(b) % 2 == 1 <==> b[0])
  {
  }

  lemma {:induction false} ValueBelow(b: seq<bool>)
    ensures Value(b) < Pow2(|b|)
  {
    if b != [] {
      ValueBelow(b[1..]);
    }
  }

  /** A byte by its bits. */
  function Bits(b: seq<bool>): byte
    requires |b| == 8
  {
    ValueBelow(b);
    Eight();
    Value(b) as byte
  }

  lemma Eight()
    ensures Pow2(8) == 256
  {
    assert Pow2(4) == 16;
  }

  function BitsOf(n: nat, k: nat): (b: seq<bool>)
    ensures |b| == k
  {
    if k == 0 then [] else [n % 2 == 1] + BitsOf(n / 2, k - 1)
  }

  lemma {:induction false} BitsBack(n: nat, k: nat)
    requires n < Pow2(k)
    ensures Value(BitsOf(n, k)) == n
  {
    if k > 0 {
      BitsBack(n / 2, k - 1);
      assert BitsOf(n, k)[1..] == BitsOf(n / 2, k - 1);
    }
  }

  /** Every byte is given by its bits. */
  lemma AllBytes(t: byte)
    ensures Bits(BitsOf(t as nat, 8)) == t
  {
    Eight();
    BitsBack(t as nat, 8);
  }

  /** Bit 4 of the first byte marks STREAM, with bits 0, 1 and 2 for end, length and offset; otherwise bits
      1, 2 and 3 together mark ACK. */
  lemma FirstBits(b: seq<bool>)
    requires |b| == 8
    ensures IsStreamType(Bits(b)) <==> b[4]
    ensures HasFin(Bits(b)) <==> b[0]
    ensures HasLength(Bits(b)) <==> b[1]
    ensures HasOffset(Bits(b)) <==> b[2]
    ensures IsAckType(Bits(b)) <==> b[1] && b[2] && b[3]
  {
    var n := Value(b);
    Drops(b);
    Half(b);
    Half(b[1..]);
    Half(b[2..]);
    Half(b[3..]);
    Half(b[4..]);
    Halved(n);
    assert Bits(b) as nat == n;
    ByteParts(Bits(b));
  }

  lemma Drops(b: seq<bool>)
    requires |b| == 8
    ensures b[1..][1..] == b[2..] && b[2..][1..] == b[3..] && b[3..][1..] == b[4..]
    ensures b[1..][0] == b[1] && b[2..][0] == b[2] && b[3..][0] == b[3] && b[4..][0] == b[4]
  {
  }

  lemma Halved(n: nat)
    ensures n / 2 / 2 == n / 4 && n / 4 / 2 == n / 8 && n / 8 / 2 == n / 16
    ensures n / 2 % 8 == n / 2 % 2 + 2 * (n / 4 % 2) + 4 * (n / 8 % 2)
  {
    HalfTwo(n);
    HalfFour(n);
    HalfEight(n);
    LowThree(n / 2);
  }

  lemma HalfTwo(n: nat)
    ensures n / 2 / 2 == n / 4
  {
  }

  lemma HalfFour(n: nat)
    ensures n / 4 / 2 == n / 8
  {
  }

  lemma HalfEight(n: nat)
    ensures n / 8 / 2 == n / 16
  {
  }

  lemma LowThree(q: nat)
    ensures q % 8 == q % 2 + 2 * (q / 2 % 2) + 4 * (q / 2 / 2 % 2)
  {
  }

  lemma ByteParts(t: byte)
    ensures (t / 16) as nat == t as nat / 16 && (t / 4) as nat == t as nat / 4 && (t / 2) as nat == t as nat / 2
    ensures (t % 2) as nat == t as nat % 2 && (t / 2 % 8) as nat == t as nat / 2 % 8
  {
  }

  /** A STREAM frame in each of its forms: the offset is 0 and the data is all that follows where the
      first byte says so. */
  lemma StreamForms(b: seq<bool>, id: nat, offset: nat, data: seq<byte>, rest: seq<byte>)
    requires |b| == 8 && b[4] && IsVarint(id) && IsVarint(offset) && IsVarint(|data|)
    ensures var o := if b[2] then PutVarint(offset) else [];
            var d := if b[1] then PutVarint(|data|) + data + rest else data;
            Frames.Decode([Bits(b)] + (PutVarint(id) + (o + d))) ==
            Some(Read(StreamSegment(Segment(id, if b[2] then offset else 0, b[0], data)), if b[1] then rest else []))
  {
    FirstBits(b);
    StreamParts(Bits(b), id, offset, data, rest);
    var o := if b[2] then PutVarint(offset) else [];
    var s := PutVarint(id) + (o + if b[1] then PutVarint(|data|) + data + rest else data);
    assert ([Bits(b)] + s)[1..] == s;
  }

  lemma StreamParts(t: byte, id: nat, offset: nat, data: seq<byte>, rest: seq<byte>)
    requires IsVarint(id) && IsVarint(offset) && IsVarint(|data|)
    ensures var o := if HasOffset(t) then PutVarint(offset) else [];
            var d := if HasLength(t) then PutVarint(|data|) + data + rest else data;
            TakeStream(PutVarint(id) + (o + d), t) ==
            Some(Read(Segment(id, if HasOffset(t) then offset else 0, HasFin(t), data),
                      if HasLength(t) then rest else []))
  {
    var o := if HasOffset(t) then PutVarint(offset) else [];
    var d := if HasLength(t) then PutVarint(|data|) + data + rest else data;
    TakeVarintPut(id, o + d);
    if HasOffset(t) {
      TakeVarintPut(offset, d);
    } else {
      assert o + d == d;
    }
    if HasLength(t) {
      TakeTextPut(data, rest);
    }
  }

  /** What is neither STREAM nor ACK is known by its whole first byte, from 0x00 to 0x0d. */
  lemma UnknownFirst(s: seq<byte>, b: seq<bool>)
    requires |b| == 8 && s != [] && s[0] == Bits(b) && s[0] > 0x0d && !b[4] && !(b[1] && b[2] && b[3])
    ensures Frames.Decode(s).None?
  {
    FirstBits(b);
    Dispatch(s[1..], s[0]);
    HighTypes(s[0]);
  }

  lemma HighTypes(t: byte)
    requires t > 0x0d
    ensures Layout(t).None?
  {
  }

  // ---------- frames cut short ----------

  /** Behind what a decoder takes, more bytes change nothing. */
  ghost predicate Extends<T>(now: Option<Read<T>>, more: Option<Read<T>>, t: seq<byte>) {
    now.Some? ==> more == Some(Read(now.value.value, now.value.rest + t))
  }

  lemma BytesMore(s: seq<byte>, k: nat, t: seq<byte>)
    ensures Extends(TakeBytes(s, k), TakeBytes(s + t, k), t)
    ensures Extends(TakeUint(s, k), TakeUint(s + t, k), t)
  {
    if |s| >= k {
      assert (s + t)[..k] == s[..k] && (s + t)[k..] == s[k..] + t;
    }
  }

  lemma VarintMore(s: seq<byte>, t: seq<byte>)
    ensures Extends(TakeVarint(s), TakeVarint(s + t), t)
  {
    if TakeVarint(s).Some? {
      var k := Width(s[0] as nat / 64);
      assert (s + t)[1..k] == s[1..k] && (s + t)[k..] == s[k..] + t;
    }
  }

  lemma TextMore(s: seq<byte>, t: seq<byte>)
    ensures Extends(TakeText(s), TakeText(s + t), t)
  {
    VarintMore(s, t);
    if TakeVarint(s).Some? {
      BytesMore(TakeVarint(s).value.rest, TakeVarint(s).value.value, t);
    }
  }

  lemma ShortTextMore(s: seq<byte>, t: seq<byte>)
    ensures Extends(TakeShortText(s), TakeShortText(s + t), t)
  {
    if s != [] {
      assert (s + t)[1..] == s[1..] + t;
      BytesMore(s[1..], s[0] as nat, t);
    }
  }

  lemma FieldMore(s: seq<byte>, k: Kind, t: seq<byte>)
    requires !k.Run?
    ensures Extends(TakeField(s, k), TakeField(s + t, k), t)
  {
    match k
    case Varint => VarintMore(s, t);
    case Uint(w) => BytesMore(s, w, t);
    case Text => TextMore(s, t);
    case ShortText => ShortTextMore(s, t);
    case Raw(size) => BytesMore(s, size, t);
  }

  lemma {:induction false} FieldsMore(s: seq<byte>, ks: seq<Kind>, t: seq<byte>)
    requires forall i :: 0 <= i < |ks| ==> !ks[i].Run?
    ensures Extends(TakeFields(s, ks), TakeFields(s + t, ks), t)
    decreases |ks|
  {
    if ks != [] && TakeFields(s, ks).Some? {
      FieldMore(s, ks[0], t);
      FieldsMore(TakeField(s, ks[0]).value.rest, ks[1..], t);
    }
  }

  lemma PairMore(s: seq<byte>, t: seq<byte>)
    ensures Extends(TakePair(s), TakePair(s + t), t)
  {
    VarintMore(s, t);
    if TakeVarint(s).Some? {
      VarintMore(TakeVarint(s).value.rest, t);
    }
  }

  lemma {:induction false} ManyMore<T>(d: seq<byte> -> Option<Read<T>>, s: seq<byte>, n: nat, t: seq<byte>)
    requires forall u: seq<byte> :: Extends(d(u), d(u + t), t)
    ensures Extends(Many(d, s, n), Many(d, s + t, n), t)
    decreases n
  {
    if n > 0 && Many(d, s, n).Some? {
      assert Extends(d(s), d(s + t), t);
      ManyMore(d, d(s).value.rest, n - 1, t);
    }
  }

  lemma PairsMore(s: seq<byte>, n: nat, t: seq<byte>)
    ensures Extends(TakePairs(s, n), TakePairs(s + t, n), t)
  {
    forall u: seq<byte>
      ensures Extends(TakePair(u), TakePair(u + t), t)
    {
      PairMore(u, t);
    }
    ManyMore(TakePair, s, n, t);
  }

  lemma RunsMore(s: seq<byte>, t: seq<byte>)
    ensures Extends(TakeRuns(s), TakeRuns(s + t), t)
  {
    if TakeRuns(s).Some? {
      VarintMore(s, t);
      var count := TakeVarint(s).value;
      VarintMore(count.rest, t);
      var first := TakeVarint(count.rest).value;
      PairsMore(first.rest, count.value, t);
    }
  }

  lemma AckMore(s: seq<byte>, t: seq<byte>)
    ensures Extends(TakeAck(s), TakeAck(s + t), t)
  {
    if TakeAck(s).Some? {
      VarintMore(s, t);
      var largest := TakeVarint(s).value;
      VarintMore(largest.rest, t);
      RunsMore(TakeVarint(largest.rest).value.rest, t);
    }
  }

  lemma StreamMore(s: seq<byte>, first: byte, t: seq<byte>)
    requires HasLength(first)
    ensures Extends(TakeStream(s, first), TakeStream(s + t, first), t)
  {
    if TakeStream(s, first).Some? {
      VarintMore(s, t);
      var id := TakeVarint(s).value;
      VarintMore(id.rest, t);
      TextMore(TakeOffset(id.rest, HasOffset(first)).value.rest, t);
    }
  }

  lemma PlainMore(s: seq<byte>, first: byte, t: seq<byte>)
    requires first != 0
    ensures Extends(TakePlain(s, first), TakePlain(s + t, first), t)
  {
    if TakePlain(s, first).Some? {
      FieldsMore(s, Layout(first).value, t);
    }
  }

  /** For all frames but padding and a STREAM frame without a length. */
  lemma DecodeMore(s: seq<byte>, t: seq<byte>)
    requires s != [] && s[0] != 0 && (IsStreamType(s[0]) ==> HasLength(s[0]))
    ensures Extends(Frames.Decode(s), Frames.Decode(s + t), t)
  {
    var first, tail := s[0], s[1..];
    assert (s + t)[1..] == tail + t;
    Dispatch(tail, first);
    Dispatch(tail + t, first);
    if IsStreamType(first) {
      StreamMore(tail, first, t);
    } else if IsAckType(first) {
      AckMore(tail, t);
    } else {
      PlainMore(tail, first, t);
    }
  }

  /** A frame of which only a part has arrived is refused, wherever it was cut. */
  lemma CutShort(f: Frame, n: nat)
    requires Frames.Fits(f) && !f.Padding? && Lossless(Clipped(f)) && n < |Frames.Encode(f)|
    ensures Frames.Decode(Frames.Encode(f)[..n]).None?
  {
    var e := Frames.Encode(f);
    Types(f);
    NotPadding(f);
    FrameRoundTrip(f, []);
    assert e + [] == e;
    if n > 0 {
      CutDecoded(e, n);
    }
  }

  lemma CutDecoded(e: seq<byte>, n: nat)
    requires 0 < n < |e| && e[0] != 0 && (IsStreamType(e[0]) ==> HasLength(e[0]))
    requires Frames.Decode(e).Some? && Frames.Decode(e).value.rest == []
    ensures Frames.Decode(e[..n]).None?
  {
    var s, t := e[..n], e[n..];
    assert s + t == e;
    DecodeMore(s, t);
    LeavesNothing(Frames.Decode(s), Frames.Decode(e), t);
  }

  lemma LeavesNothing<T>(now: Option<Read<T>>, more: Option<Read<T>>, t: seq<byte>)
    requires Extends(now, more, t) && t != [] && more.Some? && more.value.rest == []
    ensures now.None?
  {
  }

  lemma NotPadding(f: Frame)
    requires !f.Padding?
    ensures Type(f) != 0
  {
  }
}
