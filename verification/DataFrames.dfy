/** The wire form of the two frames with optional or repeated parts, STREAM and ACK
    (Polygon/lib/ngtcp2_pkt.c). */
module DataFrames {
  import opened Basics
  import opened Wire
  import opened AckFrames
  import opened Fields

  // ACK frames.

  predicate BlocksFit(blks: seq<Block>) {
    forall i :: 0 <= i < |blks| ==> IsVarint(blks[i].gap) && IsVarint(blks[i].len)
  }

  predicate AckFits(a: Ack) {
    && IsVarint(a.largest) && IsVarint(a.delay) && IsVarint(a.firstLen)
    && IsVarint(|a.blks|) && BlocksFit(a.blks)
  }

  function PutPairs(blks: seq<Block>): seq<byte>
    requires BlocksFit(blks)
  {
    if blks == [] then [] else PutVarint(blks[0].gap) + PutVarint(blks[0].len) + PutPairs(blks[1..])
  }

  function PutAck(a: Ack): seq<byte>
    requires AckFits(a)
  {
    PutVarint(a.largest) + (PutVarint(a.delay) + (PutVarint(|a.blks|) + (PutVarint(a.firstLen) + PutPairs(a.blks))))
  }

  function TakePair(s: seq<byte>): Option<Read<Block>> {
    var a :- TakeVarint(s);
    var b :- TakeVarint(a.rest);
    Some(Read(Block(a.value, b.value), b.rest))
  }

  function TakePairs(s: seq<byte>, n: nat): Option<Read<seq<Block>>> {
    Many(TakePair, s, n)
  }

  function Clip(blks: seq<Block>): seq<Block> {
    if |blks| <= MAX_ACK_BLKS then blks else blks[..MAX_ACK_BLKS]
  }

  function ClipAck(a: Ack): Ack {
    a.(blks := Clip(a.blks))
  }

  /** All blocks are read but at most 255 are kept. */
  function TakeClipped(s: seq<byte>, n: nat): Option<Read<seq<Block>>> {
    var blks :- TakePairs(s, n);
    Some(Read(Clip(blks.value), blks.rest))
  }

  /** The runs of an ACK: the first one and the blocks. */
  datatype Runs = Runs(first: nat, blks: seq<Block>)

  function TakeRuns(s: seq<byte>): Option<Read<Runs>> {
    var count :- TakeVarint(s);
    var first :- TakeVarint(count.rest);
    var blks :- TakeClipped(first.rest, count.value);
    Some(Read(Runs(first.value, blks.value), blks.rest))
  }

  function TakeAck(s: seq<byte>): Option<Read<Ack>> {
    var largest :- TakeVarint(s);
    var delay :- TakeVarint(largest.rest);
    var runs :- TakeRuns(delay.rest);
    Some(Read(Ack(largest.value, delay.value, runs.value.first, runs.value.blks), runs.rest))
  }

  lemma TakePairPut(a: nat, b: nat, rest: seq<byte>)
    requires IsVarint(a) && IsVarint(b)
    ensures TakePair(PutVarint(a) + PutVarint(b) + rest) == Some(Read(Block(a, b), rest))
  {
    Assoc(PutVarint(a), PutVarint(b), rest);
    TakeVarintPut(a, PutVarint(b) + rest);
    TakeVarintPut(b, rest);
  }

  lemma {:induction false} TakePairsPut(blks: seq<Block>, rest: seq<byte>)
    requires BlocksFit(blks)
    ensures TakePairs(PutPairs(blks) + rest, |blks|) == Some(Read(blks, rest))
  {
    if blks == [] {
      assert PutPairs(blks) + rest == rest;
    } else {
      var b, tail := blks[0], PutPairs(blks[1..]);
      TakePairsPut(blks[1..], rest);
      TakePairPut(b.gap, b.len, tail + rest);
      Assoc(PutVarint(b.gap) + PutVarint(b.len), tail, rest);
      Uncons(blks);
    }
  }

  /** An ACK comes back with its first 255 blocks. */
  lemma AckRoundTrip(a: Ack, rest: seq<byte>)
    requires AckFits(a)
    ensures TakeAck(PutAck(a) + rest) == Some(Read(ClipAck(a), rest))
  {
    var s4 := PutPairs(a.blks);
    var s3 := PutVarint(a.firstLen) + s4;
    var s2 := PutVarint(|a.blks|) + s3;
    var s1 := PutVarint(a.delay) + s2;
    Assoc(PutVarint(a.largest), s1, rest);
    Assoc(PutVarint(a.delay), s2, rest);
    Assoc(PutVarint(|a.blks|), s3, rest);
    Assoc(PutVarint(a.firstLen), s4, rest);
    TakeVarintPut(a.largest, s1 + rest);
    TakeVarintPut(a.delay, s2 + rest);
    TakeVarintPut(|a.blks|, s3 + rest);
    TakeVarintPut(a.firstLen, s4 + rest);
    TakePairsPut(a.blks, rest);
  }

  predicate BlockFits(b: Block) {
    IsVarint(b.gap) && IsVarint(b.len)
  }

  lemma TakePairsSound(s: seq<byte>, n: nat)
    requires TakePairs(s, n).Some?
    ensures var r := TakePairs(s, n).value; Suffix(r.rest, s) && |r.value| == n && BlocksFit(r.value)
  {
    forall t: seq<byte> | TakePair(t).Some?
      ensures Suffix(TakePair(t).value.rest, t) && BlockFits(TakePair(t).value.value)
    {
      TakePairSound(t);
    }
    ManySuffix(TakePair, s, n);
    ManyAll(TakePair, BlockFits, s, n);
    var blks := TakePairs(s, n).value.value;
    assert forall i :: 0 <= i < |blks| ==> BlockFits(blks[i]);
  }

  lemma TakePairSound(s: seq<byte>)
    requires TakePair(s).Some?
    ensures var r := TakePair(s).value; Suffix(r.rest, s) && IsVarint(r.value.gap) && IsVarint(r.value.len)
  {
    TakeVarintRange(s);
    var a := TakeVarint(s).value;
    TakeVarintRange(a.rest);
    SuffixTrans(TakeVarint(a.rest).value.rest, a.rest, s);
  }

  lemma TakeClippedSound(s: seq<byte>, n: nat)
    requires TakeClipped(s, n).Some?
    ensures var r := TakeClipped(s, n).value; Suffix(r.rest, s) && |r.value| <= MAX_ACK_BLKS && BlocksFit(r.value)
  {
    TakePairsSound(s, n);
  }

  lemma TakeRunsSound(s: seq<byte>)
    requires TakeRuns(s).Some?
    ensures Suffix(TakeRuns(s).value.rest, s) && IsVarint(TakeRuns(s).value.value.first)
    ensures var blks := TakeRuns(s).value.value.blks; |blks| <= MAX_ACK_BLKS && BlocksFit(blks)
  {
    var count := TakeVarint(s).value;
    var first := TakeVarint(count.rest).value;
    TakeVarintRange(s);
    TakeVarintRange(count.rest);
    TakeClippedSound(first.rest, count.value);
    SuffixTrans(first.rest, count.rest, s);
    SuffixTrans(TakeClipped(first.rest, count.value).value.rest, first.rest, s);
  }

  lemma TakeAckSound(s: seq<byte>)
    requires TakeAck(s).Some?
    ensures Suffix(TakeAck(s).value.rest, s) && AckFits(TakeAck(s).value.value)
    ensures |TakeAck(s).value.value.blks| <= MAX_ACK_BLKS
  {
    var largest := TakeVarint(s).value;
    var delay := TakeVarint(largest.rest).value;
    TakeVarintRange(s);
    TakeVarintRange(largest.rest);
    TakeRunsSound(delay.rest);
    SuffixTrans(delay.rest, largest.rest, s);
    SuffixTrans(TakeRuns(delay.rest).value.rest, delay.rest, s);
  }

  /** Cutting the blocks only forgets acknowledgements: what the receiver of the frame takes as
      acknowledged was acknowledged, and a valid frame stays valid. */
  lemma ClipIsHonest(a: Ack, n: int)
    ensures Covers(ClipAck(a), n) ==> Covers(a, n)
    ensures ValidAck(a) ==> ValidAck(ClipAck(a))
  {
    var lo, keep := a.largest - a.firstLen, Clip(a.blks);
    var lost := a.blks[|keep|..];
    assert a.blks == keep + lost;
    InBlocksConcat(lo, keep, lost, n);
    LowConcat(lo, keep, lost);
    LowBelow(LowFrom(lo, keep), lost);
  }

  lemma {:induction false} LowConcat(lo: int, a: seq<Block>, b: seq<Block>)
    ensures LowFrom(lo, a + b) == LowFrom(LowFrom(lo, a), b)
    decreases |a|
  {
    if a == [] {
      assert a + b == b;
    } else {
      LowConcat(lo - a[0].gap - 2 - a[0].len, a[1..], b);
      assert (a + b)[1..] == a[1..] + b;
    }
  }

  /** With more than 255 blocks, the smallest number acknowledged is lost. */
  lemma ClipForgets(a: Ack)
    requires |a.blks| > MAX_ACK_BLKS
    ensures Covers(a, Low(a)) && !Covers(ClipAck(a), Low(a))
  {
    var lo, keep := a.largest - a.firstLen, Clip(a.blks);
    var lost := a.blks[|keep|..];
    assert a.blks == keep + lost;
    LowConcat(lo, keep, lost);
    InBlocksConcat(lo, keep, lost, Low(a));
    LowCovered(LowFrom(lo, keep), lost);
    LowBelow(lo, keep);
    if Covers(ClipAck(a), Low(a)) {
      CoversBounds(ClipAck(a), Low(a));
    }
  }

  lemma {:induction false} LowCovered(lo: int, blks: seq<Block>)
    requires blks != []
    ensures InBlocks(lo, blks, LowFrom(lo, blks)) && LowFrom(lo, blks) < lo
    decreases |blks|
  {
    var lo' := lo - blks[0].gap - 2 - blks[0].len;
    if |blks| > 1 {
      LowCovered(lo', blks[1..]);
    }
  }

  // STREAM frames.

  /** A piece of stream data. */
  datatype Segment = Segment(id: nat, offset: nat, fin: bool, data: seq<byte>)

  predicate SegmentFits(f: Segment) {
    IsVarint(f.id) && IsVarint(f.offset) && IsVarint(|f.data|)
  }

  predicate IsStreamType(t: byte) {
    t / 16 % 2 == 1
  }

  predicate HasOffset(t: byte) {
    t / 4 % 2 == 1
  }

  predicate HasLength(t: byte) {
    t / 2 % 2 == 1
  }

  predicate HasFin(t: byte) {
    t % 2 == 1
  }

  /** The first byte flags the end of the stream, a length field (which the encoder always writes)
      and an offset field (written unless the offset is 0). */
  function StreamType(f: Segment): (t: byte)
    ensures IsStreamType(t) && HasLength(t) && (HasOffset(t) <==> f.offset != 0) && (HasFin(t) <==> f.fin)
  {
    0x12 + (if f.fin then 0x01 else 0) + (if f.offset != 0 then 0x04 else 0)
  }

  function PutOffset(offset: nat): seq<byte>
    requires IsVarint(offset)
  {
    if offset != 0 then PutVarint(offset) else []
  }

  function PutStream(f: Segment): seq<byte>
    requires SegmentFits(f)
  {
    PutVarint(f.id) + (PutOffset(f.offset) + PutText(f.data))
  }

  function TakeOffset(s: seq<byte>, present: bool): Option<Read<nat>> {
    if present then TakeVarint(s) else Some(Read(0, s))
  }

  /** Without a length field the data is all that is left. */
  function TakeData(s: seq<byte>, sized: bool): Option<Read<seq<byte>>> {
    if sized then TakeText(s) else Some(Read(s, []))
  }

  function TakeStream(s: seq<byte>, t: byte): Option<Read<Segment>> {
    var id :- TakeVarint(s);
    var offset :- TakeOffset(id.rest, HasOffset(t));
    var data :- TakeData(offset.rest, HasLength(t));
    Some(Read(Segment(id.value, offset.value, HasFin(t), data.value), data.rest))
  }

  lemma TakeOffsetPut(offset: nat, rest: seq<byte>)
    requires IsVarint(offset)
    ensures TakeOffset(PutOffset(offset) + rest, offset != 0) == Some(Read(offset, rest))
  {
    if offset == 0 {
      assert PutOffset(offset) + rest == rest;
    } else {
      TakeVarintPut(offset, rest);
    }
  }

  lemma StreamRoundTrip(f: Segment, rest: seq<byte>)
    requires SegmentFits(f)
    ensures TakeStream(PutStream(f) + rest, StreamType(f)) == Some(Read(f, rest))
  {
    var o, d := PutOffset(f.offset), PutText(f.data);
    Assoc(PutVarint(f.id), o + d, rest);
    Assoc(o, d, rest);
    TakeVarintPut(f.id, o + (d + rest));
    TakeOffsetPut(f.offset, d + rest);
    TakeTextPut(f.data, rest);
  }

  lemma TakeOffsetSound(s: seq<byte>, present: bool)
    requires TakeOffset(s, present).Some?
    ensures Suffix(TakeOffset(s, present).value.rest, s) && IsVarint(TakeOffset(s, present).value.value)
  {
    if present {
      TakeVarintRange(s);
    }
  }

  lemma TakeDataSound(s: seq<byte>, sized: bool)
    requires TakeData(s, sized).Some?
    ensures Suffix(TakeData(s, sized).value.rest, s) && |TakeData(s, sized).value.value| <= |s|
  {
    if sized {
      TakeTextSound(s);
    }
  }

  lemma TakeStreamSound(s: seq<byte>, t: byte)
    requires TakeStream(s, t).Some?
    ensures Suffix(TakeStream(s, t).value.rest, s)
    ensures IsVarint(|s|) ==> SegmentFits(TakeStream(s, t).value.value)
  {
    var id := TakeVarint(s).value;
    TakeVarintRange(s);
    TakeOffsetSound(id.rest, HasOffset(t));
    var offset := TakeOffset(id.rest, HasOffset(t)).value;
    TakeDataSound(offset.rest, HasLength(t));
    SuffixTrans(offset.rest, id.rest, s);
    SuffixTrans(TakeData(offset.rest, HasLength(t)).value.rest, offset.rest, s);
  }
}
