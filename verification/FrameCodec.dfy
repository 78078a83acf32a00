/** The procedures behind the frame encoding (Polygon/lib/ngtcp2_pkt.c): encoders that work out a
    length and then fill a buffer, and decoders that first measure a frame and then read it. */
module FrameCodec {
  import opened Basics
  import opened Wire
  import opened AckFrames
  import opened Fields
  import opened DataFrames
  import opened Frames
  import opened Payloads

  // Measuring. The decoders first walk over the integers of a frame; `s` is what lies ahead. A frame
  // is refused as soon as less is left than one byte for every integer that is known to follow.

  function Ahead(s: seq<byte>): (w: nat)
    requires s != []
    ensures w > 0
  {
    Width(s[0] as nat / 64)
  }

  function BehindOne(s: seq<byte>): Option<seq<byte>> {
    if s == [] || Ahead(s) > |s| then None else Some(s[Ahead(s)..])
  }

  /** What lies behind `n` things that `w` walks over. */
  function Walk(w: seq<byte> -> Option<seq<byte>>, s: seq<byte>, n: nat): Option<seq<byte>>
    decreases n
  {
    if n == 0 then Some(s) else
    var t :- w(s);
    Walk(w, t, n - 1)
  }

  lemma {:induction false} WalkShrinks(w: seq<byte> -> Option<seq<byte>>, s: seq<byte>, n: nat)
    requires Walk(w, s, n).Some? && forall t: seq<byte> :: w(t).Some? ==> |w(t).value| < |t|
    ensures |Walk(w, s, n).value| + n <= |s|
    decreases n
  {
    if n > 0 {
      WalkShrinks(w, w(s).value, n - 1);
    }
  }

  lemma {:induction false} WalkSum(w: seq<byte> -> Option<seq<byte>>, s: seq<byte>, a: nat, b: nat)
    ensures Walk(w, s, a).None? ==> Walk(w, s, a + b).None?
    ensures Walk(w, s, a).Some? ==> Walk(w, s, a + b) == Walk(w, Walk(w, s, a).value, b)
    decreases a
  {
    if a > 0 && w(s).Some? {
      WalkSum(w, w(s).value, a - 1, b);
    }
  }

  /** Walking two by two. */
  lemma {:induction false} WalkTwice(w: seq<byte> -> Option<seq<byte>>, w2: seq<byte> -> Option<seq<byte>>,
                                     s: seq<byte>, n: nat)
    requires forall t: seq<byte> :: w2(t) == Walk(w, t, 2)
    ensures Walk(w2, s, n) == Walk(w, s, 2 * n)
    decreases n
  {
    if n > 0 {
      WalkSum(w, s, 2, 2 * (n - 1));
      if w2(s).Some? {
        WalkTwice(w, w2, w2(s).value, n - 1);
      }
    }
  }

  /** What lies behind `k` integers. */
  function Behind(s: seq<byte>, k: nat): (r: Option<seq<byte>>)
    ensures r.Some? ==> |r.value| + k <= |s|
  {
    assert forall t: seq<byte> :: BehindOne(t).Some? ==> |BehindOne(t).value| < |t|;
    var r := Walk(BehindOne, s, k);
    if r.Some? then WalkShrinks(BehindOne, s, k); r else r
  }

  lemma BehindSum(s: seq<byte>, a: nat, b: nat)
    ensures Behind(s, a).None? ==> Behind(s, a + b).None?
    ensures Behind(s, a).Some? ==> Behind(s, a + b) == Behind(Behind(s, a).value, b)
  {
    WalkSum(BehindOne, s, a, b);
  }

  /** Reading and walking leave the same bytes. */
  ghost predicate Agrees<T>(r: Option<Read<T>>, end: Option<seq<byte>>) {
    if r.None? then end.None? else end == Some(r.value.rest)
  }

  lemma VarintBehind(s: seq<byte>)
    ensures Agrees(TakeVarint(s), Behind(s, 1))
  {
  }

  lemma PairBehind(s: seq<byte>)
    ensures Agrees(TakePair(s), Behind(s, 2))
  {
    VarintBehind(s);
    BehindSum(s, 1, 1);
    if TakeVarint(s).Some? {
      VarintBehind(TakeVarint(s).value.rest);
    }
  }

  lemma {:induction false} ManyWalk<T>(d: seq<byte> -> Option<Read<T>>, w: seq<byte> -> Option<seq<byte>>,
                                       s: seq<byte>, n: nat)
    requires forall t: seq<byte> :: Agrees(d(t), w(t))
    ensures Agrees(Many(d, s, n), Walk(w, s, n))
    decreases n
  {
    if n > 0 {
      assert Agrees(d(s), w(s));
      if d(s).Some? {
        ManyWalk(d, w, d(s).value.rest, n - 1);
      }
    }
  }

  function BehindTwo(s: seq<byte>): Option<seq<byte>> {
    Behind(s, 2)
  }

  lemma PairsBehind(s: seq<byte>, n: nat, k: nat)
    requires k == 2 * n
    ensures Agrees(TakePairs(s, n), Behind(s, k))
  {
    forall t: seq<byte> ensures Agrees(TakePair(t), BehindTwo(t)) {
      PairBehind(t);
    }
    ManyWalk(TakePair, BehindTwo, s, n);
    WalkTwice(BehindOne, BehindTwo, s, n);
  }

  /** Walks over the first of `k` integers. */
  method Skip(s: seq<byte>, k: nat) returns (t: seq<byte>, ok: bool)
    requires 0 < k <= |s|
    ensures Behind(s, k) == if ok then Behind(t, k - 1) else None
    ensures ok ==> Behind(s, 1) == Some(t) && |t| >= k - 1
  {
    BehindSum(s, 1, k - 1);
    var w := Ahead(s);
    ok := w + k - 1 <= |s|;
    t := if ok then s[w..] else s;
  }

  method MeasurePairs(s: seq<byte>, n: nat) returns (t: seq<byte>, ok: bool)
    requires 2 * n <= |s|
    ensures Behind(s, 2 * n) == if ok then Some(t) else None
  {
    t, ok := s, true;
    var left: nat := 2 * n;
    while ok && left > 0
      invariant left % 2 == 0
      invariant ok ==> left <= |t| && Behind(s, 2 * n) == Behind(t, left)
      invariant !ok ==> Behind(s, 2 * n).None?
      decreases ok, left
    {
      t, ok := Skip(t, left);
      if ok {
        t, ok := Skip(t, left - 1);
      }
      left := left - 2;
    }
  }

  /** Measures the runs of an ACK frame. */
  method MeasureRuns(s: seq<byte>) returns (t: seq<byte>, ok: bool)
    requires |s| >= 2
    ensures Agrees(TakeRuns(s), if ok then Some(t) else None)
  {
    RunsBehind(s);
    t, ok := Skip(s, 2);
    if ok {
      VarintBehind(s);
      t, ok := MeasureFrom(t, TakeVarint(s).value.value);
    }
  }

  /** The first run and `n` pairs. */
  method MeasureFrom(s: seq<byte>, n: nat) returns (t: seq<byte>, ok: bool)
    ensures Behind(s, 1 + 2 * n) == if ok then Some(t) else None
  {
    t, ok := s, |s| >= 1 + 2 * n;
    if ok {
      t, ok := Skip(s, 1 + 2 * n);
      if ok {
        t, ok := MeasurePairs(t, n);
      }
    }
  }

  /** Reading the runs leaves what lies behind the count, the first run and the pairs. */
  lemma RunsBehind(s: seq<byte>)
    ensures Behind(s, 2).None? ==> TakeRuns(s).None?
    ensures TakeVarint(s).Some? ==>
      Agrees(TakeRuns(s), Behind(TakeVarint(s).value.rest, 1 + 2 * TakeVarint(s).value.value))
  {
    VarintBehind(s);
    BehindSum(s, 1, 1);
    if TakeVarint(s).Some? {
      var count := TakeVarint(s).value;
      VarintBehind(count.rest);
      BehindSum(count.rest, 1, 2 * count.value);
      if TakeVarint(count.rest).Some? {
        var t, k := TakeVarint(count.rest).value.rest, 2 * count.value;
        PairsBehind(t, count.value, k);
      }
    }
  }

  /** Measures an ACK frame; fails exactly when reading it would. */
  method MeasureAck(s: seq<byte>) returns (t: seq<byte>, ok: bool)
    ensures Agrees(TakeAck(s), if ok then Some(t) else None)
  {
    AckBehind(s);
    t, ok := s, |s| >= 4;
    if ok {
      t, ok := Skip(s, 4);
      if ok {
        BehindSum(s, 1, 1);
        t, ok := Skip(t, 3);
        if ok {
          t, ok := MeasureRuns(t);
        }
      }
    }
  }

  ghost predicate Tails<T, U>(a: Option<Read<T>>, b: Option<Read<U>>) {
    (a.Some? <==> b.Some?) && (a.Some? ==> a.value.rest == b.value.rest)
  }

  lemma AckBehind(s: seq<byte>)
    ensures Behind(s, 4).None? ==> TakeAck(s).None?
    ensures Behind(s, 2).Some? ==> Tails(TakeAck(s), TakeRuns(Behind(s, 2).value))
  {
    VarintBehind(s);
    BehindSum(s, 1, 1);
    BehindSum(s, 2, 2);
    if TakeVarint(s).Some? {
      var s1 := TakeVarint(s).value.rest;
      VarintBehind(s1);
      if TakeVarint(s1).Some? {
        RunsBehind(TakeVarint(s1).value.rest);
      }
    }
  }

  // Reading, after the frame has been measured.

  /** The blocks `done` and those that `n` more pairs of `t` give. */
  ghost function Whole(done: seq<Block>, t: seq<byte>, n: nat): Option<Read<seq<Block>>> {
    var r :- TakePairs(t, n);
    Some(Read(done + r.value, r.rest))
  }

  lemma WholeStep(done: seq<Block>, t: seq<byte>, n: nat)
    requires n > 0 && Whole(done, t, n).Some?
    ensures TakePair(t).Some?
    ensures Whole(done, t, n) == Whole(done + [TakePair(t).value.value], TakePair(t).value.rest, n - 1)
  {
    var b := TakePair(t).value;
    var bs := TakePairs(b.rest, n - 1).value;
    assert done + ([b.value] + bs.value) == done + [b.value] + bs.value;
  }

  lemma WholeStart(s: seq<byte>, n: nat)
    ensures Whole([], s, n) == TakePairs(s, n)
  {
    if TakePairs(s, n).Some? {
      assert [] + TakePairs(s, n).value.value == TakePairs(s, n).value.value;
    }
  }

  lemma WholeEnd(done: seq<Block>, t: seq<byte>)
    ensures Whole(done, t, 0) == Some(Read(done, t))
  {
    assert done + [] == done;
  }

  lemma ClipStep(done: seq<Block>, b: Block)
    ensures Clip(done + [b]) == if |done| < MAX_ACK_BLKS then Clip(done) + [b] else Clip(done)
  {
  }

  method ReadBlock(t: seq<byte>, ghost done: seq<Block>, ghost n: nat) returns (b: Block, rest: seq<byte>)
    requires n > 0 && Whole(done, t, n).Some?
    ensures Whole(done, t, n) == Whole(done + [b], rest, n - 1)
  {
    WholeStep(done, t, n);
    var p := TakePair(t).value;
    b, rest := p.value, p.rest;
  }

  /** Keeps the first 255 blocks and passes over the others. */
  method ReadBlocks(s: seq<byte>, n: nat) returns (blks: seq<Block>, t: seq<byte>)
    requires TakePairs(s, n).Some?
    ensures TakeClipped(s, n) == Some(Read(blks, t))
  {
    ghost var total, done := TakePairs(s, n), [];
    WholeStart(s, n);
    blks, t := [], s;
    var i: nat, left: nat := 0, n;
    while left > 0
      invariant |done| == i && total == Whole(done, t, left) && blks == Clip(done)
    {
      var b: Block;
      b, t := ReadBlock(t, done, left);
      ClipStep(done, b);
      if i < MAX_ACK_BLKS {
        blks := blks + [b];
      }
      done := done + [b];
      i, left := i + 1, left - 1;
    }
    WholeEnd(done, t);
  }

  method DecodeAck(s: seq<byte>) returns (r: Option<Read<Ack>>)
    ensures r == TakeAck(s)
  {
    var t, ok := MeasureAck(s);
    if !ok {
      return None;
    }
    var largest := TakeVarint(s).value;
    var delay := TakeVarint(largest.rest).value;
    var count := TakeVarint(delay.rest).value;
    var first := TakeVarint(count.rest).value;
    var blks, rest := ReadBlocks(first.rest, count.value);
    assert rest == t;
    return Some(Read(Ack(largest.value, delay.value, first.value, blks), rest));
  }

  /** Counts zero bytes. */
  method CountZeros(s: seq<byte>) returns (n: nat)
    ensures n == ZeroRun(s)
  {
    n := 0;
    while n < |s| && s[n] == 0
      invariant n <= |s| && ZeroRun(s) == n + ZeroRun(s[n..])
    {
      assert s[n..][1..] == s[n + 1..];
      n := n + 1;
    }
  }

  /** The frame at the front of a payload. */
  method DecodeFrame(s: seq<byte>) returns (r: Option<Read<Frame>>)
    requires s != []
    ensures r == Decode(s)
  {
    Dispatch(s[1..], s[0]);
    if IsStreamType(s[0]) {
      r := AsStream(TakeStream(s[1..], s[0]));
    } else if IsAckType(s[0]) {
      var a := DecodeAck(s[1..]);
      r := AsAck(a);
    } else if s[0] == 0 {
      var n := CountZeros(s);
      DecodeZeros(s);
      r := Some(Read(Padding(n), s[n..]));
    } else {
      r := TakePlain(s[1..], s[0]);
    }
  }

  /** The receive loop: frames are handled one by one until the payload ends or one is malformed. It
      ends because every frame uses up at least one byte. */
  method ReadPayload(payload: seq<byte>) returns (frames: seq<Frame>, ok: bool)
    ensures Parsed(frames, ok) == DecodeAll(payload)
  {
    DecodeProgresses();
    frames, ok := [], true;
    var s := payload;
    while ok && s != []
      invariant DecodeAll(payload) == if ok then After(frames, DecodeAll(s)) else Parsed(frames, false)
      decreases ok, |s|
    {
      var r := DecodeFrame(s);
      ReadAllStep(s);
      match r
      case None =>
        ok := false;
      case Some(f) =>
        DecodeSound(s);
        AfterStep(frames, f.value, DecodeAll(f.rest));
        frames, s := frames + [f.value], f.rest;
    }
  }

  function After(frames: seq<Frame>, p: Parsed): Parsed {
    Parsed(frames + p.frames, p.complete)
  }

  lemma AfterStep(frames: seq<Frame>, f: Frame, p: Parsed)
    ensures After(frames, After([f], p)) == After(frames + [f], p)
  {
    assert frames + ([f] + p.frames) == frames + [f] + p.frames;
  }

  lemma ReadAllStep(s: seq<byte>)
    requires s != []
    ensures DecodeAll(s) == if Decode(s).None? then Parsed([], false)
                            else After([Decode(s).value.value], DecodeAll(Decode(s).value.rest))
  {
    DecodeProgresses();
  }

  // Encoding into a buffer.

  /** Copies bytes to position `p` and returns the position behind them. */
  method CopyTo(out: array<byte>, p: nat, b: seq<byte>) returns (q: nat)
    requires p + |b| <= out.Length
    modifies out
    ensures q == p + |b| && out[..q] == old(out[..p]) + b
  {
    var i: nat := 0;
    while i < |b|
      invariant i <= |b|
      invariant forall j :: 0 <= j < p ==> out[j] == old(out[j])
      invariant forall j :: 0 <= j < i ==> out[p + j] == b[j]
    {
      out[p + i] := b[i];
      i := i + 1;
    }
    q := p + |b|;
    assert forall j :: p <= j < q ==> out[j] == b[j - p];
  }

  /** The length of the encoding, worked out block by block. */
  method AckLength(a: Ack) returns (len: nat)
    requires AckFits(a)
    ensures len == 1 + |PutAck(a)|
  {
    len := 1 + VarintLen(a.largest) + VarintLen(a.delay) + VarintLen(|a.blks|) + VarintLen(a.firstLen);
    ghost var todo := PutPairs(a.blks);
    ghost var total := len + |todo|;
    var i: nat := 0;
    assert a.blks[0..] == a.blks;
    while i < |a.blks|
      invariant i <= |a.blks| && todo == PutPairs(a.blks[i..]) && len + |todo| == total
    {
      PutPairsStep(a.blks, i);
      todo := PutPairs(a.blks[i + 1..]);
      len := len + VarintLen(a.blks[i].gap) + VarintLen(a.blks[i].len);
      i := i + 1;
    }
  }

  /** Writes the pairs from position `p` on. */
  method WritePairs(out: array<byte>, p: nat, blks: seq<Block>) returns (q: nat)
    requires BlocksFit(blks) && p + |PutPairs(blks)| <= out.Length
    modifies out
    ensures q == p + |PutPairs(blks)| && out[..q] == old(out[..p]) + PutPairs(blks)
  {
    q := p;
    ghost var todo := PutPairs(blks);
    ghost var final := out[..p] + todo;
    var i: nat := 0;
    assert blks[0..] == blks;
    while i < |blks|
      invariant i <= |blks| && todo == PutPairs(blks[i..]) && q + |todo| == |final| <= out.Length
      invariant out[..q] + todo == final
    {
      PutPairsStep(blks, i);
      ghost var todo' := PutPairs(blks[i + 1..]);
      q := WritePair(out, q, blks[i], todo', final);
      todo, i := todo', i + 1;
    }
    assert out[..q] + [] == out[..q];
  }

  lemma PutPairsStep(blks: seq<Block>, i: nat)
    requires BlocksFit(blks) && i < |blks|
    ensures PutPairs(blks[i..]) == PutPair(blks[i]) + PutPairs(blks[i + 1..])
  {
    assert blks[i..][1..] == blks[i + 1..];
  }

  function PutPair(b: Block): seq<byte>
    requires IsVarint(b.gap) && IsVarint(b.len)
  {
    PutVarint(b.gap) + PutVarint(b.len)
  }

  method WritePair(out: array<byte>, p: nat, b: Block, ghost todo: seq<byte>, ghost final: seq<byte>) returns (q: nat)
    requires IsVarint(b.gap) && IsVarint(b.len) && p <= out.Length
    requires out[..p] + (PutPair(b) + todo) == final && |final| <= out.Length
    modifies out
    ensures p <= q <= out.Length && out[..q] + todo == final
  {
    ghost var done := out[..p];
    q := CopyTo(out, p, PutVarint(b.gap));
    q := CopyTo(out, q, PutVarint(b.len));
    PairWritten(done, PutVarint(b.gap), PutVarint(b.len), todo);
  }

  lemma PairWritten(done: seq<byte>, g: seq<byte>, l: seq<byte>, todo: seq<byte>)
    ensures done + (g + l + todo) == done + g + l + todo
  {
  }

  /** Writes an ACK frame, or nothing when the buffer is too short. */
  method EncodeAck(out: array<byte>, a: Ack) returns (r: Option<nat>)
    requires AckFits(a)
    modifies out
    ensures r == if |Encode(AckFrame(a))| <= out.Length then Some(|Encode(AckFrame(a))|) else None
    ensures if r.Some? then out[..r.value] == Encode(AckFrame(a)) else out[..] == old(out[..])
  {
    AckWritten(a);
    var len := AckLength(a);
    if out.Length < len {
      return None;
    }
    WriteAck(out, a);
    r := Some(len);
  }

  method WriteAck(out: array<byte>, a: Ack)
    requires AckFits(a) && 1 + |PutHead(a)| + |PutPairs(a.blks)| <= out.Length
    modifies out
    ensures out[..1 + |PutHead(a)| + |PutPairs(a.blks)|] == [0x0e] + PutHead(a) + PutPairs(a.blks)
  {
    var p := CopyTo(out, 0, [0x0e]);
    assert out[..p] == [0x0e];
    p := WriteAckHead(out, p, a);
    assert out[..p] == [0x0e] + PutHead(a);
    p := WritePairs(out, p, a.blks);
  }

  function PutHead(a: Ack): seq<byte>
    requires AckFits(a)
  {
    PutVarint(a.largest) + PutVarint(a.delay) + PutVarint(|a.blks|) + PutVarint(a.firstLen)
  }

  method WriteAckHead(out: array<byte>, p: nat, a: Ack) returns (q: nat)
    requires AckFits(a) && p + |PutHead(a)| <= out.Length
    modifies out
    ensures q == p + |PutHead(a)| && out[..q] == old(out[..p]) + PutHead(a)
  {
    ghost var done := out[..p];
    q := CopyTo(out, p, PutVarint(a.largest));
    q := CopyTo(out, q, PutVarint(a.delay));
    q := CopyTo(out, q, PutVarint(|a.blks|));
    q := CopyTo(out, q, PutVarint(a.firstLen));
    HeadWritten(done, PutVarint(a.largest), PutVarint(a.delay), PutVarint(|a.blks|), PutVarint(a.firstLen));
  }

  lemma HeadWritten(done: seq<byte>, a: seq<byte>, b: seq<byte>, c: seq<byte>, d: seq<byte>)
    ensures done + a + b + c + d == done + (a + b + c + d)
  {
  }

  lemma AckWritten(a: Ack)
    requires AckFits(a)
    ensures [0x0e] + PutHead(a) + PutPairs(a.blks) == Encode(AckFrame(a))
    ensures 1 + |PutHead(a)| + |PutPairs(a.blks)| == |Encode(AckFrame(a))| == 1 + |PutAck(a)|
  {
    HeadAndPairs(a);
    Assoc([0x0e], PutHead(a), PutPairs(a.blks));
    EncodeAckIs(a);
  }

  lemma EncodeAckIs(a: Ack)
    requires AckFits(a)
    ensures Encode(AckFrame(a)) == [0x0e] + PutAck(a)
  {
  }

  lemma HeadAndPairs(a: Ack)
    requires AckFits(a)
    ensures PutHead(a) + PutPairs(a.blks) == PutAck(a)
  {
  }
}
