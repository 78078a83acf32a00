/** The receiving half of a stream (Polygon/lib/ngtcp2_conn.c, conn_recv_stream and
    conn_emit_pending_stream_data; Polygon/lib/ngtcp2_strm.c). */
module StreamReceive {
  import opened Basics
  import opened Ranges
  import opened ReorderBuffer

  datatype Error = NoError | FlowControl | FinalOffset | Proto | FrameFormat

  datatype StreamFrame = StreamFrame(id: nat, offset: nat, data: seq<byte>, fin: bool) {
    function End(): nat {
      offset + |data|
    }
  }

  /** What the receiver knows about one stream, with the reorder buffer reduced to the bytes
      accepted so far. */
  datatype RxStream = RxStream(maxRx: nat, unsentMaxRx: nat, lastRx: nat, shutRd: bool, got: map<nat, byte>)

  datatype Outcome = Outcome(error: Error, strm: RxStream, charged: nat)

  ghost function Above(got: map<nat, byte>, from: nat): set<nat> {
    set x | x in got && from <= x
  }

  /** The least offset from `from` on that has not been accepted. */
  function FirstMissing(got: map<nat, byte>, from: nat): (r: nat)
    ensures from <= r && r !in got
    ensures forall x :: from <= x < r ==> x in got
    decreases Above(got, from)
  {
    if from in got then
      assert Above(got, from + 1) == Above(got, from) - {from} && from in Above(got, from);
      FirstMissing(got, from + 1)
    else
      from
  }

  /** The bytes that can be handed to the application: everything before the first missing one. */
  function Delivered(got: map<nat, byte>): seq<byte> {
    seq(FirstMissing(got, 0), x requires 0 <= x < FirstMissing(got, 0) => got[x])
  }

  /** The end is known and everything before it has been accepted. When the end came with a STREAM
      frame, the application has been told so; after a reset it is told only if a frame that came
      later filled the last hole (`Stream.Reset`). */
  predicate Finished(s: RxStream) {
    s.shutRd && FirstMissing(s.got, 0) == s.lastRx
  }

  predicate NotBefore(x: nat, rx: nat) {
    rx <= x
  }

  /** Adding the bytes of a frame. Bytes already handed to the application stay; of two copies
      of a buffered byte the newer one wins when the frame continues the delivered prefix, and
      the older one when the frame has to be buffered. */
  function Absorb(got: map<nat, byte>, offset: nat, data: seq<byte>): map<nat, byte> {
    var rx := FirstMissing(got, 0);
    var more := map x: nat | offset <= x < offset + |data| && NotBefore(x, rx) :: data[x - offset];
    if offset <= rx then got + more else more + got
  }

  /** The frame contradicts what is known about the end of the stream. */
  predicate Conflicts(s: RxStream, fr: StreamFrame) {
    (fr.fin && fr.End() < s.lastRx) || (s.shutRd && s.lastRx < fr.End())
  }

  /** The stream after a frame that is accepted; a frame that repeats the known end is ignored. */
  function Updated(s: RxStream, fr: StreamFrame): RxStream {
    s.(lastRx := if s.lastRx < fr.End() then fr.End() else s.lastRx,
       shutRd := s.shutRd || fr.fin,
       got := if fr.fin && s.shutRd then s.got else Absorb(s.got, fr.offset, fr.data))
  }

  /** How a STREAM frame is to be received, when `credit` bytes of connection flow control are left. */
  function Accept(s: RxStream, fr: StreamFrame, credit: nat): Outcome {
    var charge := if fr.id != 0 && s.lastRx < fr.End() then fr.End() - s.lastRx else 0;
    if s.maxRx < fr.End() || credit < charge then Outcome(FlowControl, s, 0)
    else if Conflicts(s, fr) then Outcome(FinalOffset, s, charge)
    else Outcome(NoError, Updated(s, fr), charge)
  }

  /** The frame reaches beyond the credit of its stream, or its new bytes beyond that of the connection. */
  predicate BeyondLimit(s: RxStream, fr: StreamFrame, credit: nat) {
    s.maxRx < fr.offset + |fr.data| ||
    (fr.id != 0 && s.lastRx < fr.offset + |fr.data| && credit < fr.offset + |fr.data| - s.lastRx)
  }

  /** The frame ends the stream elsewhere than before, or below what has arrived, or it goes on behind
      the end. */
  predicate WrongEnd(s: RxStream, fr: StreamFrame) {
    || (fr.fin && s.shutRd && fr.offset + |fr.data| != s.lastRx)
    || (fr.fin && !s.shutRd && fr.offset + |fr.data| < s.lastRx)
    || (!fr.fin && s.shutRd && s.lastRx < fr.offset + |fr.data|)
  }

  /** What a frame does to its stream, case by case: when it is refused, and with which error; otherwise
      the highest offset, the end, the charge and the bytes. */
  lemma AcceptExact(s: RxStream, fr: StreamFrame, credit: nat, x: nat)
    ensures var o, end := Accept(s, fr, credit), fr.offset + |fr.data|;
            && (o.error == FlowControl <==> BeyondLimit(s, fr, credit))
            && (o.error == FinalOffset <==> !BeyondLimit(s, fr, credit) && WrongEnd(s, fr))
            && (o.error == NoError <==> !BeyondLimit(s, fr, credit) && !WrongEnd(s, fr))
            && (o.error != NoError ==> o.strm == s)
            && (o.error == NoError ==>
                  && o.strm.maxRx == s.maxRx && o.strm.unsentMaxRx == s.unsentMaxRx
                  && (o.strm.shutRd <==> s.shutRd || fr.fin)
                  && s.lastRx <= o.strm.lastRx && end <= o.strm.lastRx && o.strm.lastRx in {s.lastRx, end}
                  && o.charged == (if fr.id == 0 then 0 else o.strm.lastRx - s.lastRx)
                  && (x in o.strm.got <==> x in s.got || (fr.offset <= x < end && !(fr.fin && s.shutRd))))
  {
    AbsorbAt(s.got, fr.offset, fr.data, x);
  }

  /** One invocation of the application's receive callback. */
  datatype Call = Call(data: seq<byte>, fin: bool)

  ghost function Flat(calls: seq<Call>): seq<byte> {
    if calls == [] then [] else Flat(calls[..|calls| - 1]) + calls[|calls| - 1].data
  }

  /** The end of the stream is flagged on the last call only, and exactly when `done`. */
  ghost predicate FinLog(calls: seq<Call>, done: bool) {
    && (forall i :: 0 <= i < |calls| - 1 ==> !calls[i].fin)
    && (done <==> calls != [] && calls[|calls| - 1].fin)
  }

  lemma FlatAppend(calls: seq<Call>, c: Call)
    ensures Flat(calls + [c]) == Flat(calls) + c.data
  {
    assert (calls + [c])[..|calls|] == calls;
  }

  ghost predicate Matches(d: seq<byte>, got: map<nat, byte>) {
    forall x :: 0 <= x < |d| ==> x in got && got[x] == d[x]
  }

  /** The bytes accepted from offset `rx` on begin with `piece`. */
  ghost predicate Continues(got: map<nat, byte>, rx: nat, piece: seq<byte>) {
    forall x :: rx <= x < rx + |piece| ==> x in got && got[x] == piece[x - rx]
  }

  lemma MatchesAppend(d: seq<byte>, piece: seq<byte>, got: map<nat, byte>)
    requires Matches(d, got) && Continues(got, |d|, piece)
    ensures Matches(d + piece, got)
  {
  }

  lemma FinLogAppend(calls: seq<Call>, c: Call)
    requires FinLog(calls, false)
    ensures FinLog(calls + [c], c.fin)
  {
    assert forall i :: 0 <= i < |calls| ==> (calls + [c])[i] == calls[i];
  }

  lemma DeliveredIs(d: seq<byte>, got: map<nat, byte>)
    requires Matches(d, got) && |d| !in got
    ensures d == Delivered(got) && FirstMissing(got, 0) == |d|
  {
    FirstMissingIs(got, |d|);
  }

  lemma FirstMissingIs(got: map<nat, byte>, n: nat)
    requires n !in got && forall x :: 0 <= x < n ==> x in got
    ensures FirstMissing(got, 0) == n
  {
  }

  /** Absorb, offset by offset. */
  lemma AbsorbAt(got: map<nat, byte>, offset: nat, data: seq<byte>, x: nat)
    ensures var more, rx, inside := Absorb(got, offset, data), FirstMissing(got, 0), offset <= x < offset + |data|;
            && (x in more <==> x in got || inside)
            && (x in got && (x < rx || rx < offset || !inside) ==> more[x] == got[x])
            && (inside && rx <= x && (offset <= rx || x !in got) ==> more[x] == data[x - offset])
  {
  }

  /** The gap list covers exactly the offsets that have not been accepted. */
  ghost predicate Knows(got: map<nat, byte>, gaps: seq<Range>) {
    forall x: nat :: x in got <==> x < UINT64_MAX && !Covers(gaps, x)
  }

  /** Every byte accepted from `rx` on sits in the chunks. */
  ghost predicate Backs(got: map<nat, byte>, data: seq<Chunk>, rx: nat) {
    forall x :: x in got && rx <= x ==> Stored(data, x, got[x])
  }

  /** Absorbing a frame and cutting it (and what has been delivered) out of the gap list agree. */
  lemma AbsorbKnows(got: map<nat, byte>, gaps: seq<Range>, fr: StreamFrame, q: Range)
    requires Canonical(gaps) && Knows(got, gaps) && fr.End() <= UINT64_MAX
    requires q.end == fr.End() && q.begin <= fr.offset
    requires q.begin == fr.offset || (q.begin == 0 && fr.offset <= FirstMissing(got, 0))
    ensures Knows(Absorb(got, fr.offset, fr.data), Subtract(gaps, q))
  {
    var more := Absorb(got, fr.offset, fr.data);
    forall x: nat
      ensures x in more <==> x < UINT64_MAX && !Covers(Subtract(gaps, q), x)
    {
      AbsorbAt(got, fr.offset, fr.data, x);
      SubtractCovers(gaps, q, x);
    }
  }

  /** A frame that continues the delivered prefix: the prefix grows to the end of the frame. */
  lemma AbsorbDirect(got: map<nat, byte>, d0: seq<Chunk>, d1: seq<Chunk>, fr: StreamFrame)
    requires fr.offset <= FirstMissing(got, 0) < fr.End()
    requires Backs(got, d0, FirstMissing(got, 0)) && Keeps(d0, d1, 0, fr.End())
    ensures var more := Absorb(got, fr.offset, fr.data);
            Backs(more, d1, fr.End()) && fr.End() <= FirstMissing(more, 0)
  {
    var more := Absorb(got, fr.offset, fr.data);
    forall x | x in more && fr.End() <= x
      ensures Stored(d1, x, more[x])
    {
      AbsorbAt(got, fr.offset, fr.data, x);
    }
    AbsorbAt(got, fr.offset, fr.data, FirstMissing(more, 0));
  }

  lemma AbsorbTail(got: map<nat, byte>, rx: nat, fr: StreamFrame)
    requires rx == FirstMissing(got, 0) && fr.offset <= rx < fr.End()
    ensures Continues(Absorb(got, fr.offset, fr.data), rx, fr.data[rx - fr.offset..])
  {
    var more, tail := Absorb(got, fr.offset, fr.data), fr.data[rx - fr.offset..];
    forall x | rx <= x < rx + |tail|
      ensures x in more && more[x] == tail[x - rx]
    {
      AbsorbAt(got, fr.offset, fr.data, x);
    }
  }

  /** A frame that leaves a hole before it: its new bytes are buffered, the prefix stays. */
  lemma AbsorbBuffered(got: map<nat, byte>, gaps: seq<Range>, d0: seq<Chunk>, d1: seq<Chunk>, fr: StreamFrame)
    requires FirstMissing(got, 0) < fr.offset && fr.End() <= UINT64_MAX
    requires Knows(got, gaps) && Backs(got, d0, FirstMissing(got, 0))
    requires Filled(d1, gaps, fr.offset, fr.data) && Spares(d0, d1, gaps, fr.offset, fr.data)
    ensures var more := Absorb(got, fr.offset, fr.data);
            Backs(more, d1, FirstMissing(got, 0)) && FirstMissing(more, 0) == FirstMissing(got, 0)
  {
    var more, rx := Absorb(got, fr.offset, fr.data), FirstMissing(got, 0);
    forall x | x in more && rx <= x
      ensures Stored(d1, x, more[x])
    {
      AbsorbAt(got, fr.offset, fr.data, x);
      if x in got {
        assert Stored(d0, x, got[x]);
      }
    }
    AbsorbAt(got, fr.offset, fr.data, rx);
    forall x | 0 <= x < rx
      ensures x in more
    {
      AbsorbAt(got, fr.offset, fr.data, x);
    }
    FirstMissingIs(more, rx);
  }

  /** A frame that ends within the delivered prefix adds nothing. */
  lemma AbsorbNothing(got: map<nat, byte>, fr: StreamFrame)
    requires fr.End() <= FirstMissing(got, 0)
    ensures Absorb(got, fr.offset, fr.data) == got
  {
    var more := Absorb(got, fr.offset, fr.data);
    forall x: nat
      ensures x in more <==> x in got
      ensures x in got ==> more[x] == got[x]
    {
      AbsorbAt(got, fr.offset, fr.data, x);
    }
  }

  /** Bytes handed out stay what they are. */
  lemma AbsorbMatches(d: seq<byte>, got: map<nat, byte>, fr: StreamFrame)
    requires Matches(d, got) && |d| <= FirstMissing(got, 0)
    ensures Matches(d, Absorb(got, fr.offset, fr.data))
  {
    forall x | 0 <= x < |d|
      ensures x in Absorb(got, fr.offset, fr.data) && Absorb(got, fr.offset, fr.data)[x] == d[x]
    {
      AbsorbAt(got, fr.offset, fr.data, x);
    }
  }

  lemma AbsorbBounds(got: map<nat, byte>, fr: StreamFrame, n: nat)
    requires fr.End() <= n && forall x :: x in got ==> x < n
    ensures forall x :: x in Absorb(got, fr.offset, fr.data) ==> x < n
  {
    forall x | x in Absorb(got, fr.offset, fr.data)
      ensures x < n
    {
      AbsorbAt(got, fr.offset, fr.data, x);
    }
  }

  lemma PieceMatches(data: seq<Chunk>, size: nat, rx: nat, piece: seq<byte>, got: map<nat, byte>)
    requires Chunked(data, size) && Beyond(data, rx) && data != [] && Holds(data[0], rx, piece)
    requires Backs(got, data, rx)
    requires forall x :: rx <= x < rx + |piece| ==> x in got
    ensures forall x :: rx <= x < rx + |piece| ==> got[x] == piece[x - rx]
  {
    forall x | rx <= x < rx + |piece|
      ensures got[x] == piece[x - rx]
    {
      HoldsStored(data, size, rx, piece, x - rx, got[x]);
    }
  }

  class Stream {
    const rob: Buffer
    var maxRx: nat
    var unsentMaxRx: nat
    var lastRx: nat
    var shutRd: bool
    var calls: seq<Call>
    ghost var got: map<nat, byte>

    ghost function View(): RxStream
      reads this
    {
      RxStream(maxRx, unsentMaxRx, lastRx, shutRd, got)
    }

    /** Everything in the buffer from `rx` on is what has been accepted. */
    ghost predicate Stocked(rx: nat)
      reads this, rob, rob.gap
    {
      && rob.Valid() && lastRx <= MAX_VARINT
      && (forall x :: x in got ==> x < lastRx)
      && Knows(got, rob.gap.gaps) && Backs(got, rob.data, rx)
      && Beyond(rob.data, rx)
    }

    /** Besides, everything below has been handed out. */
    ghost predicate Buffered(rx: nat)
      reads this, rob, rob.gap
    {
      Stocked(rx) && |Flat(calls)| == rx && Matches(Flat(calls), got)
    }

    ghost predicate Valid()
      reads this, rob, rob.gap
    {
      var rx := FirstMissing(got, 0);
      Buffered(rx) && FinLog(calls, shutRd && rx == lastRx)
    }

    constructor (maxRx: nat)
      ensures Valid() && fresh(rob) && fresh(rob.gap)
      ensures View() == RxStream(maxRx, maxRx, 0, false, map[]) && calls == []
    {
      rob := new Buffer(8 * 1024);
      this.maxRx, unsentMaxRx, lastRx, shutRd := maxRx, maxRx, 0, false;
      calls, got := [], map[];
      new;
      assert rob.gap.gaps[0].Contains(0);
      assert forall x: nat :: x < UINT64_MAX ==> rob.gap.gaps[0].Contains(x);
    }

    /** The first gap begins at the first missing offset; in particular there is a first gap. */
    lemma FirstGap()
      requires rob.Valid() && lastRx <= MAX_VARINT && forall x :: x in got ==> x < lastRx
      requires Knows(got, rob.gap.gaps)
      ensures rob.gap.gaps != [] && rob.gap.gaps[0].begin == FirstMissing(got, 0) <= lastRx
    {
      var gaps := rob.gap.gaps;
      assert lastRx !in got;
      assert Covers(gaps, lastRx);
      var n := gaps[0].begin;
      assert gaps[0].Contains(n);
      assert n !in got;
      forall x | 0 <= x < n
        ensures x in got
      {
        assert !Covers(gaps, x);
        assert x < UINT64_MAX by {
          var i :| 0 <= i < |gaps| && gaps[i].Contains(lastRx);
          assert n <= gaps[i].begin;
        }
      }
      FirstMissingIs(got, n);
    }

    /** One call of the application's callback with the bytes at offset `rx`. */
    method CallReceive(rx: nat, piece: seq<byte>)
      requires |Flat(calls)| == rx && Matches(Flat(calls), got) && Continues(got, rx, piece)
      requires FinLog(calls, false)
      modifies this`calls
      ensures |Flat(calls)| == rx + |piece| && Matches(Flat(calls), got)
      ensures FinLog(calls, shutRd && rx + |piece| == lastRx)
      ensures old(calls) <= calls
    {
      var c := Call(piece, shutRd && rx + |piece| == lastRx);
      FlatAppend(calls, c);
      MatchesAppend(Flat(calls), piece, got);
      FinLogAppend(calls, c);
      calls := calls + [c];
    }

    /** The next run of buffered bytes is what has been accepted at these offsets. */
    method NextPiece(rx: nat) returns (piece: seq<byte>)
      requires Buffered(rx) && rx <= FirstMissing(got, 0)
      ensures piece == [] <==> rx == FirstMissing(got, 0)
      ensures rx + |piece| <= FirstMissing(got, 0)
      ensures piece != [] ==> rx < lastRx
      ensures Continues(got, rx, piece)
      ensures piece != [] ==> rob.data != [] && rx + |piece| <= rob.data[0].offset + rob.chunk
    {
      FirstGap();
      assert rx < FirstMissing(got, 0) ==> rx in got && Stored(rob.data, rx, got[rx]);
      piece := rob.DataAt(rx);
      if piece != [] {
        PieceMatches(rob.data, rob.chunk, rx, piece, got);
      }
    }

    /** Hands out the next run of buffered bytes; returns its length, 0 at the first gap. */
    method EmitOne(rx: nat) returns (n: nat)
      requires Buffered(rx) && rx <= FirstMissing(got, 0)
      requires FinLog(calls, shutRd && rx == lastRx)
      modifies this`calls, rob`data
      ensures Buffered(rx + n) && rx + n <= FirstMissing(got, 0)
      ensures FinLog(calls, shutRd && rx + n == lastRx)
      ensures n == 0 <==> rx == FirstMissing(got, 0)
      ensures old(calls) <= calls
    {
      var piece := NextPiece(rx);
      if piece == [] {
        return 0;
      }
      CallReceive(rx, piece);
      rob.Pop(rx, |piece|);
      return |piece|;
    }

    /** Hands out buffered bytes from `rx0` on, up to the first gap. */
    method EmitPending(rx0: nat)
      requires Buffered(rx0) && rx0 <= FirstMissing(got, 0)
      requires FinLog(calls, shutRd && rx0 == lastRx)
      modifies this`calls, rob`data
      ensures Valid()
      ensures old(calls) <= calls
    {
      var rx := rx0;
      while true
        invariant Buffered(rx) && rx <= FirstMissing(got, 0)
        invariant FinLog(calls, shutRd && rx == lastRx)
        invariant old(calls) <= calls
        decreases FirstMissing(got, 0) - rx
      {
        var n := EmitOne(rx);
        if n == 0 {
          break;
        }
        rx := rx + n;
      }
    }

    /** Drops what a frame that continues the delivered prefix makes superfluous in the buffer. */
    method DropPrefix(rx: nat, fr: StreamFrame)
      requires Stocked(rx) && rx == FirstMissing(got, 0)
      requires fr.offset <= rx < fr.End() <= lastRx
      modifies this`got, rob`data, rob.gap
      ensures Stocked(fr.End()) && fr.End() <= FirstMissing(got, 0)
      ensures got == Absorb(old(got), fr.offset, fr.data)
    {
      ghost var data := rob.data;
      AbsorbKnows(got, rob.gap.gaps, fr, Range(0, fr.End()));
      AbsorbBounds(got, fr, lastRx);
      rob.RemovePrefix(fr.End());
      AbsorbDirect(got, data, rob.data, fr);
      got := Absorb(got, fr.offset, fr.data);
    }

    /** Takes in a frame that continues the delivered prefix. */
    method TakeDirect(rx: nat, fr: StreamFrame)
      requires Buffered(rx) && rx == FirstMissing(got, 0) && FinLog(calls, false)
      requires fr.offset <= rx < fr.End() <= lastRx
      modifies this`calls, this`got, rob`data, rob.gap
      ensures Valid() && old(calls) <= calls
      ensures got == Absorb(old(got), fr.offset, fr.data)
    {
      AbsorbMatches(Flat(calls), got, fr);
      AbsorbTail(got, rx, fr);
      DropPrefix(rx, fr);
      CallReceive(rx, fr.data[rx - fr.offset..]);
      EmitPending(fr.End());
    }

    /** Stores a frame that leaves a hole before it. */
    method StoreBehindHole(rx: nat, fr: StreamFrame)
      requires Stocked(rx) && rx == FirstMissing(got, 0)
      requires rx < fr.offset && fr.End() <= lastRx
      modifies this`got, rob`data, rob.gap
      ensures Stocked(rx) && rx == FirstMissing(got, 0)
      ensures got == Absorb(old(got), fr.offset, fr.data)
    {
      ghost var gaps, data := rob.gap.gaps, rob.data;
      AbsorbKnows(got, gaps, fr, Range(fr.offset, fr.End()));
      AbsorbBounds(got, fr, lastRx);
      rob.Push(fr.offset, fr.data, rx);
      AbsorbBuffered(got, gaps, data, rob.data, fr);
      got := Absorb(got, fr.offset, fr.data);
    }

    /** Takes in a frame that leaves a hole before it. */
    method TakeBuffered(rx: nat, fr: StreamFrame)
      requires Buffered(rx) && rx == FirstMissing(got, 0) && FinLog(calls, false)
      requires rx < fr.offset && fr.End() <= lastRx
      modifies this`got, rob`data, rob.gap
      ensures Valid()
      ensures got == Absorb(old(got), fr.offset, fr.data)
    {
      AbsorbMatches(Flat(calls), got, fr);
      StoreBehindHole(rx, fr);
    }

    /** Takes in the data of a frame that ends beyond the delivered prefix. */
    method TakeData(rx: nat, fr: StreamFrame)
      requires Buffered(rx) && rx == FirstMissing(got, 0) && FinLog(calls, false)
      requires rx < fr.End() <= lastRx
      modifies this`calls, this`got, rob`data, rob.gap
      ensures Valid() && old(calls) <= calls
      ensures got == Absorb(old(got), fr.offset, fr.data)
    {
      if fr.offset <= rx {
        TakeDirect(rx, fr);
      } else {
        TakeBuffered(rx, fr);
      }
    }

    /** The first frame that ends the stream. */
    method TakeEnd(fr: StreamFrame)
      requires Valid() && !shutRd && lastRx <= fr.End() <= MAX_VARINT
      modifies this`lastRx, this`shutRd, this`calls, this`got, rob`data, rob.gap
      ensures Valid() && old(calls) <= calls
      ensures lastRx == fr.End() && shutRd && got == Absorb(old(got), fr.offset, fr.data)
    {
      FirstGap();
      lastRx, shutRd := fr.End(), true;
      var rx := rob.gap.gaps[0].begin;
      if fr.End() == rx {
        AbsorbNothing(got, fr);
        CallReceive(rx, []);
      } else {
        TakeData(rx, fr);
      }
    }

    /** A frame that ends the stream. Once an end is known, a second one is only compared with it. */
    method ProcessFin(fr: StreamFrame) returns (err: Error)
      requires Valid() && fr.End() <= MAX_VARINT && fr.fin
      modifies this`lastRx, this`shutRd, this`calls, this`got, rob`data, rob.gap
      ensures Valid() && old(calls) <= calls
      ensures err == if Conflicts(old(View()), fr) then FinalOffset else NoError
      ensures View() == if err == NoError then Updated(old(View()), fr) else old(View())
    {
      if shutRd {
        return if lastRx != fr.End() then FinalOffset else NoError;
      }
      if lastRx > fr.End() {
        return FinalOffset;
      }
      TakeEnd(fr);
      return NoError;
    }

    /** A frame without the end, within the end if that is known. */
    method TakeMore(fr: StreamFrame)
      requires Valid() && fr.End() <= MAX_VARINT && (shutRd ==> fr.End() <= lastRx)
      modifies this`lastRx, this`calls, this`got, rob`data, rob.gap
      ensures Valid() && old(calls) <= calls
      ensures lastRx == if old(lastRx) < fr.End() then fr.End() else old(lastRx)
      ensures got == Absorb(old(got), fr.offset, fr.data)
    {
      FirstGap();
      lastRx := if lastRx < fr.End() then fr.End() else lastRx;
      var rx := rob.gap.gaps[0].begin;
      if fr.End() <= rx {
        AbsorbNothing(got, fr);
      } else {
        TakeData(rx, fr);
      }
    }

    /** A frame that does not end the stream. */
    method ProcessData(fr: StreamFrame) returns (err: Error)
      requires Valid() && fr.End() <= MAX_VARINT && !fr.fin
      modifies this`lastRx, this`calls, this`got, rob`data, rob.gap
      ensures Valid() && old(calls) <= calls
      ensures err == if Conflicts(old(View()), fr) then FinalOffset else NoError
      ensures View() == if err == NoError then Updated(old(View()), fr) else old(View())
    {
      if shutRd && lastRx < fr.End() {
        return FinalOffset;
      }
      TakeMore(fr);
      return NoError;
    }

    method Process(fr: StreamFrame) returns (err: Error)
      requires Valid() && fr.End() <= MAX_VARINT
      modifies this`lastRx, this`shutRd, this`calls, this`got, rob`data, rob.gap
      ensures Valid() && old(calls) <= calls
      ensures err == if Conflicts(old(View()), fr) then FinalOffset else NoError
      ensures View() == if err == NoError then Updated(old(View()), fr) else old(View())
    {
      if fr.fin {
        err := ProcessFin(fr);
      } else {
        err := ProcessData(fr);
      }
    }

    /** RST_STREAM marks the end as known, without a call to the application. So from here on it will be
        told of the end exactly if a byte is still missing before the last one that arrived. */
    method Reset()
      requires Valid()
      modifies this`shutRd
      ensures View() == old(View()).(shutRd := true) && calls == old(calls)
      ensures Valid() <==> old(shutRd) || FirstMissing(got, 0) < lastRx
    {
      FirstGap();
      shutRd := true;
    }

    /** Receives one STREAM frame: flow control, final offset, buffering and delivery. */
    method Recv(fr: StreamFrame, credit: nat) returns (err: Error, charged: nat)
      requires Valid() && fr.End() <= MAX_VARINT
      modifies this`lastRx, this`shutRd, this`calls, this`got, rob`data, rob.gap
      ensures Valid()
      ensures Outcome(err, View(), charged) == Accept(old(View()), fr, credit)
      ensures err == FlowControl <==> BeyondLimit(old(View()), fr, credit)
      ensures err == FinalOffset <==> !BeyondLimit(old(View()), fr, credit) && WrongEnd(old(View()), fr)
      ensures err == NoError || err == FlowControl || err == FinalOffset
      ensures old(calls) <= calls
      ensures Flat(calls) == Delivered(got) && FinLog(calls, Finished(View()))
    {
      var end := fr.End();
      charged := 0;
      if maxRx < end {
        err := FlowControl;
      } else if lastRx < end && fr.id != 0 && credit < end - lastRx {
        err := FlowControl;
      } else {
        if lastRx < end && fr.id != 0 {
          charged := end - lastRx;
        }
        err := Process(fr);
      }
      DeliveredIs(Flat(calls), got);
    }
  }
}
