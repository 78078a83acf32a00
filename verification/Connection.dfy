/** Receiving STREAM and RST_STREAM frames on a connection, and the credit it advertises
    (Polygon/lib/ngtcp2_conn.c). */
module Connection {
  import opened Basics
  import opened Ranges
  import opened StreamReceive
  import opened Sums

  /** The receiving side of a connection. `used` holds the ids ever opened, so a used id that is
      not in `strms` belongs to a closed stream; `charged` records, per stream, the highest offset
      that any accepted frame reached. */
  datatype Conn = Conn(maxRx: nat, unsentMaxRx: nat, rxOffset: nat, initialMaxStreamData: nat,
                       strms: map<nat, RxStream>, used: set<nat>, charged: map<nat, nat>)

  datatype Result = Result(error: Error, conn: Conn)

  function Init(maxData: nat, maxStreamData: nat): Conn {
    Conn(maxData, maxData, 0, maxStreamData, map[], {}, map[])
  }

  function NewStream(c: Conn): RxStream {
    RxStream(c.initialMaxStreamData, c.initialMaxStreamData, 0, false, map[])
  }

  predicate Closed(c: Conn, id: nat) {
    id in c.used && id !in c.strms
  }

  function Lookup(c: Conn, id: nat): RxStream {
    if id in c.strms then c.strms[id] else NewStream(c)
  }

  /** Unsigned 64-bit subtraction. */
  function Room(max: nat, used: nat): nat {
    if used <= max then max - used else (max - used) % (UINT64_MAX + 1)
  }

  function Credit(c: Conn): nat {
    Room(c.maxRx, c.rxOffset)
  }

  function Raise(charged: map<nat, nat>, id: nat, end: nat): map<nat, nat> {
    if id == 0 || (id in charged && end <= charged[id]) then charged else charged[id := end]
  }

  function RecvStream(c: Conn, fr: StreamFrame): Result {
    if fr.id == 0 && fr.fin then Result(Proto, c)
    else if !fr.fin && fr.data == [] then Result(FrameFormat, c)
    else if MAX_VARINT < fr.End() then Result(Proto, c)
    else if Closed(c, fr.id) then Result(NoError, c)
    else RecvOpen(c, fr)
  }

  /** A frame for a stream that is open, or that it opens. */
  function RecvOpen(c: Conn, fr: StreamFrame): Result {
    var o := Accept(Lookup(c, fr.id), fr, Credit(c));
    Result(o.error, c.(strms := c.strms[fr.id := o.strm], used := c.used + {fr.id},
                       rxOffset := c.rxOffset + o.charged,
                       charged := if o.error == NoError then Raise(c.charged, fr.id, fr.End()) else c.charged))
  }

  function RecvRst(c: Conn, id: nat, final: nat): Result {
    if id == 0 then Result(Proto, c)
    else if Closed(c, id) then Result(NoError, c)
    else if id !in c.used then
      if c.initialMaxStreamData < final || Credit(c) < final then Result(FlowControl, c)
      else Result(NoError, c.(used := c.used + {id}, rxOffset := c.rxOffset + final,
                              charged := Raise(c.charged, id, final)))
    else
      var s := Lookup(c, id);
      if final < s.lastRx || (s.shutRd && s.lastRx != final) then Result(FinalOffset, c)
      else if s.maxRx < final || Credit(c) < final - s.lastRx then Result(FlowControl, c)
      else Result(NoError, c.(strms := c.strms[id := s.(shutRd := true)], rxOffset := c.rxOffset + (final - s.lastRx),
                              charged := Raise(c.charged, id, final)))
  }

  /** When a STREAM frame is refused, and with which error; a frame for a closed stream changes nothing. */
  lemma RecvStreamExact(c: Conn, fr: StreamFrame)
    ensures var r, s, end := RecvStream(c, fr), Lookup(c, fr.id), fr.offset + |fr.data|;
            var proto := (fr.id == 0 && fr.fin) || MAX_VARINT < end;
            var empty := !fr.fin && fr.data == [];
            var closed := fr.id in c.used && fr.id !in c.strms;
            && (r.error == Proto <==> (fr.id == 0 && fr.fin) || (MAX_VARINT < end && !empty))
            && (r.error == FrameFormat <==> empty)
            && (!proto && !empty && closed ==> r == Result(NoError, c))
            && (r.error == FlowControl <==> !proto && !empty && !closed && BeyondLimit(s, fr, Credit(c)))
            && (r.error == FinalOffset <==>
                  !proto && !empty && !closed && !BeyondLimit(s, fr, Credit(c)) && WrongEnd(s, fr))
            && (r.error == NoError && !closed ==>
                  && r.conn.used == c.used + {fr.id} && r.conn.strms.Keys == c.strms.Keys + {fr.id}
                  && r.conn.strms[fr.id] == Accept(s, fr, Credit(c)).strm
                  && (forall id :: id in c.strms && id != fr.id ==> r.conn.strms[id] == c.strms[id])
                  && r.conn.rxOffset == c.rxOffset + (if fr.id != 0 && s.lastRx < end then end - s.lastRx else 0))
  {
    AcceptExact(Lookup(c, fr.id), fr, Credit(c), 0);
  }

  /** When a reset is refused, and with which error: for an open stream if it ends below what has
      arrived, or elsewhere than before; and in any case if it reaches beyond a limit. */
  lemma RecvRstExact(c: Conn, id: nat, final: nat)
    requires c.strms.Keys <= c.used && c.rxOffset <= c.maxRx
    ensures var r := RecvRst(c, id, final);
            var s := Lookup(c, id);
            var closed := id in c.used && id !in c.strms;
            var wrong := final < s.lastRx || (s.shutRd && final != s.lastRx);
            var beyond := s.maxRx < final || c.maxRx - c.rxOffset < final - s.lastRx;
            && (r.error == Proto <==> id == 0)
            && (id != 0 && closed ==> r == Result(NoError, c))
            && (r.error == FinalOffset <==> id != 0 && !closed && wrong)
            && (r.error == FlowControl <==> id != 0 && !closed && !wrong && beyond)
            && r.error in {NoError, Proto, FinalOffset, FlowControl} && (r.error != NoError ==> r.conn == c)
            && (r.error == NoError && !closed ==>
                  && id in r.conn.used && r.conn.rxOffset == c.rxOffset + (final - s.lastRx)
                  && r.conn.strms == (if id in c.strms then c.strms[id := s.(shutRd := true)] else c.strms))
  {
  }

  /** The stream is forgotten; its id stays used. */
  function Close(c: Conn, id: nat): Conn {
    c.(strms := c.strms - {id})
  }

  /** The application has consumed `n` bytes and lets the peer send as many more. */
  function ExtendMaxOffset(c: Conn, n: nat): Conn {
    c.(unsentMaxRx := if MAX_VARINT < n || MAX_VARINT - n < c.unsentMaxRx then MAX_VARINT else c.unsentMaxRx + n)
  }

  /** A length as the code holds it, in 64 bits. */
  type Size = n: nat | n <= UINT64_MAX

  /** Unsigned 64-bit addition. */
  function Plus(a: nat, b: nat): nat {
    (a + b) % (UINT64_MAX + 1)
  }

  /** The same for one stream; here the length is not compared with 2^62 before it is subtracted. */
  function ExtendMaxStreamOffset(c: Conn, id: nat, n: Size): Conn {
    if id in c.strms && c.strms[id].unsentMaxRx <= Room(MAX_VARINT, n) then
      c.(strms := c.strms[id := c.strms[id].(unsentMaxRx := Plus(c.strms[id].unsentMaxRx, n))])
    else c
  }

  /** The new limits in numbers: added up, or the largest there is for the connection; a stream whose limit
      would grow too large keeps it. */
  lemma ExtendExact(c: Conn, id: nat, n: Size)
    requires c.unsentMaxRx <= MAX_VARINT
    ensures ExtendMaxOffset(c, n).unsentMaxRx ==
      if c.unsentMaxRx + n <= MAX_VARINT then c.unsentMaxRx + n else MAX_VARINT
    ensures ExtendMaxOffset(c, n) == c.(unsentMaxRx := ExtendMaxOffset(c, n).unsentMaxRx)
    ensures id in c.strms && n <= MAX_VARINT && c.strms[id].unsentMaxRx <= MAX_VARINT ==>
      var was, c' := c.strms[id].unsentMaxRx, ExtendMaxStreamOffset(c, id, n);
      && id in c'.strms && c' == c.(strms := c.strms[id := c'.strms[id]])
      && c'.strms[id] == c.strms[id].(unsentMaxRx := if was + n <= MAX_VARINT then was + n else was)
  {
    if id in c.strms && n <= MAX_VARINT && c.strms[id].unsentMaxRx <= MAX_VARINT {
      ExtendSmall(c.strms[id], n);
      assert c.strms[id := c.strms[id]] == c.strms;
    }
  }

  /** What MAX_DATA promises is recorded as granted. */
  function AdvertiseData(c: Conn): Conn {
    c.(maxRx := c.unsentMaxRx)
  }

  /** What MAX_STREAM_DATA promises is recorded as granted. */
  function AdvertiseStream(c: Conn, id: nat): Conn {
    if id in c.strms then c.(strms := c.strms[id := c.strms[id].(maxRx := c.strms[id].unsentMaxRx)]) else c
  }

  /** The accounting invariant of the receiving side. */
  ghost predicate Balanced(c: Conn) {
    && c.rxOffset == Sum(c.charged)
    && c.rxOffset <= c.maxRx <= c.unsentMaxRx <= MAX_VARINT
    && c.initialMaxStreamData <= MAX_VARINT && c.strms.Keys <= c.used && c.charged.Keys <= c.used
    && 0 !in c.charged
    && (forall id :: id in c.strms ==> StreamBalanced(c, id, c.strms[id]))
  }

  /** A stream has been charged for what it received; more only if it was reset beyond that. */
  ghost predicate StreamBalanced(c: Conn, id: nat, s: RxStream) {
    && s.lastRx <= s.maxRx <= s.unsentMaxRx <= MAX_VARINT
    && (id != 0 ==> var charged := if id in c.charged then c.charged[id] else 0;
                    s.lastRx <= charged && (s.shutRd || s.lastRx == charged))
  }

  datatype Event =
    | Stream(fr: StreamFrame)
    | Rst(id: nat, final: nat)
    | CloseStream(id: nat)
    | Extend(n: Size)
    | ExtendStream(id: nat, n: Size)
    | MaxDataSent
    | MaxStreamDataSent(id: nat)

  function Handle(c: Conn, e: Event): Result {
    match e
    case Stream(fr) => RecvStream(c, fr)
    case Rst(id, final) => RecvRst(c, id, final)
    case CloseStream(id) => Result(NoError, Close(c, id))
    case Extend(n) => Result(NoError, ExtendMaxOffset(c, n))
    case ExtendStream(id, n) => Result(NoError, ExtendMaxStreamOffset(c, id, n))
    case MaxDataSent => Result(NoError, AdvertiseData(c))
    case MaxStreamDataSent(id) => Result(NoError, AdvertiseStream(c, id))
  }

  function HandleAll(c: Conn, es: seq<Event>): Result
    decreases |es|
  {
    if es == [] then Result(NoError, c)
    else var r := Handle(c, es[0]); if r.error == NoError then HandleAll(r.conn, es[1..]) else r
  }

  lemma RaiseSum(charged: map<nat, nat>, id: nat, end: nat)
    requires id != 0
    ensures var was := if id in charged then charged[id] else 0;
            Sum(Raise(charged, id, end)) == Sum(charged) + (if was < end then end - was else 0)
  {
    SumSet(charged, id, end);
  }

  lemma RecvStreamBalanced(c: Conn, fr: StreamFrame)
    requires Balanced(c) && RecvStream(c, fr).error == NoError
    ensures Balanced(RecvStream(c, fr).conn)
  {
    if fr.id != 0 {
      RaiseSum(c.charged, fr.id, fr.End());
    }
  }

  lemma RecvRstBalanced(c: Conn, id: nat, final: nat)
    requires Balanced(c) && RecvRst(c, id, final).error == NoError
    ensures Balanced(RecvRst(c, id, final).conn)
  {
    if id != 0 {
      RaiseSum(c.charged, id, final);
    }
  }

  /** A stream's credit is extended by a length below 2^62, or by one so close to 2^64 that it takes
      back no more than what the peer has not been told of. */
  predicate SafeLength(s: RxStream, n: Size) {
    n <= MAX_VARINT || UINT64_MAX + 1 - n <= s.unsentMaxRx - s.maxRx
  }

  predicate Safe(c: Conn, e: Event) {
    e.ExtendStream? && e.id in c.strms ==> SafeLength(c.strms[e.id], e.n)
  }

  /** Below 2^62 nothing wraps: the length is added, or the credit stays when it would grow too large. */
  lemma ExtendSmall(s: RxStream, n: Size)
    requires n <= MAX_VARINT && s.unsentMaxRx <= MAX_VARINT
    ensures s.unsentMaxRx <= Room(MAX_VARINT, n) <==> s.unsentMaxRx + n <= MAX_VARINT
    ensures Plus(s.unsentMaxRx, n) == s.unsentMaxRx + n
  {
  }

  /** From 2^62 on the comparison never holds back, and the credit moves around modulo 2^64. */
  lemma ExtendLarge(s: RxStream, n: Size)
    requires MAX_VARINT < n && s.maxRx <= s.unsentMaxRx <= MAX_VARINT
    ensures s.unsentMaxRx <= Room(MAX_VARINT, n)
    ensures s.maxRx <= Plus(s.unsentMaxRx, n) <= MAX_VARINT <==> SafeLength(s, n)
  {
    assert MAX_VARINT - n + (UINT64_MAX + 1) == (MAX_VARINT - n) % (UINT64_MAX + 1);
    if UINT64_MAX < s.unsentMaxRx + n {
      assert Plus(s.unsentMaxRx, n) == s.unsentMaxRx + n - (UINT64_MAX + 1);
    }
  }

  lemma ExtendBalanced(c: Conn, id: nat, n: Size)
    requires Balanced(c)
    ensures Balanced(ExtendMaxStreamOffset(c, id, n)) <==> Safe(c, ExtendStream(id, n))
  {
    if id in c.strms {
      var s := c.strms[id];
      assert StreamBalanced(c, id, s);
      if n <= MAX_VARINT {
        ExtendSmall(s, n);
      } else {
        ExtendLarge(s, n);
        var c' := ExtendMaxStreamOffset(c, id, n);
        assert StreamBalanced(c', id, c'.strms[id]) <==> SafeLength(s, n);
      }
    }
  }

  /** Every event keeps the invariant, except that a stream's credit must be extended by a safe length. */
  lemma HandleBalanced(c: Conn, e: Event)
    requires Balanced(c) && Handle(c, e).error == NoError
    ensures Balanced(Handle(c, e).conn) <==> Safe(c, e)
  {
    match e
    case Stream(fr) => RecvStreamBalanced(c, fr);
    case Rst(id, final) => RecvRstBalanced(c, id, final);
    case ExtendStream(id, n) => ExtendBalanced(c, id, n);
    case _ =>
  }

  /** Such a length exists: 2^64 - 1 lowers the credit below what the peer was promised. */
  lemma CreditWithdrawn(b: byte)
    ensures var c := RecvStream(Init(100, 100), StreamFrame(4, 0, [b], false)).conn;
            var s := ExtendMaxStreamOffset(c, 4, UINT64_MAX).strms[4];
            s.unsentMaxRx == 99 && s.maxRx == 100
  {
  }

  lemma HandleCons(c: Conn, e: Event, es: seq<Event>)
    ensures HandleAll(c, [e] + es) ==
      if Handle(c, e).error == NoError then HandleAll(Handle(c, e).conn, es) else Handle(c, e)
  {
    assert ([e] + es)[1..] == es;
  }

  /** A byte of a new stream, new credit and its advertisement, one after the other. */
  lemma CreditEvents(a: byte)
    ensures HandleAll(Init(100, 100), [Stream(StreamFrame(4, 0, [a], false))] + ([Extend(7)] + ([MaxDataSent] + []))) ==
      Result(NoError, Conn(107, 107, 1, 100, map[4 := RxStream(100, 100, 1, false, map[0 := a])], {4}, map[4 := 1]))
  {
    var c1 := Conn(100, 100, 1, 100, map[4 := RxStream(100, 100, 1, false, map[0 := a])], {4}, map[4 := 1]);
    FirstByte(a);
    HandleCons(Init(100, 100), Stream(StreamFrame(4, 0, [a], false)), [Extend(7)] + ([MaxDataSent] + []));
    HandleCons(c1, Extend(7), [MaxDataSent] + []);
    HandleCons(c1.(unsentMaxRx := 107), MaxDataSent, []);
  }

  /** The same for the stream, then a reset and its end. */
  lemma StreamEvents(a: byte)
    ensures var r := RxStream(100, 100, 1, false, map[0 := a]);
            var c := Conn(107, 107, 1, 100, map[4 := r], {4}, map[4 := 1]);
            var last := [Rst(4, 30)] + ([CloseStream(4)] + []);
            HandleAll(c, [ExtendStream(4, 9)] + ([MaxStreamDataSent(4)] + last)) ==
            Result(NoError, Conn(107, 107, 30, 100, map[], {4}, map[4 := 30]))
  {
    var r := RxStream(100, 100, 1, false, map[0 := a]);
    var c := Conn(107, 107, 1, 100, map[4 := r], {4}, map[4 := 1]);
    var last := [Rst(4, 30)] + ([CloseStream(4)] + []);
    var c1 := c.(strms := map[4 := r.(unsentMaxRx := 109)]);
    HandleCons(c, ExtendStream(4, 9), [MaxStreamDataSent(4)] + last);
    assert Handle(c, ExtendStream(4, 9)) == Result(NoError, c1);
    var c2 := c.(strms := map[4 := r.(maxRx := 109, unsentMaxRx := 109)]);
    HandleCons(c1, MaxStreamDataSent(4), last);
    assert Handle(c1, MaxStreamDataSent(4)) == Result(NoError, c2);
    ResetEvents(a);
  }

  lemma ResetEvents(a: byte)
    ensures var r := RxStream(109, 109, 1, false, map[0 := a]);
            HandleAll(Conn(107, 107, 1, 100, map[4 := r], {4}, map[4 := 1]), [Rst(4, 30)] + ([CloseStream(4)] + [])) ==
            Result(NoError, Conn(107, 107, 30, 100, map[], {4}, map[4 := 30]))
  {
    var r := RxStream(109, 109, 1, false, map[0 := a]);
    var c := Conn(107, 107, 1, 100, map[4 := r], {4}, map[4 := 1]);
    var c1 := Conn(107, 107, 30, 100, map[4 := r.(shutRd := true)], {4}, map[4 := 30]);
    HandleCons(c, Rst(4, 30), [CloseStream(4)] + []);
    assert Handle(c, Rst(4, 30)) == Result(NoError, c1);
    HandleCons(c1, CloseStream(4), []);
    assert Close(c1, 4).strms == map[];
  }

  lemma FirstByte(a: byte)
    ensures Handle(Init(100, 100), Stream(StreamFrame(4, 0, [a], false))) ==
      Result(NoError, Conn(100, 100, 1, 100, map[4 := RxStream(100, 100, 1, false, map[0 := a])], {4}, map[4 := 1]))
  {
    FirstMissingIs(map[], 0);
    assert Absorb(map[], 0, [a]) == map[0 := a];
  }

  predicate SafeAll(c: Conn, es: seq<Event>)
    decreases |es|
  {
    es == [] || (Safe(c, es[0]) && SafeAll(Handle(c, es[0]).conn, es[1..]))
  }

  /** Lengths below 2^62 are always safe. */
  lemma {:induction false} SmallIsSafe(c: Conn, es: seq<Event>)
    requires forall i :: 0 <= i < |es| && es[i].ExtendStream? ==> es[i].n <= MAX_VARINT
    ensures SafeAll(c, es)
    decreases |es|
  {
    if es != [] {
      SmallIsSafe(Handle(c, es[0]).conn, es[1..]);
    }
  }

  /** Over every run of accepted frames, closings and credit updates, the connection's receive
      offset is the sum, over all streams ever seen, of the highest offset they reached, and it
      stays within what has been advertised. */
  lemma {:induction false} RunBalanced(c: Conn, es: seq<Event>)
    requires Balanced(c) && HandleAll(c, es).error == NoError && SafeAll(c, es)
    ensures Balanced(HandleAll(c, es).conn)
    decreases |es|
  {
    if es == [] {
    } else {
      HandleBalanced(c, es[0]);
      RunBalanced(Handle(c, es[0]).conn, es[1..]);
    }
  }

  lemma InitBalanced(maxData: nat, maxStreamData: nat)
    requires maxData <= MAX_VARINT && maxStreamData <= MAX_VARINT
    ensures Balanced(Init(maxData, maxStreamData))
  {
  }

  /** A reset does not raise the stream's own receive offset, so a frame that was sent before the
      reset but arrives after it is refused exactly when it reaches beyond what had arrived before
      the reset or announces an end elsewhere, although it lies within the final offset that the
      reset announced; and, as ever, when it is empty. */
  lemma LateDataAfterReset(c: Conn, id: nat, final: nat, fr: StreamFrame)
    requires Balanced(c) && id in c.strms && !c.strms[id].shutRd
    requires RecvRst(c, id, final).error == NoError
    requires fr.id == id && fr.End() <= final <= MAX_VARINT
    ensures var lastRx := c.strms[id].lastRx;
            RecvStream(RecvRst(c, id, final).conn, fr).error != NoError <==>
            lastRx < fr.End() || (fr.fin && fr.End() != lastRx) || (!fr.fin && fr.data == [])
  {
  }

  /** Such a frame exists: ten bytes sent, reset at ten, and the reset overtakes the data. */
  lemma ResetOvertakesData(b: byte)
    ensures var c0 := Init(100, 100);
            var first := StreamFrame(4, 0, [b], false);
            var late := StreamFrame(4, 1, seq(9, _ => b), false);
            var c1 := RecvStream(c0, first);
            var c2 := RecvRst(c1.conn, 4, 10);
            && c1.error == NoError && RecvStream(c1.conn, late).error == NoError
            && c2.error == NoError && RecvStream(c2.conn, late).error == FinalOffset
  {
  }

  /** For the same reason a reset that arrives twice is refused the second time, which ends the
      connection, exactly when it announced more than had arrived. */
  lemma RepeatedReset(c: Conn, id: nat, final: nat)
    requires Balanced(c) && id in c.strms && !c.strms[id].shutRd
    requires RecvRst(c, id, final).error == NoError
    ensures RecvRst(RecvRst(c, id, final).conn, id, final).error != NoError <==> c.strms[id].lastRx < final
  {
  }

  /** Once the end of a stream is known, no event moves it, and a stream that is gone stays so. */
  lemma {:induction false} EndIsFixed(c: Conn, id: nat, es: seq<Event>)
    requires id in c.used && (id in c.strms ==> c.strms[id].shutRd) && HandleAll(c, es).error == NoError
    ensures var c' := HandleAll(c, es).conn;
            id in c'.strms ==> id in c.strms && c'.strms[id].shutRd && c'.strms[id].lastRx == c.strms[id].lastRx
    decreases |es|
  {
    if es != [] {
      EndStep(c, id, es[0]);
      EndIsFixed(Handle(c, es[0]).conn, id, es[1..]);
    }
  }

  lemma EndStep(c: Conn, id: nat, e: Event)
    requires id in c.used && (id in c.strms ==> c.strms[id].shutRd) && Handle(c, e).error == NoError
    ensures var c' := Handle(c, e).conn;
            && id in c'.used
            && (id in c'.strms ==> id in c.strms && c'.strms[id].shutRd && c'.strms[id].lastRx == c.strms[id].lastRx)
  {
  }

  /** A reset leaves the end at what had arrived. Whatever comes later, when the stream counts as
      finished the application has been given that much, which is the whole stream only if the reset
      announced no more. */
  lemma TruncatedEnd(c: Conn, id: nat, final: nat, es: seq<Event>)
    requires Balanced(c) && id in c.strms && RecvRst(c, id, final).error == NoError
    requires HandleAll(RecvRst(c, id, final).conn, es).error == NoError
    ensures var c' := HandleAll(RecvRst(c, id, final).conn, es).conn;
            id in c'.strms && Finished(c'.strms[id]) ==>
            && |Delivered(c'.strms[id].got)| == c.strms[id].lastRx
            && (|Delivered(c'.strms[id].got)| < final <==> c.strms[id].lastRx < final)
  {
    EndIsFixed(RecvRst(c, id, final).conn, id, es);
  }

  /** Two of ten bytes, and the stream is finished: the second byte, the reset, then the first byte.
      A byte was missing at the reset, so the application is told of the end. */
  lemma TwoOfTen(a: byte, b: byte)
    ensures var c1 := RecvStream(Init(100, 100), StreamFrame(4, 1, [b], false)).conn;
            var c2 := RecvRst(c1, 4, 10).conn;
            var r := RecvStream(c2, StreamFrame(4, 0, [a], false));
            && 4 in c2.strms && !Finished(c2.strms[4])
            && r.error == NoError && 4 in r.conn.strms
            && Finished(r.conn.strms[4]) && Delivered(r.conn.strms[4].got) == [a, b]
  {
    var got := Absorb(map[], 1, [b]);
    FirstMissingIs(map[], 0);
    FirstMissingIs(got, 0);
    var all := Absorb(got, 0, [a]);
    DeliveredIs([a, b], all);
  }
}
