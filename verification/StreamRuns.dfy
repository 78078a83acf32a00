/** What the application sees of one stream over any sequence of arriving frames, including frames
    that overlap, repeat or contradict each other (Polygon/lib/ngtcp2_conn.c, conn_recv_stream). */
module StreamRuns {
  import opened Basics
  import opened StreamReceive

  /** A frame, and the connection credit left when it arrives. */
  datatype Arrival = Arrival(fr: StreamFrame, credit: nat)

  function After(s: RxStream, arrivals: seq<Arrival>): RxStream
    decreases |arrivals|
  {
    if arrivals == [] then s else After(Accept(s, arrivals[0].fr, arrivals[0].credit).strm, arrivals[1..])
  }

  ghost predicate Carries(arrivals: seq<Arrival>, x: int, b: byte) {
    exists i :: 0 <= i < |arrivals| && CarriesAt(arrivals[i].fr, x, b)
  }

  predicate CarriesAt(fr: StreamFrame, x: int, b: byte) {
    fr.offset <= x < fr.End() && fr.data[x - fr.offset] == b
  }

  lemma AcceptGrows(s: RxStream, fr: StreamFrame, credit: nat)
    ensures Delivered(s.got) <= Delivered(Accept(s, fr, credit).strm.got)
  {
    var s' := Accept(s, fr, credit).strm;
    var rx := FirstMissing(s.got, 0);
    if s'.got != s.got {
      forall x | 0 <= x < rx
        ensures x in s'.got && s'.got[x] == s.got[x]
      {
        AbsorbAt(s.got, fr.offset, fr.data, x);
      }
      assert FirstMissing(s'.got, 0) >= rx;
    }
  }

  /** A byte handed to the application is never taken back, repeated or changed. */
  lemma {:induction false} DeliveryIsStable(s: RxStream, arrivals: seq<Arrival>)
    ensures Delivered(s.got) <= Delivered(After(s, arrivals).got)
    decreases |arrivals|
  {
    if arrivals == [] {
    } else {
      var s' := Accept(s, arrivals[0].fr, arrivals[0].credit).strm;
      AcceptGrows(s, arrivals[0].fr, arrivals[0].credit);
      DeliveryIsStable(s', arrivals[1..]);
    }
  }

  /** Every byte the receiver holds came from a frame that carried it at this very offset. */
  lemma {:induction false} NothingInvented(s: RxStream, arrivals: seq<Arrival>, x: nat)
    requires x in After(s, arrivals).got
    ensures var b := After(s, arrivals).got[x]; (x in s.got && s.got[x] == b) || Carries(arrivals, x, b)
    decreases |arrivals|
  {
    if arrivals == [] {
    } else {
      var fr := arrivals[0].fr;
      var s' := Accept(s, fr, arrivals[0].credit).strm;
      NothingInvented(s', arrivals[1..], x);
      var b := After(s, arrivals).got[x];
      if x in s'.got && s'.got[x] == b {
        AbsorbAt(s.got, fr.offset, fr.data, x);
        assert (x in s.got && s.got[x] == b) || CarriesAt(arrivals[0].fr, x, b);
      } else {
        var i :| 0 <= i < |arrivals[1..]| && CarriesAt(arrivals[1..][i].fr, x, b);
        assert CarriesAt(arrivals[i + 1].fr, x, b);
      }
    }
  }

  // ---------- the end of a stream ----------

  lemma {:induction false} AfterConcat(s: RxStream, a: seq<Arrival>, b: seq<Arrival>)
    ensures After(s, a + b) == After(After(s, a), b)
    decreases |a|
  {
    if a == [] {
      assert a + b == b;
    } else {
      AfterConcat(Accept(s, a[0].fr, a[0].credit).strm, a[1..], b);
      assert (a + b)[1..] == a[1..] + b;
    }
  }

  /** The highest offset never falls, and once the end is known it does not move. */
  lemma {:induction false} LastStays(s: RxStream, arrivals: seq<Arrival>)
    ensures var s' := After(s, arrivals);
            s.lastRx <= s'.lastRx && (s.shutRd ==> s'.shutRd && s'.lastRx == s.lastRx)
    decreases |arrivals|
  {
    if arrivals != [] {
      AcceptExact(s, arrivals[0].fr, arrivals[0].credit, 0);
      LastStays(Accept(s, arrivals[0].fr, arrivals[0].credit).strm, arrivals[1..]);
    }
  }

  /** The `i`th arrival is accepted. */
  predicate Accepted(s: RxStream, arrivals: seq<Arrival>, i: nat)
    requires i < |arrivals|
  {
    Accept(After(s, arrivals[..i]), arrivals[i].fr, arrivals[i].credit).error == NoError
  }

  lemma LaterState(s: RxStream, arrivals: seq<Arrival>, i: nat, j: nat)
    requires i < j <= |arrivals| && Accepted(s, arrivals, i)
    ensures var now, end := After(s, arrivals[..j]), arrivals[i].fr.End();
            end <= now.lastRx && (arrivals[i].fr.fin ==> now.shutRd && now.lastRx == end)
  {
    var before := After(s, arrivals[..i]);
    var a := arrivals[i];
    AcceptExact(before, a.fr, a.credit, 0);
    assert arrivals[..j] == arrivals[..i] + ([a] + arrivals[i + 1..j]);
    AfterConcat(s, arrivals[..i], [a] + arrivals[i + 1..j]);
    assert ([a] + arrivals[i + 1..j])[1..] == arrivals[i + 1..j];
    LastStays(Accept(before, a.fr, a.credit).strm, arrivals[i + 1..j]);
  }

  /** A stream has one end: over any run, no accepted frame, earlier or later, reaches beyond an accepted
      frame that ends the stream, and two that end it do so at the same offset. */
  lemma OneEnd(s: RxStream, arrivals: seq<Arrival>, i: nat, j: nat)
    requires i < |arrivals| && j < |arrivals| && Accepted(s, arrivals, i) && Accepted(s, arrivals, j)
    requires arrivals[i].fr.fin
    ensures arrivals[j].fr.End() <= arrivals[i].fr.End()
    ensures arrivals[j].fr.fin ==> arrivals[j].fr.End() == arrivals[i].fr.End()
  {
    var early, late := if i < j then i else j, if i < j then j else i;
    if early < late {
      LaterState(s, arrivals, early, late);
      AcceptExact(After(s, arrivals[..late]), arrivals[late].fr, arrivals[late].credit, 0);
    }
  }

  /** After the end has been flagged nothing changes any more, so it is flagged once. */
  lemma {:induction false} FinishedIsFinal(s: RxStream, arrivals: seq<Arrival>)
    requires Finished(s)
    ensures After(s, arrivals) == s
    decreases |arrivals|
  {
    if arrivals == [] {
    } else {
      if arrivals[0].fr.End() <= FirstMissing(s.got, 0) {
        AbsorbNothing(s.got, arrivals[0].fr);
      }
      FinishedIsFinal(s, arrivals[1..]);
    }
  }

  /** A stream fed from scratch with frames of one byte string hands out a prefix of it. */
  lemma InOrderPrefix(maxRx: nat, arrivals: seq<Arrival>, content: seq<byte>)
    requires forall a :: a in arrivals ==> a.fr.End() <= |content| && a.fr.data == content[a.fr.offset..a.fr.End()]
    ensures Delivered(After(RxStream(maxRx, maxRx, 0, false, map[]), arrivals).got) <= content
  {
    var s := RxStream(maxRx, maxRx, 0, false, map[]);
    var got := After(s, arrivals).got;
    forall x | x in got
      ensures x < |content| && got[x] == content[x]
    {
      NothingInvented(s, arrivals, x);
      var i :| 0 <= i < |arrivals| && CarriesAt(arrivals[i].fr, x, got[x]);
      assert arrivals[i] in arrivals;
    }
    PrefixOfContent(got, content);
  }

  lemma PrefixOfContent(got: map<nat, byte>, content: seq<byte>)
    requires forall x :: x in got ==> x < |content| && got[x] == content[x]
    ensures Delivered(got) <= content
  {
    var d := Delivered(got);
    assert |d| > 0 ==> |d| - 1 in got;
  }

  /** An accepted frame leaves all its bytes with the receiver, except when it repeats a known end:
      then whatever it carries beyond what is already there is dropped. */
  lemma RepeatedEndDropsData(s: RxStream, fr: StreamFrame, credit: nat)
    requires Accept(s, fr, credit).error == NoError
    ensures (forall x :: fr.offset <= x < fr.End() ==> x in Accept(s, fr, credit).strm.got) <==>
            !(fr.fin && s.shutRd) || (forall x :: fr.offset <= x < fr.End() ==> x in s.got)
  {
    forall x | fr.offset <= x < fr.End()
      ensures x in Absorb(s.got, fr.offset, fr.data)
    {
      AbsorbAt(s.got, fr.offset, fr.data, x);
    }
  }

  /** Such a loss happens: the end is announced by an empty frame first, and the last byte only
      comes in a frame that announces the end again. */
  lemma DroppedByte(b: byte)
    ensures var s := RxStream(10, 10, 0, false, map[]);
            var end := StreamFrame(4, 1, [], true);
            var data := StreamFrame(4, 0, [b], true);
            var s' := After(s, [Arrival(end, 10), Arrival(data, 10)]);
            && Accept(s, end, 10).error == NoError && Accept(Accept(s, end, 10).strm, data, 10).error == NoError
            && Delivered(s'.got) == []
  {
    var s := RxStream(10, 10, 0, false, map[]);
    var end := StreamFrame(4, 1, [], true);
    var data := StreamFrame(4, 0, [b], true);
    var arrivals := [Arrival(end, 10), Arrival(data, 10)];
    var s1 := Accept(s, end, 10).strm;
    assert 0 !in s1.got by { AbsorbAt(map[], 1, [], 0); }
    assert arrivals[1..] == [Arrival(data, 10)] && arrivals[1..][1..] == [];
    assert After(s, arrivals) == After(s1, [Arrival(data, 10)]) == s1;
  }
}
