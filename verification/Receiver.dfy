/** The receiving side of a connection as it is updated in place: the stream table, the list of
    streams waiting for a MAX_STREAM_DATA frame and the queue of frames to send
    (Polygon/lib/ngtcp2_conn.c). */
module Receiver {
  import opened Ranges
  import opened StreamReceive
  import C = Connection

  datatype CreditFrame = MaxData(max: nat) | MaxStreamData(id: nat, max: nat)

  class Connection {
    const maxData: nat
    const maxStreamData: nat
    var maxRx: nat
    var unsentMaxRx: nat
    var rxOffset: nat
    var strms: map<nat, RxStream>
    var used: set<nat>
    var fcStrms: seq<nat>
    var frq: seq<CreditFrame>
    ghost var charged: map<nat, nat>

    ghost function View(): C.Conn
      reads this
    {
      C.Conn(maxRx, unsentMaxRx, rxOffset, maxStreamData, strms, used, charged)
    }

    predicate ShouldSendMaxStreamData(s: RxStream)
    {
      maxStreamData / 2 < C.Room(s.unsentMaxRx, s.maxRx)
    }

    /** The waiting list holds open streams once each, and every open stream whose credit has
        grown by more than half a window is on it. */
    ghost predicate Queued()
      reads this
    {
      && (forall i :: 0 <= i < |fcStrms| ==> fcStrms[i] in strms && !strms[fcStrms[i]].shutRd)
      && (forall i, j :: 0 <= i < j < |fcStrms| ==> fcStrms[i] != fcStrms[j])
      && (forall id :: id in strms && !strms[id].shutRd && ShouldSendMaxStreamData(strms[id]) ==> id in fcStrms)
    }

    ghost predicate Valid()
      reads this
    {
      C.Balanced(View()) && Queued()
    }

    constructor (maxData: nat, maxStreamData: nat)
      requires maxData <= MAX_VARINT && maxStreamData <= MAX_VARINT
      ensures Valid() && View() == C.Init(maxData, maxStreamData) && frq == [] && fcStrms == []
    {
      this.maxData, this.maxStreamData := maxData, maxStreamData;
      maxRx, unsentMaxRx, rxOffset := maxData, maxData, 0;
      strms, used, charged, fcStrms, frq := map[], {}, map[], [], [];
      new;
      C.InitBalanced(maxData, maxStreamData);
    }

    /** Takes stream `id` off the waiting list. */
    method Unqueue(id: nat)
      requires forall i, j :: 0 <= i < j < |fcStrms| ==> fcStrms[i] != fcStrms[j]
      modifies this`fcStrms
      ensures forall i :: 0 <= i < |fcStrms| ==> fcStrms[i] != id && fcStrms[i] in old(fcStrms)
      ensures forall x :: x in old(fcStrms) && x != id ==> x in fcStrms
      ensures forall i, j :: 0 <= i < j < |fcStrms| ==> fcStrms[i] != fcStrms[j]
    {
      var i := 0;
      while i < |fcStrms| && fcStrms[i] != id
        invariant 0 <= i <= |fcStrms| && id !in fcStrms[..i]
      {
        i := i + 1;
      }
      if i < |fcStrms| {
        ghost var before := fcStrms;
        fcStrms := fcStrms[..i] + fcStrms[i + 1..];
        assert before == before[..i] + [id] + before[i + 1..];
      }
    }

    /** Finds the stream of a frame, creating it when its id is new; a closed one is not found. */
    method FindOrOpen(id: nat) returns (found: bool)
      requires Valid()
      modifies this`strms, this`used
      ensures found <==> !C.Closed(old(View()), id)
      ensures found ==> id in strms && strms == old(strms)[id := C.Lookup(old(View()), id)] && used == old(used) + {id}
      ensures !found ==> View() == old(View())
      ensures Queued()
    {
      if id !in strms {
        if id in used {
          return false;
        }
        strms := strms[id := RxStream(maxStreamData, maxStreamData, 0, false, map[])];
      }
      used := used + {id};
      return true;
    }

    /** Stores what a frame made of its stream. */
    method StoreStream(id: nat, s: RxStream)
      requires Queued() && id in strms
      requires s == strms[id].(lastRx := s.lastRx, shutRd := s.shutRd, got := s.got) && (strms[id].shutRd ==> s.shutRd)
      modifies this`strms, this`fcStrms
      ensures Queued() && strms == old(strms)[id := s]
    {
      strms := strms[id := s];
      if s.shutRd {
        Unqueue(id);
      }
    }

    /** Receives a frame for a stream that has just been found or opened in `c`. */
    method RecvOpen(fr: StreamFrame, ghost c: C.Conn) returns (err: Error)
      requires Queued() && rxOffset <= maxRx && fr.id in strms
      requires View() == c.(strms := c.strms[fr.id := C.Lookup(c, fr.id)], used := c.used + {fr.id})
      modifies this`strms, this`fcStrms, this`rxOffset, this`charged
      ensures Queued() && C.Result(err, View()) == C.RecvOpen(c, fr)
    {
      var o := Accept(strms[fr.id], fr, maxRx - rxOffset);
      StoreStream(fr.id, o.strm);
      assert strms == c.strms[fr.id := o.strm];
      rxOffset := rxOffset + o.charged;
      charged := if o.error == NoError then C.Raise(charged, fr.id, fr.End()) else charged;
      return o.error;
    }

    /** Receives a STREAM frame. After an error the connection is given up. */
    method RecvStream(fr: StreamFrame) returns (err: Error)
      requires Valid()
      modifies this`strms, this`used, this`fcStrms, this`rxOffset, this`charged
      ensures C.Result(err, View()) == C.RecvStream(old(View()), fr)
      ensures err == NoError ==> Valid()
    {
      ghost var c := View();
      if fr.id == 0 && fr.fin {
        return Proto;
      }
      if !fr.fin && fr.data == [] {
        return FrameFormat;
      }
      if MAX_VARINT < fr.End() {
        return Proto;
      }
      var found := FindOrOpen(fr.id);
      if !found {
        return NoError;
      }
      err := RecvOpen(fr, c);
      if err == NoError {
        C.RecvStreamBalanced(c, fr);
      }
    }

    /** The application has consumed data of a stream. */
    method ExtendMaxStreamOffset(id: nat, n: C.Size)
      requires Valid()
      modifies this`strms, this`fcStrms
      ensures Queued() && View() == C.ExtendMaxStreamOffset(old(View()), id, n)
      ensures Valid() <==> C.Safe(old(View()), C.ExtendStream(id, n))
      ensures fcStrms == old(fcStrms) || fcStrms == [id] + old(fcStrms)
      ensures id !in old(fcStrms) && id in strms && strms[id].maxRx <= strms[id].unsentMaxRx <= MAX_VARINT ==>
        (id in fcStrms <==> !strms[id].shutRd && strms[id].unsentMaxRx - strms[id].maxRx > maxStreamData / 2)
    {
      ghost var c := View();
      if id !in strms {
        return;
      }
      var s := strms[id];
      if s.unsentMaxRx <= C.Room(MAX_VARINT, n) {
        s := s.(unsentMaxRx := C.Plus(s.unsentMaxRx, n));
        strms := strms[id := s];
      }
      C.HandleBalanced(c, C.ExtendStream(id, n));
      assert View() == C.ExtendMaxStreamOffset(c, id, n);
      if !s.shutRd && id !in fcStrms && ShouldSendMaxStreamData(s) {
        fcStrms := [id] + fcStrms;
      }
    }

    /** Queues MAX_DATA when it is due, or when a packet is sent anyway and there is new credit. */
    method QueueMaxData(riding: bool)
      requires Valid()
      modifies this`maxRx, this`frq
      ensures Valid()
      ensures if old(maxRx) < unsentMaxRx && (riding || maxData / 2 < unsentMaxRx - old(maxRx))
              then View() == C.AdvertiseData(old(View())) && frq == [MaxData(maxRx)] + old(frq)
              else View() == old(View()) && frq == old(frq)
    {
      if (riding || maxData / 2 < unsentMaxRx - maxRx) && unsentMaxRx > maxRx {
        frq := [MaxData(unsentMaxRx)] + frq;
        maxRx := unsentMaxRx;
      }
    }

    /** The first waiting stream gets its MAX_STREAM_DATA frame. */
    method PopWaiting()
      requires Valid() && fcStrms != []
      modifies this`strms, this`fcStrms, this`frq
      ensures Valid() && fcStrms == old(fcStrms)[1..]
      ensures var id := old(fcStrms)[0];
              && id in old(strms)
              && View() == C.AdvertiseStream(old(View()), id)
              && frq == [MaxStreamData(id, old(strms)[id].unsentMaxRx)] + old(frq)
    {
      var id := fcStrms[0];
      C.HandleBalanced(View(), C.MaxStreamDataSent(id));
      frq := [MaxStreamData(id, strms[id].unsentMaxRx)] + frq;
      strms := strms[id := strms[id].(maxRx := strms[id].unsentMaxRx)];
      fcStrms := fcStrms[1..];
    }

    /** Every waiting stream gets its MAX_STREAM_DATA frame; afterwards no open stream has more
        than half a window of credit that its peer has not been told about. */
    method QueueMaxStreamData()
      requires Valid()
      modifies this`strms, this`fcStrms, this`frq
      ensures Valid() && fcStrms == []
      ensures View() == AdvertiseAll(old(View()), old(fcStrms))
      ensures frq == CreditFrames(old(View()), old(fcStrms)) + old(frq)
      ensures forall id :: id in strms && !strms[id].shutRd ==> !ShouldSendMaxStreamData(strms[id])
    {
      while |fcStrms| > 0
        invariant Valid()
        invariant AdvertiseAll(View(), fcStrms) == AdvertiseAll(old(View()), old(fcStrms))
        invariant CreditFrames(View(), fcStrms) + frq == CreditFrames(old(View()), old(fcStrms)) + old(frq)
        decreases |fcStrms|
      {
        ghost var c, ids := View(), fcStrms;
        PopWaiting();
        FramesStep(c, ids, frq[1..]);
        assert frq == [MaxStreamData(ids[0], c.strms[ids[0]].unsentMaxRx)] + frq[1..];
      }
    }
  }

  ghost function AdvertiseAll(c: C.Conn, ids: seq<nat>): C.Conn
    decreases |ids|
  {
    if ids == [] then c else AdvertiseAll(C.AdvertiseStream(c, ids[0]), ids[1..])
  }

  /** One frame per waiting stream, announcing all the credit it has; the last one queued comes first. */
  ghost function CreditFrames(c: C.Conn, ids: seq<nat>): seq<CreditFrame>
    decreases |ids|
  {
    if ids == [] || ids[0] !in c.strms then []
    else CreditFrames(C.AdvertiseStream(c, ids[0]), ids[1..]) + [MaxStreamData(ids[0], c.strms[ids[0]].unsentMaxRx)]
  }

  lemma FramesStep(c: C.Conn, ids: seq<nat>, rest: seq<CreditFrame>)
    requires ids != [] && ids[0] in c.strms
    ensures CreditFrames(c, ids) + rest ==
            CreditFrames(C.AdvertiseStream(c, ids[0]), ids[1..]) +
            ([MaxStreamData(ids[0], c.strms[ids[0]].unsentMaxRx)] + rest)
  {
  }
}
