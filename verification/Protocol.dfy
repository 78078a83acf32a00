/** Two endpoints and the network between them: one writes streams with
    ngtcp2_conn_write_stream, the other receives them and advertises credit
    (Polygon/lib/ngtcp2_conn.c). Frames may be lost, reordered and duplicated. */
module Protocol {
  import opened Basics
  import opened Ranges
  import opened StreamReceive
  import opened Connection
  import opened Sums

  /** The sending half of a stream; `written` is everything put on it so far. */
  datatype TxStream = TxStream(maxTx: nat, shutWr: bool, written: seq<byte>)

  datatype Sender = Sender(maxTx: nat, txOffset: nat, initialMaxStreamData: nat, strms: map<nat, TxStream>)

  datatype WriteResult =
    | Blocked
    | ShutWr
    | Sent(frame: StreamFrame, sender: Sender)

  /** What the application at the receiving end has seen of a stream. */
  datatype AppView = AppView(bytes: seq<byte>, fin: bool)

  /** Every frame ever sent stays available for delivery: this covers loss, reordering,
      duplication and retransmission. `processed` and `app` record what happened at the receiver. */
  datatype System = System(tx: Sender, rx: Conn, frames: set<StreamFrame>, maxData: set<nat>,
                           maxStreamData: set<(nat, nat)>,
                           processed: set<StreamFrame>, app: map<nat, AppView>, error: Error)

  datatype Action =
    | Write(id: nat, data: seq<byte>, fin: bool, left: nat)
    | Deliver(fr: StreamFrame)
    | Consume(n: Size)
    | ConsumeStream(id: nat, n: Size)
    | SendMaxData
    | SendMaxStreamData(id: nat)
    | DeliverMaxData(max: nat)
    | DeliverMaxStreamData(id: nat, max: nat)
    | CloseFinished(id: nat)

  function Min(a: nat, b: nat): nat {
    if a < b then a else b
  }

  function TxLookup(s: Sender, id: nat): TxStream {
    if id in s.strms then s.strms[id] else TxStream(s.initialMaxStreamData, false, [])
  }

  /** Writes as much of `data` as packet space, stream credit and connection credit allow. */
  function WriteStream(s: Sender, id: nat, data: seq<byte>, fin: bool, left: nat): WriteResult
  {
    var t := TxLookup(s, id);
    var n := Min(Min(|data|, left), Min(Room(t.maxTx, |t.written|), Room(s.maxTx, s.txOffset)));
    if t.shutWr then ShutWr
    else if |data| > 0 && n == 0 then Blocked
    else
      var last := fin && n == |data|;
      var t' := t.(written := t.written + data[..n], shutWr := last);
      Sent(StreamFrame(id, |t.written|, data[..n], last),
           s.(strms := s.strms[id := t'], txOffset := if id != 0 then s.txOffset + n else s.txOffset))
  }

  /** `m` bytes of `data` fit into the packet and stay within both limits. */
  predicate MaySend(s: Sender, t: TxStream, data: seq<byte>, left: nat, m: nat) {
    m <= |data| && m <= left && |t.written| + m <= t.maxTx && s.txOffset + m <= s.maxTx
  }

  /** While both offsets are within their limits, a write on an open stream is held back exactly when
      there is data and no room at all for it. Otherwise the frame starts where the stream stopped and
      carries as many bytes as may be sent, with the end if it was asked for and all of them fit. */
  lemma WriteExact(s: Sender, id: nat, data: seq<byte>, fin: bool, left: nat)
    requires |TxLookup(s, id).written| <= TxLookup(s, id).maxTx && s.txOffset <= s.maxTx
    ensures var t, w := TxLookup(s, id), WriteStream(s, id, data, fin, left);
            && (w.ShutWr? <==> t.shutWr)
            && (w.Blocked? <==> !t.shutWr && data != [] &&
                                (left == 0 || |t.written| == t.maxTx || s.txOffset == s.maxTx))
            && (w.Sent? ==>
                  var m := |w.frame.data|;
                  && MaySend(s, t, data, left, m) && !MaySend(s, t, data, left, m + 1)
                  && w.frame == StreamFrame(id, |t.written|, data[..m], fin && m == |data|)
                  && TxLookup(w.sender, id) == TxStream(t.maxTx, w.frame.fin, t.written + w.frame.data)
                  && w.sender.txOffset == s.txOffset + (if id == 0 then 0 else m))
  {
  }

  function Init(maxData: nat, maxStreamData: nat): System {
    System(Sender(maxData, 0, maxStreamData, map[]), Connection.Init(maxData, maxStreamData),
           {}, {}, {}, {}, map[], NoError)
  }

  /** One step; a step that is not enabled changes nothing. The application may extend the credit of a
      stream by any length that does not withdraw a promise. */
  function Apply(s: System, a: Action): System {
    match a
    case Write(id, data, fin, left) =>
      if id == 0 || (data == [] && !fin) then s
      else (
        match WriteStream(s.tx, id, data, fin, left)
        case Sent(fr, tx) => s.(tx := tx, frames := s.frames + {fr})
        case _ => s)
    case Deliver(fr) =>
      if fr !in s.frames || s.error != NoError then s else DeliverFrame(s, fr)
    case Consume(n) => s.(rx := ExtendMaxOffset(s.rx, n))
    case ConsumeStream(id, n) =>
      if Safe(s.rx, ExtendStream(id, n)) then s.(rx := ExtendMaxStreamOffset(s.rx, id, n)) else s
    case SendMaxData => s.(rx := AdvertiseData(s.rx), maxData := s.maxData + {s.rx.unsentMaxRx})
    case SendMaxStreamData(id) =>
      if id in s.rx.strms then
        s.(rx := AdvertiseStream(s.rx, id), maxStreamData := s.maxStreamData + {(id, s.rx.strms[id].unsentMaxRx)})
      else s
    case DeliverMaxData(n) =>
      if n in s.maxData && s.tx.maxTx < n then s.(tx := s.tx.(maxTx := n)) else s
    case DeliverMaxStreamData(id, n) =>
      var t := TxLookup(s.tx, id);
      if (id, n) in s.maxStreamData && t.maxTx < n then
        s.(tx := s.tx.(strms := s.tx.strms[id := t.(maxTx := n)]))
      else s
    case CloseFinished(id) =>
      if id in s.rx.strms && Finished(s.rx.strms[id]) then s.(rx := Close(s.rx, id)) else s
  }

  function DeliverFrame(s: System, fr: StreamFrame): System {
    var r := RecvStream(s.rx, fr);
    if r.error != NoError then s.(rx := r.conn, error := r.error)
    else
      s.(rx := r.conn, processed := s.processed + {fr},
         app := if fr.id in r.conn.strms
                then s.app[fr.id := AppView(Delivered(r.conn.strms[fr.id].got), Finished(r.conn.strms[fr.id]))]
                else s.app)
  }

  /** A frame under way is given to the receiver, whose error, if any, stays; otherwise the application sees
      what has been delivered. */
  lemma DeliverExact(s: System, fr: StreamFrame)
    requires fr in s.frames && s.error == NoError
    ensures var r, s' := RecvStream(s.rx, fr), Apply(s, Deliver(fr));
            && s'.error == r.error && s'.rx == r.conn && s'.tx == s.tx && s'.frames == s.frames
            && (r.error == NoError ==> s'.processed == s.processed + {fr})
            && (r.error == NoError && fr.id in r.conn.strms ==>
                  fr.id in s'.app && s'.app[fr.id].bytes == Delivered(r.conn.strms[fr.id].got) &&
                  (s'.app[fr.id].fin <==> Finished(r.conn.strms[fr.id])))
  {
  }

  function Run(s: System, actions: seq<Action>): System
    decreases |actions|
  {
    if actions == [] then s else Run(Apply(s, actions[0]), actions[1..])
  }

  // ---------- what every step keeps ----------

  ghost function Lens(tx: Sender): map<nat, nat> {
    map id | id in tx.strms :: |tx.strms[id].written|
  }

  /** The sender stays within the credit it knows of. */
  ghost predicate SenderOk(tx: Sender) {
    && tx.txOffset == Sum(Lens(tx)) && tx.txOffset <= tx.maxTx
    && 0 !in tx.strms && tx.initialMaxStreamData <= MAX_VARINT
    && (forall id :: id in tx.strms ==> |tx.strms[id].written| <= tx.strms[id].maxTx <= MAX_VARINT)
  }

  /** A frame in the network carries what was written at these offsets. */
  ghost predicate FrameOk(tx: Sender, fr: StreamFrame) {
    && fr.id in tx.strms && fr.End() <= |tx.strms[fr.id].written|
    && fr.data == tx.strms[fr.id].written[fr.offset..fr.End()]
    && (fr.fin ==> tx.strms[fr.id].shutWr && fr.End() == |tx.strms[fr.id].written|)
    && (fr.fin || fr.data != [])
  }

  ghost predicate FramesOk(tx: Sender, frames: set<StreamFrame>) {
    && (forall fr :: fr in frames ==> FrameOk(tx, fr))
    && (forall f, g :: f in frames && g in frames && f.fin && g.fin && f.id == g.id ==> f == g)
  }

  ghost predicate Carried(frames: set<StreamFrame>, id: nat, x: int) {
    exists fr :: fr in frames && fr.id == id && fr.offset <= x < fr.End()
  }

  ghost predicate Ended(frames: set<StreamFrame>, id: nat) {
    exists fr :: fr in frames && fr.id == id && fr.fin
  }

  /** Everything written is in some frame, and a stream that was ended has a frame that says so. */
  ghost predicate CoverOk(t: TxStream, frames: set<StreamFrame>, id: nat) {
    && (forall x :: 0 <= x < |t.written| ==> Carried(frames, id, x))
    && (t.shutWr ==> Ended(frames, id))
  }

  /** The sender never knows of more stream credit than the receiver has recorded as granted. */
  ghost predicate LimitOk(tx: Sender, rx: Conn, id: nat) {
    !Closed(rx, id) ==> TxLookup(tx, id).maxTx <= Lookup(rx, id).maxRx
  }

  ghost predicate AdvertOk(rx: Conn, id: nat, n: nat) {
    id in rx.used && n <= MAX_VARINT && (id in rx.strms ==> n <= rx.strms[id].maxRx)
  }

  ghost predicate LimitsOk(s: System) {
    && s.tx.maxTx <= s.rx.maxRx && s.tx.initialMaxStreamData == s.rx.initialMaxStreamData
    && (forall n :: n in s.maxData ==> n <= s.rx.maxRx)
    && (forall id :: LimitOk(s.tx, s.rx, id))
    && (forall p :: p in s.maxStreamData ==> AdvertOk(s.rx, p.0, p.1))
  }

  /** What the receiver holds of a stream is part of what was written on it. */
  ghost predicate RxOk(t: TxStream, r: RxStream) {
    && r.lastRx <= |t.written|
    && (r.shutRd ==> t.shutWr && r.lastRx == |t.written|)
    && (forall x :: x in r.got ==> x < r.lastRx && r.got[x] == t.written[x])
  }

  ghost predicate ReceiverOk(tx: Sender, rx: Conn) {
    && Balanced(rx) && rx.used <= tx.strms.Keys
    && (forall id :: id in rx.strms ==> RxOk(tx.strms[id], rx.strms[id]))
    && (forall id :: id in rx.charged ==> rx.charged[id] <= |tx.strms[id].written|)
  }

  /** The application has seen a prefix of what was written, and the end only after all of it. */
  ghost predicate AppOk(s: System, id: nat) {
    && (id in s.app ==> id in s.tx.strms && s.app[id].bytes <= s.tx.strms[id].written)
    && (id in s.app && s.app[id].fin ==> s.tx.strms[id].shutWr && s.app[id].bytes == s.tx.strms[id].written)
    && (id in s.app && id in s.rx.strms ==>
          s.app[id] == AppView(Delivered(s.rx.strms[id].got), Finished(s.rx.strms[id])))
    && (Closed(s.rx, id) ==> id in s.app && s.app[id].fin)
  }

  /** A processed frame has left all its bytes with the receiver. */
  ghost predicate ProcessedOk(s: System, fr: StreamFrame) {
    && fr in s.frames && fr.id in s.app && fr.id in s.rx.used
    && (fr.id in s.rx.strms ==>
          && (forall x :: fr.offset <= x < fr.End() ==> x in s.rx.strms[fr.id].got)
          && (fr.fin ==> s.rx.strms[fr.id].shutRd))
  }

  ghost predicate Inv(s: System) {
    && SenderOk(s.tx) && FramesOk(s.tx, s.frames) && LimitsOk(s) && ReceiverOk(s.tx, s.rx)
    && (forall id :: id in s.tx.strms ==> CoverOk(s.tx.strms[id], s.frames, id))
    && (forall id :: AppOk(s, id))
    && (forall fr :: fr in s.processed ==> ProcessedOk(s, fr))
    && (forall id :: id in s.rx.strms && s.rx.strms[id].shutRd ==> Ended(s.processed, id))
    && s.error == NoError
  }

  // ---------- the sender's steps ----------

  /** The relation between the sender before and after it sent `fr` on stream `id`. */
  ghost predicate Appended(tx: Sender, tx': Sender, id: nat, fr: StreamFrame) {
    && tx'.strms.Keys == tx.strms.Keys + {id} && !TxLookup(tx, id).shutWr
    && tx'.maxTx == tx.maxTx && tx'.initialMaxStreamData == tx.initialMaxStreamData
    && (forall j :: j != id && j in tx.strms ==> tx'.strms[j] == tx.strms[j])
    && tx'.strms[id].maxTx == TxLookup(tx, id).maxTx
    && tx'.strms[id].written == TxLookup(tx, id).written + fr.data
    && tx'.strms[id].shutWr == fr.fin
    && fr.id == id && fr.offset == |TxLookup(tx, id).written| && (fr.fin || fr.data != [])
  }

  lemma LensSet(tx: Sender, id: nat, t: TxStream)
    ensures Lens(tx.(strms := tx.strms[id := t])) == Lens(tx)[id := |t.written|]
  {
  }

  /** Writing stays within both limits and puts exactly the accepted bytes on the wire. */
  lemma WriteSender(tx: Sender, id: nat, data: seq<byte>, fin: bool, left: nat)
    requires SenderOk(tx) && id != 0 && WriteStream(tx, id, data, fin, left).Sent?
    requires fin || data != []
    ensures var w := WriteStream(tx, id, data, fin, left); SenderOk(w.sender) && Appended(tx, w.sender, id, w.frame)
  {
    var w := WriteStream(tx, id, data, fin, left);
    var t := w.sender.strms[id];
    LensSet(tx, id, t);
    assert Lens(w.sender) == Lens(tx)[id := |t.written|];
    SumSet(Lens(tx), id, |t.written|);
  }

  lemma WriteInv(s: System, id: nat, data: seq<byte>, fin: bool, left: nat)
    requires Inv(s)
    ensures Inv(Apply(s, Write(id, data, fin, left)))
  {
    if id != 0 && (data != [] || fin) {
      var w := WriteStream(s.tx, id, data, fin, left);
      if w.Sent? {
        WriteSender(s.tx, id, data, fin, left);
        WriteFrames(s, id, w.frame, w.sender);
        WriteCover(s, id, w.frame, w.sender);
        WriteReceiver(s, id, w.frame, w.sender);
      }
    }
  }

  lemma WriteFrames(s: System, id: nat, fr: StreamFrame, tx: Sender)
    requires FramesOk(s.tx, s.frames) && Appended(s.tx, tx, id, fr)
    ensures FramesOk(tx, s.frames + {fr})
  {
    forall f | f in s.frames + {fr}
      ensures FrameOk(tx, f)
    {
      if f != fr {
        assert FrameOk(s.tx, f);
      }
    }
  }

  lemma WriteCover(s: System, id: nat, fr: StreamFrame, tx: Sender)
    requires Inv(s) && Appended(s.tx, tx, id, fr)
    ensures forall j :: j in tx.strms ==> CoverOk(tx.strms[j], s.frames + {fr}, j)
  {
    forall j | j in tx.strms
      ensures CoverOk(tx.strms[j], s.frames + {fr}, j)
    {
      if j in s.tx.strms {
        assert CoverOk(s.tx.strms[j], s.frames, j);
      }
      assert fr in s.frames + {fr};
      forall x | 0 <= x < |tx.strms[j].written|
        ensures Carried(s.frames + {fr}, j, x)
      {
        if j in s.tx.strms && x < |s.tx.strms[j].written| {
          assert Carried(s.frames, j, x);
        }
      }
    }
  }

  lemma WriteReceiver(s: System, id: nat, fr: StreamFrame, tx: Sender)
    requires Inv(s) && Appended(s.tx, tx, id, fr)
    ensures ReceiverOk(tx, s.rx) && LimitsOk(s.(tx := tx))
    ensures var s' := s.(tx := tx, frames := s.frames + {fr});
            && (forall j :: AppOk(s', j))
            && (forall f :: f in s.processed ==> ProcessedOk(s', f))
  {
    forall j
      ensures LimitOk(tx, s.rx, j) && AppOk(s.(tx := tx, frames := s.frames + {fr}), j)
    {
      assert LimitOk(s.tx, s.rx, j);
      assert AppOk(s, j);
    }
    forall f | f in s.processed
      ensures ProcessedOk(s.(tx := tx, frames := s.frames + {fr}), f)
    {
      assert ProcessedOk(s, f);
    }
  }

  // ---------- receiving a frame ----------

  /** Summed over all streams, the receiver has been charged no more than was sent, also after `fr`. */
  lemma ChargeWithinCredit(tx: Sender, rx: Conn, fr: StreamFrame)
    requires SenderOk(tx) && ReceiverOk(tx, rx) && FrameOk(tx, fr) && tx.maxTx <= rx.maxRx
    requires !Closed(rx, fr.id)
    ensures var last := Lookup(rx, fr.id).lastRx; last < fr.End() ==> fr.End() - last <= Credit(rx)
  {
    var last := Lookup(rx, fr.id).lastRx;
    if last < fr.End() {
      var charged := Raise(rx.charged, fr.id, fr.End());
      RaiseSum(rx.charged, fr.id, fr.End());
      SumLe(charged, Lens(tx));
      if fr.id in rx.strms {
        assert StreamBalanced(rx, fr.id, rx.strms[fr.id]);
        assert RxOk(tx.strms[fr.id], rx.strms[fr.id]);
      }
    }
  }

  /** A stream that is consistent with its sender accepts every frame of that sender. */
  lemma AcceptOk(t: TxStream, r: RxStream, fr: StreamFrame, credit: nat)
    requires RxOk(t, r) && |t.written| <= t.maxTx <= r.maxRx
    requires fr.End() <= |t.written| && fr.data == t.written[fr.offset..fr.End()]
    requires fr.fin ==> t.shutWr && fr.End() == |t.written|
    requires r.lastRx < fr.End() ==> fr.End() - r.lastRx <= credit
    ensures Accept(r, fr, credit).error == NoError && RxOk(t, Accept(r, fr, credit).strm)
  {
    var r' := Accept(r, fr, credit).strm;
    forall x | x in r'.got
      ensures x < r'.lastRx && r'.got[x] == t.written[x]
    {
      AbsorbAt(r.got, fr.offset, fr.data, x);
    }
  }

  /** What the receiver hands out is a prefix of what was written, all of it when it is finished. */
  lemma DeliveredPrefix(t: TxStream, r: RxStream)
    requires RxOk(t, r)
    ensures Delivered(r.got) <= t.written
    ensures Finished(r) ==> Delivered(r.got) == t.written && t.shutWr
  {
    var d := Delivered(r.got);
    forall x | 0 <= x < |d|
      ensures x < |t.written| && d[x] == t.written[x]
    {
      assert x in r.got;
    }
    if |d| > 0 {
      assert |d| - 1 in r.got;
    }
  }

  /** The receiver's answer to any frame of the sender: no error, and a consistent stream. */
  lemma DeliverAccepted(s: System, fr: StreamFrame)
    requires Inv(s) && fr in s.frames && !Closed(s.rx, fr.id)
    ensures var o := Accept(Lookup(s.rx, fr.id), fr, Credit(s.rx));
            && o.error == NoError && o.strm == Updated(Lookup(s.rx, fr.id), fr) && RxOk(s.tx.strms[fr.id], o.strm)
            && RecvStream(s.rx, fr).error == NoError
            && RecvStream(s.rx, fr).conn.strms == s.rx.strms[fr.id := o.strm]
  {
    assert FrameOk(s.tx, fr);
    assert LimitOk(s.tx, s.rx, fr.id);
    ChargeWithinCredit(s.tx, s.rx, fr);
    AcceptOk(s.tx.strms[fr.id], Lookup(s.rx, fr.id), fr, Credit(s.rx));
  }

  lemma DeliverInv(s: System, fr: StreamFrame)
    requires Inv(s) && fr in s.frames
    ensures Inv(DeliverFrame(s, fr))
  {
    assert FrameOk(s.tx, fr);
    if Closed(s.rx, fr.id) {
      assert AppOk(s, fr.id);
      DeliverClosed(s, fr);
    } else {
      DeliverAccepted(s, fr);
      RecvStreamBalanced(s.rx, fr);
      DeliverReceiver(s, fr);
      DeliverApp(s, fr);
      DeliverProcessed(s, fr);
      DeliverEnded(s, fr);
    }
  }

  lemma DeliverClosed(s: System, fr: StreamFrame)
    requires Inv(s) && fr in s.frames && Closed(s.rx, fr.id)
    ensures Inv(DeliverFrame(s, fr))
  {
    var s' := DeliverFrame(s, fr);
    assert FrameOk(s.tx, fr) && AppOk(s, fr.id);
    assert s' == s.(processed := s.processed + {fr});
    forall id
      ensures AppOk(s', id)
    {
      assert AppOk(s, id);
    }
    forall f | f in s'.processed
      ensures ProcessedOk(s', f)
    {
      if f in s.processed {
        assert ProcessedOk(s, f);
      }
    }
    forall id | id in s.rx.strms && s.rx.strms[id].shutRd
      ensures Ended(s'.processed, id)
    {
      assert Ended(s.processed, id);
    }
  }

  lemma DeliverReceiver(s: System, fr: StreamFrame)
    requires Inv(s) && fr in s.frames && !Closed(s.rx, fr.id)
    ensures var s' := DeliverFrame(s, fr); ReceiverOk(s'.tx, s'.rx) && LimitsOk(s')
  {
    var s' := DeliverFrame(s, fr);
    DeliverAccepted(s, fr);
    RecvStreamBalanced(s.rx, fr);
    assert FrameOk(s.tx, fr);
    forall id
      ensures LimitOk(s'.tx, s'.rx, id)
    {
      assert LimitOk(s.tx, s.rx, id);
    }
    forall p | p in s'.maxStreamData
      ensures AdvertOk(s'.rx, p.0, p.1)
    {
      assert AdvertOk(s.rx, p.0, p.1);
    }
  }

  lemma DeliverApp(s: System, fr: StreamFrame)
    requires Inv(s) && fr in s.frames && !Closed(s.rx, fr.id)
    ensures forall id :: AppOk(DeliverFrame(s, fr), id)
  {
    var s' := DeliverFrame(s, fr);
    DeliverAccepted(s, fr);
    assert FrameOk(s.tx, fr);
    forall id
      ensures AppOk(s', id)
    {
      assert AppOk(s, id);
      if id == fr.id {
        DeliveredPrefix(s.tx.strms[id], s'.rx.strms[id]);
      }
    }
  }

  lemma DeliverProcessed(s: System, fr: StreamFrame)
    requires Inv(s) && fr in s.frames && !Closed(s.rx, fr.id)
    ensures forall f :: f in DeliverFrame(s, fr).processed ==> ProcessedOk(DeliverFrame(s, fr), f)
  {
    var s' := DeliverFrame(s, fr);
    DeliverAccepted(s, fr);
    var r := Lookup(s.rx, fr.id);
    assert s'.rx.strms[fr.id] == Updated(r, fr);
    GotGrows(r, fr);
    forall f | f in s.processed
      ensures ProcessedOk(s', f)
    {
      assert ProcessedOk(s, f);
    }
    if fr.fin && r.shutRd {
      assert Ended(s.processed, fr.id);
      var g :| g in s.processed && g.id == fr.id && g.fin;
      assert ProcessedOk(s, g);
      assert fr == g;
    } else {
      FrameAbsorbed(r, fr);
    }
  }

  lemma GotGrows(r: RxStream, fr: StreamFrame)
    ensures forall x :: x in r.got ==> x in Updated(r, fr).got
  {
    forall x | x in r.got
      ensures x in Updated(r, fr).got
    {
      AbsorbAt(r.got, fr.offset, fr.data, x);
    }
  }

  lemma FrameAbsorbed(r: RxStream, fr: StreamFrame)
    requires !(fr.fin && r.shutRd)
    ensures forall x :: fr.offset <= x < fr.End() ==> x in Updated(r, fr).got
  {
    forall x | fr.offset <= x < fr.End()
      ensures x in Updated(r, fr).got
    {
      AbsorbAt(r.got, fr.offset, fr.data, x);
    }
  }

  lemma DeliverEnded(s: System, fr: StreamFrame)
    requires Inv(s) && fr in s.frames && !Closed(s.rx, fr.id)
    ensures var s' := DeliverFrame(s, fr);
            forall id :: id in s'.rx.strms && s'.rx.strms[id].shutRd ==> Ended(s'.processed, id)
  {
    var s' := DeliverFrame(s, fr);
    DeliverAccepted(s, fr);
    forall id | id in s'.rx.strms && s'.rx.strms[id].shutRd
      ensures Ended(s'.processed, id)
    {
      assert fr in s'.processed;
      if id != fr.id || !fr.fin {
        assert Ended(s.processed, id);
      }
    }
  }

  // ---------- credit and closing ----------

  /** A step that leaves sender, frames and history alone and touches only the receiver's credit. */
  lemma CreditInv(s: System, s': System)
    requires Inv(s) && s' == s.(rx := s'.rx, maxData := s'.maxData, maxStreamData := s'.maxStreamData)
    requires Balanced(s'.rx) && s'.rx.used == s.rx.used && s'.rx.charged == s.rx.charged
    requires s'.rx.initialMaxStreamData == s.rx.initialMaxStreamData && s.rx.maxRx <= s'.rx.maxRx
    requires s'.rx.strms.Keys == s.rx.strms.Keys
    requires forall id :: id in s.rx.strms ==> CreditOnly(s.rx.strms[id], s'.rx.strms[id])
    requires forall n :: n in s'.maxData ==> n in s.maxData || n <= s'.rx.maxRx
    requires forall p :: p in s'.maxStreamData ==> p in s.maxStreamData || AdvertOk(s'.rx, p.0, p.1)
    ensures Inv(s')
  {
    forall id
      ensures LimitOk(s'.tx, s'.rx, id) && AppOk(s', id)
    {
      assert LimitOk(s.tx, s.rx, id);
      assert AppOk(s, id);
    }
    forall p | p in s'.maxStreamData
      ensures AdvertOk(s'.rx, p.0, p.1)
    {
      if p in s.maxStreamData {
        assert AdvertOk(s.rx, p.0, p.1);
      }
    }
    forall fr | fr in s'.processed
      ensures ProcessedOk(s', fr)
    {
      assert ProcessedOk(s, fr);
    }
  }

  ghost predicate CreditOnly(r: RxStream, r': RxStream) {
    && r' == r.(maxRx := r'.maxRx, unsentMaxRx := r'.unsentMaxRx)
    && r.maxRx <= r'.maxRx
  }

  lemma ConsumeInv(s: System, a: Action)
    requires Inv(s) && (a.Consume? || a.SendMaxData?)
    ensures Inv(Apply(s, a))
  {
    HandleBalanced(s.rx, if a.Consume? then Connection.Extend(a.n) else Connection.MaxDataSent);
    CreditInv(s, Apply(s, a));
  }

  lemma ConsumeStreamInv(s: System, id: nat, n: Size)
    requires Inv(s)
    ensures Inv(Apply(s, ConsumeStream(id, n)))
  {
    if Safe(s.rx, ExtendStream(id, n)) {
      ExtendBalanced(s.rx, id, n);
      CreditInv(s, Apply(s, ConsumeStream(id, n)));
    }
  }

  lemma AdvertiseStreamInv(s: System, id: nat)
    requires Inv(s)
    ensures Inv(Apply(s, SendMaxStreamData(id)))
  {
    var s' := Apply(s, SendMaxStreamData(id));
    if id in s.rx.strms {
      HandleBalanced(s.rx, Connection.MaxStreamDataSent(id));
      assert StreamBalanced(s.rx, id, s.rx.strms[id]);
      CreditInv(s, s');
    }
  }

  lemma MaxDataInv(s: System, n: nat)
    requires Inv(s)
    ensures Inv(Apply(s, DeliverMaxData(n)))
  {
    var s' := Apply(s, DeliverMaxData(n));
    assert Lens(s'.tx) == Lens(s.tx);
    forall id
      ensures LimitOk(s'.tx, s.rx, id)
    {
      assert LimitOk(s.tx, s.rx, id);
    }
    SenderCreditKeeps(s, s');
  }

  lemma MaxStreamDataInv(s: System, id: nat, n: nat)
    requires Inv(s)
    ensures Inv(Apply(s, DeliverMaxStreamData(id, n)))
  {
    var s' := Apply(s, DeliverMaxStreamData(id, n));
    if s' != s {
      assert AdvertOk(s.rx, (id, n).0, (id, n).1);
      assert Lens(s'.tx) == Lens(s.tx);
      forall j
        ensures LimitOk(s'.tx, s.rx, j)
      {
        assert LimitOk(s.tx, s.rx, j);
      }
      SenderCreditKeeps(s, s');
    }
  }

  /** More credit at the sender, nothing else. */
  lemma SenderCreditKeeps(s: System, s': System)
    requires Inv(s) && s' == s.(tx := s'.tx) && SenderOk(s'.tx) && s'.tx.maxTx <= s.rx.maxRx
    requires s'.tx.initialMaxStreamData == s.tx.initialMaxStreamData && s'.tx.strms.Keys == s.tx.strms.Keys
    requires forall id :: id in s.tx.strms ==> s'.tx.strms[id] == s.tx.strms[id].(maxTx := s'.tx.strms[id].maxTx)
    requires forall id :: LimitOk(s'.tx, s.rx, id)
    ensures Inv(s')
  {
    forall fr | fr in s.frames
      ensures FrameOk(s'.tx, fr)
    {
      assert FrameOk(s.tx, fr);
    }
    forall id | id in s'.tx.strms
      ensures CoverOk(s'.tx.strms[id], s'.frames, id)
    {
      assert CoverOk(s.tx.strms[id], s.frames, id);
    }
    forall id
      ensures AppOk(s', id)
    {
      assert AppOk(s, id);
    }
    forall fr | fr in s'.processed
      ensures ProcessedOk(s', fr)
    {
      assert ProcessedOk(s, fr);
    }
  }

  lemma CloseInv(s: System, id: nat)
    requires Inv(s)
    ensures Inv(Apply(s, CloseFinished(id)))
  {
    var s' := Apply(s, CloseFinished(id));
    if s' != s {
      HandleBalanced(s.rx, CloseStream(id));
      forall j
        ensures LimitOk(s'.tx, s'.rx, j) && AppOk(s', j)
      {
        assert LimitOk(s.tx, s.rx, j);
        assert AppOk(s, j);
      }
      forall p | p in s'.maxStreamData
        ensures AdvertOk(s'.rx, p.0, p.1)
      {
        assert AdvertOk(s.rx, p.0, p.1);
      }
      forall fr | fr in s'.processed
        ensures ProcessedOk(s', fr)
      {
        assert ProcessedOk(s, fr);
      }
    }
  }

  // ---------- whole runs ----------

  lemma StepInv(s: System, a: Action)
    requires Inv(s)
    ensures Inv(Apply(s, a))
  {
    match a
    case Write(id, data, fin, left) => WriteInv(s, id, data, fin, left);
    case Deliver(fr) => if fr in s.frames { DeliverInv(s, fr); }
    case Consume(_) => ConsumeInv(s, a);
    case ConsumeStream(id, n) => ConsumeStreamInv(s, id, n);
    case SendMaxData => ConsumeInv(s, a);
    case SendMaxStreamData(id) => AdvertiseStreamInv(s, id);
    case DeliverMaxData(n) => MaxDataInv(s, n);
    case DeliverMaxStreamData(id, n) => MaxStreamDataInv(s, id, n);
    case CloseFinished(id) => CloseInv(s, id);
  }

  lemma {:induction false} RunInv(s: System, actions: seq<Action>)
    requires Inv(s)
    ensures Inv(Run(s, actions))
    decreases |actions|
  {
    if actions == [] {
    } else {
      StepInv(s, actions[0]);
      RunInv(Apply(s, actions[0]), actions[1..]);
    }
  }

  lemma InitInv(maxData: nat, maxStreamData: nat)
    requires maxData <= MAX_VARINT && maxStreamData <= MAX_VARINT
    ensures Inv(Init(maxData, maxStreamData))
  {
    var s := Init(maxData, maxStreamData);
    assert Lens(s.tx) == map[];
    InitBalanced(maxData, maxStreamData);
  }

  /** Whatever the applications do and however the network delays, repeats or drops frames, the
      receiver never finds a flow-control or final-offset violation, and each stream hands the
      application a prefix of what was written, flagging its end only after all of it. What the
      sender has written and the limits it knows stay within what the receiver has granted, for the
      connection and for every stream. */
  lemma SafeRun(maxData: nat, maxStreamData: nat, actions: seq<Action>)
    requires maxData <= MAX_VARINT && maxStreamData <= MAX_VARINT
    ensures var s := Run(Init(maxData, maxStreamData), actions);
            && s.error == NoError
            && s.tx.txOffset <= s.tx.maxTx <= s.rx.maxRx
            && s.rx.rxOffset <= s.tx.txOffset
            && (forall id :: id in s.tx.strms ==> |s.tx.strms[id].written| <= s.tx.strms[id].maxTx)
            && (forall id :: id in s.tx.strms && !Closed(s.rx, id) ==> s.tx.strms[id].maxTx <= Lookup(s.rx, id).maxRx)
            && (forall id :: id in s.app ==>
                  && id in s.tx.strms && s.app[id].bytes <= s.tx.strms[id].written
                  && (s.app[id].fin ==> s.tx.strms[id].shutWr && s.app[id].bytes == s.tx.strms[id].written))
  {
    var s := Run(Init(maxData, maxStreamData), actions);
    InitInv(maxData, maxStreamData);
    RunInv(Init(maxData, maxStreamData), actions);
    SumLe(s.rx.charged, Lens(s.tx));
    forall id | id in s.tx.strms && !Closed(s.rx, id)
      ensures s.tx.strms[id].maxTx <= Lookup(s.rx, id).maxRx
    {
      assert LimitOk(s.tx, s.rx, id);
    }
    forall id | id in s.app
      ensures id in s.tx.strms && s.app[id].bytes <= s.tx.strms[id].written
      ensures s.app[id].fin ==> s.tx.strms[id].shutWr && s.app[id].bytes == s.tx.strms[id].written
    {
      assert AppOk(s, id);
    }
  }

  /** Nothing is lost by the receiver: once a stream has been ended and each of its frames has been
      processed at least once, in whatever order, the application has all of it and knows the end. */
  lemma CompleteRun(maxData: nat, maxStreamData: nat, actions: seq<Action>, id: nat)
    requires maxData <= MAX_VARINT && maxStreamData <= MAX_VARINT
    requires var s := Run(Init(maxData, maxStreamData), actions);
             && id in s.tx.strms && s.tx.strms[id].shutWr
             && forall fr :: fr in s.frames && fr.id == id ==> fr in s.processed
    ensures var s := Run(Init(maxData, maxStreamData), actions);
            id in s.app && s.app[id] == AppView(s.tx.strms[id].written, true)
  {
    var s := Run(Init(maxData, maxStreamData), actions);
    InitInv(maxData, maxStreamData);
    RunInv(Init(maxData, maxStreamData), actions);
    AllProcessed(s, id);
  }

  lemma AllProcessed(s: System, id: nat)
    requires Inv(s) && id in s.tx.strms && s.tx.strms[id].shutWr
    requires forall fr :: fr in s.frames && fr.id == id ==> fr in s.processed
    ensures id in s.app && s.app[id] == AppView(s.tx.strms[id].written, true)
  {
    var t := s.tx.strms[id];
    assert CoverOk(t, s.frames, id);
    assert Ended(s.frames, id);
    var last :| last in s.frames && last.id == id && last.fin;
    assert ProcessedOk(s, last);
    assert AppOk(s, id);
    if id in s.rx.strms {
      var r := s.rx.strms[id];
      forall x | 0 <= x < |t.written|
        ensures x in r.got
      {
        assert Carried(s.frames, id, x);
        var fr :| fr in s.frames && fr.id == id && fr.offset <= x < fr.End();
        assert ProcessedOk(s, fr);
      }
      FirstMissingIs(r.got, |t.written|);
      DeliveredPrefix(t, r);
    }
  }

  /** The one write that a receiver refuses: neither data nor end of stream. Every other write that
      the sender lets through is received without error (WriteInv, DeliverInv). */
  lemma EmptyWriteRefused(s: System, id: nat, data: seq<byte>, fin: bool, left: nat)
    requires Inv(s) && id != 0
    requires WriteStream(s.tx, id, data, fin, left).Sent?
    ensures RecvStream(s.rx, WriteStream(s.tx, id, data, fin, left).frame).error != NoError <==> data == [] && !fin
  {
    if data != [] || fin {
      WriteInv(s, id, data, fin, left);
      var s' := Apply(s, Write(id, data, fin, left));
      var fr := WriteStream(s.tx, id, data, fin, left).frame;
      assert FrameOk(s'.tx, fr);
      if !Closed(s.rx, fr.id) {
        DeliverAccepted(s', fr);
      }
    }
  }
}
