/** What can be sent does arrive: a sender that is out of credit goes on once its peer's application has
    consumed data and the peer has said so, and any stream can be delivered whole. */
module Progress {
  import opened Basics
  import opened Ranges
  import opened StreamReceive
  import C = Connection
  import opened Protocol

  // ---------- new credit ----------

  /** The limit of the connection after its application has consumed `n` bytes. */
  function Raised(limit: nat, n: nat): nat {
    if limit + n <= MAX_VARINT then limit + n else MAX_VARINT
  }

  /** The limit of a stream stays as it is when it would grow too large. */
  function RaisedStream(limit: nat, n: nat): nat {
    if limit + n <= MAX_VARINT then limit + n else limit
  }

  /** Credit is consumed, advertised and delivered, for the connection and, if the receiver knows it,
      for stream `id`. */
  function Refill(s: System, id: nat, n: C.Size): seq<Action> {
    [Consume(n), SendMaxData, DeliverMaxData(Raised(s.rx.unsentMaxRx, n))] +
    if id in s.rx.strms then
      [ConsumeStream(id, n), SendMaxStreamData(id),
       DeliverMaxStreamData(id, RaisedStream(s.rx.strms[id].unsentMaxRx, n))]
    else []
  }

  lemma {:induction false} RunConcat(s: System, a: seq<Action>, b: seq<Action>)
    ensures Run(s, a + b) == Run(Run(s, a), b)
    decreases |a|
  {
    if a == [] {
      assert a + b == b;
    } else {
      RunConcat(Apply(s, a[0]), a[1..], b);
      assert (a + b)[1..] == a[1..] + b;
    }
  }

  lemma RunCons(s: System, a: Action, more: seq<Action>)
    ensures Run(s, [a] + more) == Run(Apply(s, a), more)
  {
    assert ([a] + more)[1..] == more;
  }

  lemma RunThree(s: System, a: Action, b: Action, c: Action)
    ensures Run(s, [a, b, c]) == Apply(Apply(Apply(s, a), b), c)
  {
    assert [a, b, c] == [a] + ([b] + ([c] + []));
    RunCons(s, a, [b] + ([c] + []));
    RunCons(Apply(s, a), b, [c] + []);
    RunCons(Apply(Apply(s, a), b), c, []);
  }

  /** Afterwards the sender knows exactly the connection limit that the receiver has granted. */
  lemma RefillConnection(s: System, n: C.Size)
    requires Inv(s)
    ensures var max := Raised(s.rx.unsentMaxRx, n);
            var s' := Run(s, [Consume(n), SendMaxData, DeliverMaxData(max)]);
            && s'.tx == s.tx.(maxTx := max) && s'.rx == s.rx.(maxRx := max, unsentMaxRx := max)
            && s'.frames == s.frames
  {
    RefillLimits(s, n);
  }

  lemma RefillLimits(s: System, n: C.Size)
    requires s.tx.maxTx <= s.rx.maxRx <= s.rx.unsentMaxRx <= MAX_VARINT
    ensures var max := Raised(s.rx.unsentMaxRx, n);
            var s' := Run(s, [Consume(n), SendMaxData, DeliverMaxData(max)]);
            && s'.tx == s.tx.(maxTx := max) && s'.rx == s.rx.(maxRx := max, unsentMaxRx := max)
            && s'.frames == s.frames
  {
    var max := Raised(s.rx.unsentMaxRx, n);
    RunThree(s, Consume(n), SendMaxData, DeliverMaxData(max));
    var s1 := Apply(s, Consume(n));
    assert s1 == s.(rx := s.rx.(unsentMaxRx := max));
    var s2 := Apply(s1, SendMaxData);
    assert s2 == s1.(rx := s.rx.(maxRx := max, unsentMaxRx := max), maxData := s.maxData + {max});
  }

  /** The same for a stream. */
  lemma RefillStream(s: System, id: nat, n: C.Size)
    requires Inv(s) && id in s.rx.strms && n <= MAX_VARINT
    ensures var max := RaisedStream(s.rx.strms[id].unsentMaxRx, n);
            var s' := Run(s, [ConsumeStream(id, n), SendMaxStreamData(id), DeliverMaxStreamData(id, max)]);
            && id in s.tx.strms && s'.tx == s.tx.(strms := s.tx.strms[id := s.tx.strms[id].(maxTx := max)])
            && id in s'.rx.strms && s'.rx.strms[id] == s.rx.strms[id].(maxRx := max, unsentMaxRx := max)
            && s'.rx.strms.Keys == s.rx.strms.Keys && s'.rx.unsentMaxRx == s.rx.unsentMaxRx && s'.frames == s.frames
  {
    var r := s.rx.strms[id];
    assert C.StreamBalanced(s.rx, id, r);
    assert LimitOk(s.tx, s.rx, id);
    RefillKnown(s, id, n, s.tx.strms[id], r);
  }

  lemma RefillKnown(s: System, id: nat, n: C.Size, t: TxStream, r: RxStream)
    requires id in s.tx.strms && s.tx.strms[id] == t && id in s.rx.strms && s.rx.strms[id] == r
    requires t.maxTx <= r.maxRx <= r.unsentMaxRx <= MAX_VARINT && n <= MAX_VARINT
    ensures var max := RaisedStream(r.unsentMaxRx, n);
            var s' := Run(s, [ConsumeStream(id, n), SendMaxStreamData(id), DeliverMaxStreamData(id, max)]);
            && s'.tx == s.tx.(strms := s.tx.strms[id := t.(maxTx := max)])
            && id in s'.rx.strms && s'.rx.strms[id] == r.(maxRx := max, unsentMaxRx := max)
            && s'.rx.strms.Keys == s.rx.strms.Keys && s'.rx.unsentMaxRx == s.rx.unsentMaxRx && s'.frames == s.frames
  {
    var max := RaisedStream(r.unsentMaxRx, n);
    RunThree(s, ConsumeStream(id, n), SendMaxStreamData(id), DeliverMaxStreamData(id, max));
    C.ExtendSmall(r, n);
    var s1 := Apply(s, ConsumeStream(id, n));
    assert s1 == s.(rx := s1.rx) && s1.rx.strms == s.rx.strms[id := r.(unsentMaxRx := max)];
    var s2 := Apply(s1, SendMaxStreamData(id));
    assert s2.rx.strms[id] == r.(maxRx := max, unsentMaxRx := max) && (id, max) in s2.maxStreamData;
    assert s.tx.strms[id := t] == s.tx.strms;
  }

  /** What the sender knows after a refill. */
  ghost predicate Refilled(s: System, s': System, id: nat, n: nat) {
    && s'.frames == s.frames
    && s'.tx.txOffset == s.tx.txOffset && s'.tx.maxTx == Raised(s.rx.unsentMaxRx, n)
    && (id in s'.rx.strms <==> id in s.rx.strms)
    && TxLookup(s'.tx, id) == TxLookup(s.tx, id).(maxTx := TxLookup(s'.tx, id).maxTx)
    && TxLookup(s'.tx, id).maxTx ==
       if id in s.rx.strms then RaisedStream(s.rx.strms[id].unsentMaxRx, n) else TxLookup(s.tx, id).maxTx
  }

  lemma RefillIs(s: System, id: nat, n: C.Size)
    requires Inv(s) && n <= MAX_VARINT
    ensures Refilled(s, Run(s, Refill(s, id, n)), id, n) && Inv(Run(s, Refill(s, id, n)))
  {
    RunInv(s, Refill(s, id, n));
    var max := Raised(s.rx.unsentMaxRx, n);
    var first := [Consume(n), SendMaxData, DeliverMaxData(max)];
    var s1 := Run(s, first);
    RefillConnection(s, n);
    RunInv(s, first);
    if id in s.rx.strms {
      var max' := RaisedStream(s.rx.strms[id].unsentMaxRx, n);
      RefillStream(s1, id, n);
      RunConcat(s, first, [ConsumeStream(id, n), SendMaxStreamData(id), DeliverMaxStreamData(id, max')]);
    } else {
      assert Refill(s, id, n) == first;
    }
  }

  /** So a sender goes on after any amount has been consumed and advertised: a write stays blocked only
      at the largest offset there is, or where the amount was too large for the limit of the stream. */
  lemma Unblocked(s: System, id: nat, data: seq<byte>, fin: bool, left: nat, n: C.Size)
    requires Inv(s) && id in s.rx.strms && !TxLookup(s.tx, id).shutWr
    requires data != [] && left > 0 && 0 < n <= MAX_VARINT
    ensures WriteStream(Run(s, Refill(s, id, n)).tx, id, data, fin, left).Blocked? <==>
            s.tx.txOffset == MAX_VARINT || |TxLookup(s.tx, id).written| == RaisedStream(s.rx.strms[id].unsentMaxRx, n)
  {
    RefillIs(s, id, n);
    assert C.StreamBalanced(s.rx, id, s.rx.strms[id]);
    assert LimitOk(s.tx, s.rx, id);
    WriteExact(Run(s, Refill(s, id, n)).tx, id, data, fin, left);
  }

  /** With a single byte only the largest offsets are left. */
  lemma UnblockedByOne(s: System, id: nat, data: seq<byte>, fin: bool, left: nat)
    requires Inv(s) && id in s.rx.strms && !TxLookup(s.tx, id).shutWr && data != [] && left > 0
    ensures WriteStream(Run(s, Refill(s, id, 1)).tx, id, data, fin, left).Blocked? <==>
            s.tx.txOffset == MAX_VARINT || |TxLookup(s.tx, id).written| == MAX_VARINT
  {
    Unblocked(s, id, data, fin, left, 1);
    assert C.StreamBalanced(s.rx, id, s.rx.strms[id]);
    assert LimitOk(s.tx, s.rx, id);
  }

  // ---------- delivery ----------

  /** Only the frames of `todo` have been processed in between. */
  predicate Processed(s: System, s': System, todo: set<StreamFrame>) {
    s'.tx == s.tx && s'.frames == s.frames && s'.processed == s.processed + todo
  }

  lemma ProcessedStep(s: System, s1: System, s2: System, fr: StreamFrame, todo: set<StreamFrame>)
    requires Processed(s, s1, {fr}) && Processed(s1, s2, todo - {fr}) && fr in todo
    ensures Processed(s, s2, todo)
  {
  }

  lemma DeliverOne(s: System, fr: StreamFrame)
    requires Inv(s) && fr in s.frames
    ensures var s' := Apply(s, Deliver(fr));
            Inv(s') && Processed(s, s', {fr}) && (!C.Closed(s.rx, fr.id) ==> fr.id in s'.rx.strms)
  {
    StepInv(s, Deliver(fr));
    if !C.Closed(s.rx, fr.id) {
      DeliverAccepted(s, fr);
    } else {
      assert FrameOk(s.tx, fr);
    }
  }

  /** The network can deliver any frames under way. */
  lemma {:induction false} DeliverAll(s: System, todo: set<StreamFrame>) returns (actions: seq<Action>)
    requires Inv(s) && todo <= s.frames
    ensures Processed(s, Run(s, actions), todo)
    decreases |todo|
  {
    actions := [];
    if todo != {} {
      var fr :| fr in todo;
      DeliverOne(s, fr);
      var s1 := Apply(s, Deliver(fr));
      var more := DeliverAll(s1, todo - {fr});
      actions := [Deliver(fr)] + more;
      RunCons(s, Deliver(fr), more);
      ProcessedStep(s, s1, Run(s1, more), fr, todo);
    }
  }

  /** A stream that is open at the sender has not been closed at the receiver. */
  lemma OpenIsOpen(s: System, id: nat)
    requires Inv(s) && !TxLookup(s.tx, id).shutWr
    ensures !C.Closed(s.rx, id)
  {
    assert AppOk(s, id);
  }

  /** A stream that has been delivered whole can be closed, and what the application has seen stays. */
  lemma Closable(s: System, id: nat)
    requires Inv(s) && id in s.rx.strms && Finished(s.rx.strms[id])
    ensures var s' := Apply(s, CloseFinished(id));
            && C.Closed(s'.rx, id) && s'.app == s.app && s'.tx == s.tx
            && id in s.app && s.app[id].fin && s'.rx.strms == s.rx.strms - {id}
  {
    SeenWhole(s, id);
    CloseKeeps(s, id);
  }

  lemma SeenWhole(s: System, id: nat)
    requires Inv(s) && id in s.rx.strms && Finished(s.rx.strms[id])
    ensures id in s.rx.used && id in s.app && s.app[id].fin
  {
    assert AppOk(s, id);
  }

  lemma CloseKeeps(s: System, id: nat)
    requires id in s.rx.strms && Finished(s.rx.strms[id]) && id in s.rx.used
    ensures var s' := Apply(s, CloseFinished(id));
            && C.Closed(s'.rx, id) && s'.app == s.app && s'.tx == s.tx && s'.rx.strms == s.rx.strms - {id}
  {
  }

  // ---------- whole streams ----------

  /** The sender can get a first byte of the stream out: it has credit, or the receiver knows the stream. */
  predicate Startable(s: System, id: nat) {
    id in s.rx.strms || |TxLookup(s.tx, id).written| < TxLookup(s.tx, id).maxTx
  }

  /** After new credit there is room on the stream and on the connection. */
  lemma RefillRoom(s: System, id: nat)
    requires Inv(s) && !TxLookup(s.tx, id).shutWr && Startable(s, id)
    requires |TxLookup(s.tx, id).written| < MAX_VARINT && s.tx.txOffset < MAX_VARINT
    ensures var tx := Run(s, Refill(s, id, 1)).tx;
            && |TxLookup(tx, id).written| < TxLookup(tx, id).maxTx && tx.txOffset < tx.maxTx
            && TxLookup(tx, id).written == TxLookup(s.tx, id).written && !TxLookup(tx, id).shutWr
            && tx.txOffset == s.tx.txOffset && Inv(Run(s, Refill(s, id, 1)))
  {
    RefillIs(s, id, 1);
    if id in s.rx.strms {
      assert C.StreamBalanced(s.rx, id, s.rx.strms[id]);
      assert LimitOk(s.tx, s.rx, id);
    }
  }

  /** A write with room sends something. */
  lemma WriteWithRoom(s: System, id: nat, rest: seq<byte>) returns (m: nat, fr: StreamFrame)
    requires id != 0 && rest != [] && !TxLookup(s.tx, id).shutWr
    requires |TxLookup(s.tx, id).written| < TxLookup(s.tx, id).maxTx && s.tx.txOffset < s.tx.maxTx
    ensures var s1 := Apply(s, Write(id, rest, true, |rest|));
            && 0 < m <= |rest| && id in s1.tx.strms && fr in s1.frames && fr.id == id
            && TxLookup(s1.tx, id).written == TxLookup(s.tx, id).written + rest[..m]
            && TxLookup(s1.tx, id).shutWr == (m == |rest|) && s1.tx.txOffset == s.tx.txOffset + m
  {
    WriteExact(s.tx, id, rest, true, |rest|);
    var w := WriteStream(s.tx, id, rest, true, |rest|);
    m, fr := |w.frame.data|, w.frame;
  }

  /** One round: new credit, then as much as it allows. */
  lemma Round(s: System, id: nat, rest: seq<byte>) returns (s1: System, m: nat, fr: StreamFrame)
    requires Inv(s) && id != 0 && rest != [] && !TxLookup(s.tx, id).shutWr && Startable(s, id)
    requires |TxLookup(s.tx, id).written| + |rest| <= MAX_VARINT && s.tx.txOffset + |rest| <= MAX_VARINT
    ensures s1 == Apply(Run(s, Refill(s, id, 1)), Write(id, rest, true, |rest|)) && Inv(s1) && 0 < m <= |rest|
    ensures TxLookup(s1.tx, id).written == TxLookup(s.tx, id).written + rest[..m] && id in s1.tx.strms
    ensures TxLookup(s1.tx, id).shutWr == (m == |rest|) && s1.tx.txOffset == s.tx.txOffset + m
    ensures fr in s1.frames && fr.id == id
  {
    var s0 := Run(s, Refill(s, id, 1));
    RefillRoom(s, id);
    StepInv(s0, Write(id, rest, true, |rest|));
    s1 := Apply(s0, Write(id, rest, true, |rest|));
    m, fr := WriteWithRoom(s0, id, rest);
  }

  lemma {:induction false} WriteAll(s: System, id: nat, rest: seq<byte>) returns (actions: seq<Action>)
    requires Inv(s) && id != 0 && rest != [] && !TxLookup(s.tx, id).shutWr && Startable(s, id)
    requires |TxLookup(s.tx, id).written| + |rest| <= MAX_VARINT && s.tx.txOffset + |rest| <= MAX_VARINT
    ensures WholeSent(Run(s, actions).tx, id, TxLookup(s.tx, id).written + rest)
    decreases |rest|
  {
    var written, write := TxLookup(s.tx, id).written, Write(id, rest, true, |rest|);
    var s1, m, fr := Round(s, id, rest);
    Pieces(written, rest, m);
    RunRound(s, Refill(s, id, 1), write, []);
    actions := Refill(s, id, 1) + ([write] + []);
    if m < |rest| {
      OpenIsOpen(s1, id);
      DeliverOne(s1, fr);
      var s2 := Apply(s1, Deliver(fr));
      var more := WriteAll(s2, id, rest[m..]);
      RunCons(s1, Deliver(fr), more);
      RunRound(s, Refill(s, id, 1), write, [Deliver(fr)] + more);
      actions := Refill(s, id, 1) + ([write] + ([Deliver(fr)] + more));
    }
  }

  /** The sender has written `content` on the stream and ended it. */
  predicate WholeSent(tx: Sender, id: nat, content: seq<byte>) {
    id in tx.strms && tx.strms[id].shutWr && tx.strms[id].written == content
  }

  lemma Pieces(written: seq<byte>, rest: seq<byte>, m: nat)
    requires m <= |rest|
    ensures written + rest[..m] + rest[m..] == written + rest && (m == |rest| ==> rest[..m] == rest)
  {
  }

  lemma RunRound(s: System, refill: seq<Action>, write: Action, more: seq<Action>)
    ensures Run(s, refill + ([write] + more)) == Run(Apply(Run(s, refill), write), more)
  {
    RunConcat(s, refill, [write] + more);
    RunCons(Run(s, refill), write, more);
  }

  /** In every state of the invariant, the rest of an open stream can be written and delivered, however
      often credit runs out on the way. */
  lemma Transfer(s: System, id: nat, rest: seq<byte>)
    requires Inv(s) && id != 0 && rest != [] && !TxLookup(s.tx, id).shutWr && Startable(s, id)
    requires |TxLookup(s.tx, id).written| + |rest| <= MAX_VARINT && s.tx.txOffset + |rest| <= MAX_VARINT
    ensures exists actions :: Arrived(Run(s, actions), id, TxLookup(s.tx, id).written + rest)
  {
    var first := WriteAll(s, id, rest);
    var s1 := Run(s, first);
    RunInv(s, first);
    var second := DeliverAll(s1, s1.frames);
    RunInv(s1, second);
    RunConcat(s, first, second);
    AllProcessed(Run(s1, second), id);
    assert Arrived(Run(s, first + second), id, TxLookup(s.tx, id).written + rest);
  }

  /** The application at the receiving end has all of the stream and knows it. */
  ghost predicate Arrived(s: System, id: nat, content: seq<byte>) {
    id in s.app && s.app[id] == AppView(content, true)
  }

  /** Without initial stream credit no byte is ever written: the receiver cannot raise the limit of a
      stream that it has not heard of. */
  ghost predicate Mute(s: System) {
    && s.tx.initialMaxStreamData == 0
    && forall id :: id in s.tx.strms ==> s.tx.strms[id].written == [] && s.tx.strms[id].shutWr
  }

  /** With no limit above 0, all that can be sent is an end. */
  lemma WriteMute(s: System, id: nat, data: seq<byte>, fin: bool, left: nat)
    requires Mute(s)
    ensures Mute(Apply(s, Write(id, data, fin, left)))
  {
    var w := WriteStream(s.tx, id, data, fin, left);
    if w.Sent? && (data != [] || fin) {
      assert data == [] && fin;
    }
  }

  /** Only what the receiver has heard of has a MAX_STREAM_DATA frame under way. */
  lemma HeardOf(s: System, id: nat, max: nat)
    requires Inv(s) && (id, max) in s.maxStreamData
    ensures id in s.tx.strms
  {
    assert AdvertOk(s.rx, (id, max).0, (id, max).1);
  }

  lemma CreditMute(s: System, id: nat, max: nat)
    requires Mute(s) && ((id, max) in s.maxStreamData ==> id in s.tx.strms)
    ensures Mute(Apply(s, DeliverMaxStreamData(id, max)))
  {
  }

  lemma OtherSteps(s: System, a: Action)
    requires !a.Write? && !a.DeliverMaxStreamData?
    ensures Apply(s, a).tx == s.tx.(maxTx := Apply(s, a).tx.maxTx)
  {
  }

  lemma StepMute(s: System, a: Action)
    requires Inv(s) && Mute(s)
    ensures Mute(Apply(s, a))
  {
    match a
    case Write(id, data, fin, left) => WriteMute(s, id, data, fin, left);
    case DeliverMaxStreamData(id, max) =>
      if (id, max) in s.maxStreamData {
        HeardOf(s, id, max);
      }
      CreditMute(s, id, max);
    case _ => OtherSteps(s, a);
  }

  lemma {:induction false} RunMute(s: System, actions: seq<Action>)
    requires Inv(s) && Mute(s)
    ensures Mute(Run(s, actions))
    decreases |actions|
  {
    if actions != [] {
      StepMute(s, actions[0]);
      StepInv(s, actions[0]);
      RunMute(Apply(s, actions[0]), actions[1..]);
    }
  }

  lemma EmptyArrives(maxData: nat, maxStreamData: nat, id: nat)
    requires maxData <= MAX_VARINT && maxStreamData <= MAX_VARINT && id != 0
    ensures exists actions :: Arrived(Run(Init(maxData, maxStreamData), actions), id, [])
  {
    var s := Init(maxData, maxStreamData);
    InitInv(maxData, maxStreamData);
    var write := Write(id, [], true, 0);
    StepInv(s, write);
    var s1 := Apply(s, write);
    assert id in s1.tx.strms && s1.tx.strms[id].shutWr && s1.tx.strms[id].written == [];
    var rest := DeliverAll(s1, s1.frames);
    RunInv(s1, rest);
    AllProcessed(Run(s1, rest), id);
    RunCons(s, write, rest);
    assert Arrived(Run(s, [write] + rest), id, []);
  }

  /** From the start, with any limits, a stream of any admissible length can be delivered whole if and
      only if it is empty or there is some initial stream credit. */
  lemma Deliverable(maxData: nat, maxStreamData: nat, id: nat, data: seq<byte>)
    requires maxData <= MAX_VARINT && maxStreamData <= MAX_VARINT && id != 0 && |data| <= MAX_VARINT
    ensures (exists actions :: Arrived(Run(Init(maxData, maxStreamData), actions), id, data)) <==>
            data == [] || maxStreamData > 0
  {
    var s := Init(maxData, maxStreamData);
    InitInv(maxData, maxStreamData);
    if data == [] {
      EmptyArrives(maxData, maxStreamData, id);
    } else if maxStreamData > 0 {
      Transfer(s, id, data);
      assert TxLookup(s.tx, id).written + data == data;
    } else {
      forall actions
        ensures !Arrived(Run(s, actions), id, data)
      {
        RunInv(s, actions);
        RunMute(s, actions);
        assert AppOk(Run(s, actions), id);
      }
    }
  }
}
