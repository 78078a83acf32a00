/** Whole runs of the ACK machinery: packets arrive, ACK frames are sent, and the peer acknowledges
    some of those (Polygon/lib/ngtcp2_acktr.c, conn_create_ack_frame in Polygon/lib/ngtcp2_conn.c). */
module AckRuns {
  import opened AckFrames
  import opened AckBuild
  import opened AckTracker
  import D = DataFrames

  /** The tracker, and the history of its run: the packet numbers received, those that the peer is
      known to have been told about, and those that left the list otherwise. */
  datatype State = State(entries: seq<Entry>, acks: seq<Recorded>, lastPkt: nat,
                         received: set<nat>, settled: set<nat>, lost: set<nat>)

  datatype Op =
    | Receive(e: Entry)
    | SendAck(fr: Ack, stop: nat, unprotected: bool)
    | PeerAck(fr: Ack, unprotected: bool)

  const Start := State([], [], 0, {}, {}, {})

  /** The newest record that qualifies, or the number of records. */
  function FirstQualified(acks: seq<Recorded>, fr: Ack, unprotected: bool): (k: nat)
    ensures k <= |acks| && (k < |acks| ==> Qualifies(acks[k], fr, unprotected))
    ensures forall x :: 0 <= x < k ==> !Qualifies(acks[x], fr, unprotected)
  {
    if acks == [] || Qualifies(acks[0], fr, unprotected) then 0
    else 1 + FirstQualified(acks[1..], fr, unprotected)
  }

  ghost function Numbers(entries: seq<Entry>): set<nat> {
    set e | e in entries :: e.pktNum
  }

  /** What building a frame from the list results in: the walk stops before the end of the list
      exactly when there are more runs than a frame can hold. */
  ghost predicate Buildable(entries: seq<Entry>, fr: Ack, stop: nat, unprotected: bool) {
    && stop <= |entries| && ValidAck(fr) && Describes(fr, entries, stop + 1, unprotected)
    && |fr.blks| == BlockCount(entries, unprotected)
    && (stop < |entries| <==> Runs(Reportable(entries, unprotected)) > MAX_ACK_BLKS + 1)
  }

  ghost function Step(s: State, op: Op): State {
    match op
    case Receive(e) =>
      if Known(s.entries, e.pktNum) then s
      else
        var entries := Added(s.entries, e);
        s.(entries := entries, received := s.received + {e.pktNum},
           lost := s.lost + (Numbers(s.entries) + {e.pktNum} - Numbers(entries)))
    case SendAck(fr, stop, unprotected) =>
      if Buildable(s.entries, fr, stop, unprotected) then
        s.(entries := s.entries[..stop], lastPkt := s.lastPkt + 1,
           acks := Remembered(s.acks, Recorded(fr, s.lastPkt + 1, unprotected)),
           lost := s.lost + Numbers(s.entries[stop..]))
      else s
    case PeerAck(fr, unprotected) =>
      var k := FirstQualified(s.acks, fr, unprotected);
      if k < |s.acks| then
        s.(entries := Unacked(s.entries, s.acks[k].ack), acks := s.acks[..k],
           settled := s.settled + set n | n in s.received && Covers(s.acks[k].ack, n))
      else s
  }

  ghost function Run(s: State, ops: seq<Op>): State
    decreases |ops|
  {
    if ops == [] then s else Run(Step(s, ops[0]), ops[1..])
  }

  /** The two events that lack of space calls for: a new packet meets a full list, or a list has more
      than 256 runs to report. */
  ghost predicate Overflows(s: State, op: Op) {
    match op
    case Receive(e) => !Known(s.entries, e.pktNum) && |s.entries| == MAX_ENT
    case SendAck(fr, stop, unprotected) =>
      Buildable(s.entries, fr, stop, unprotected) && Runs(Reportable(s.entries, unprotected)) > MAX_ACK_BLKS + 1
    case PeerAck(_, _) => false
  }

  ghost predicate NeverOverflows(s: State, ops: seq<Op>)
    decreases |ops|
  {
    ops != [] ==> !Overflows(s, ops[0]) && NeverOverflows(Step(s, ops[0]), ops[1..])
  }

  ghost predicate Honest(fr: Ack, received: set<nat>) {
    forall n: int :: Covers(fr, n) ==> n in received
  }

  ghost predicate Inv(s: State) {
    && Descending(s.entries) && |s.entries| <= MAX_ENT
    && Numbers(s.entries) <= s.received && s.settled <= s.received && s.lost <= s.received
    && (forall i :: 0 <= i < |s.acks| ==> Honest(s.acks[i].ack, s.received))
    && s.received == Numbers(s.entries) + s.settled + s.lost
  }

  lemma AddedIn(entries: seq<Entry>, e: Entry)
    ensures Numbers(Added(entries, e)) <= Numbers(entries) + {e.pktNum}
  {
    forall x | x in Added(entries, e) ensures x == e || x in entries {
      InsertedIn(entries, e, x);
    }
  }

  lemma ReceiveInv(s: State, e: Entry)
    requires Inv(s)
    ensures Inv(Step(s, Receive(e)))
  {
    if !Known(s.entries, e.pktNum) {
      AddedDescending(s.entries, e);
      AddedIn(s.entries, e);
    }
  }

  lemma SplitNumbers(entries: seq<Entry>, stop: nat)
    requires stop <= |entries|
    ensures Numbers(entries) == Numbers(entries[..stop]) + Numbers(entries[stop..])
  {
    assert entries == entries[..stop] + entries[stop..];
  }

  lemma SendInv(s: State, fr: Ack, stop: nat, unprotected: bool)
    requires Inv(s)
    ensures Inv(Step(s, SendAck(fr, stop, unprotected)))
  {
    if Buildable(s.entries, fr, stop, unprotected) {
      FirstOnes(s.entries, stop);
      SplitNumbers(s.entries, stop);
      forall n: int | Covers(fr, n)
        ensures n in s.received
      {
        var j :| 0 <= j < stop + 1 && j < |s.entries| && s.entries[j].pktNum == n && Passes(s.entries[j], unprotected);
        assert s.entries[j] in s.entries;
      }
      assert Honest(fr, s.received);
    }
  }

  lemma PeerInv(s: State, fr: Ack, unprotected: bool)
    requires Inv(s)
    ensures Inv(Step(s, PeerAck(fr, unprotected)))
  {
    var k := FirstQualified(s.acks, fr, unprotected);
    if k < |s.acks| {
      var s' := Step(s, PeerAck(fr, unprotected));
      UnackedDescending(s.entries, s.acks[k].ack);
      UnackedShorter(s.entries, s.acks[k].ack);
      forall x | x in s.entries
        ensures x in s'.entries || x.pktNum in s'.settled
      {
        UnackedIn(s.entries, s.acks[k].ack, x);
        assert x.pktNum in Numbers(s.entries);
      }
      forall x | x in s'.entries
        ensures x in s.entries
      {
        UnackedIn(s.entries, s.acks[k].ack, x);
      }
    }
  }

  lemma {:induction false} UnackedShorter(entries: seq<Entry>, fr: Ack)
    ensures |Unacked(entries, fr)| <= |entries|
  {
    if entries != [] {
      UnackedShorter(entries[1..], fr);
    }
  }

  lemma StepInv(s: State, op: Op)
    requires Inv(s)
    ensures Inv(Step(s, op))
  {
    match op
    case Receive(e) => ReceiveInv(s, e);
    case SendAck(fr, stop, unprotected) => SendInv(s, fr, stop, unprotected);
    case PeerAck(fr, unprotected) => PeerInv(s, fr, unprotected);
  }

  lemma {:induction false} RunInv(s: State, ops: seq<Op>)
    requires Inv(s)
    ensures Inv(Run(s, ops))
    decreases |ops|
  {
    if ops != [] {
      StepInv(s, ops[0]);
      RunInv(Step(s, ops[0]), ops[1..]);
    }
  }

  // ---------- what a step does ----------

  /** A packet that is not known is received and, unless it is too old for a full list, listed. */
  lemma ReceiveExact(s: State, e: Entry, n: nat)
    requires Inv(s) && !Known(s.entries, e.pktNum)
    ensures var s' := Step(s, Receive(e));
            && s'.received == s.received + {e.pktNum} && s'.acks == s.acks && s'.settled == s.settled
            && (|s.entries| < MAX_ENT ==> (Known(s'.entries, n) <==> Known(s.entries, n) || n == e.pktNum))
            && (|s.entries| == MAX_ENT ==> |s'.entries| == MAX_ENT)
  {
    var all, s' := Inserted(s.entries, e), Step(s, Receive(e));
    AllNumbers(s.entries, e);
    InsertedLength(s.entries, e);
    KnownIs(all, n);
    KnownIs(s.entries, n);
    assert n in Numbers(all) <==> n in Numbers(s.entries) || n == e.pktNum;
  }

  lemma {:induction false} InsertedLength(entries: seq<Entry>, e: Entry)
    ensures |Inserted(entries, e)| == |entries| + 1
  {
    if entries != [] {
      InsertedLength(entries[1..], e);
    }
  }

  /** A frame that is sent is the newest one on record. */
  lemma SendExact(s: State, fr: Ack, stop: nat, unprotected: bool)
    requires Inv(s) && Buildable(s.entries, fr, stop, unprotected)
    ensures var s' := Step(s, SendAck(fr, stop, unprotected));
            && s'.acks != [] && s'.acks[0].ack == fr && s'.acks[0].unprotected == unprotected
            && s'.acks[1..] == s.acks[..if |s.acks| < 128 then |s.acks| else 127]
            && s'.entries == s.entries[..stop] && s'.received == s.received && s'.settled == s.settled
  {
    RememberedExact(s.acks, Recorded(fr, s.lastPkt + 1, unprotected));
  }

  lemma RememberedExact(acks: seq<Recorded>, a: Recorded)
    ensures var r := Remembered(acks, a);
            r != [] && r[0] == a && r[1..] == acks[..if |acks| < 128 then |acks| else 127]
  {
  }

  /** An ACK of the peer settles all that the newest frame says that it qualifies for. */
  lemma PeerExact(s: State, fr: Ack, unprotected: bool, k: nat, n: nat)
    requires Inv(s) && k < |s.acks| && Covers(fr, s.acks[k].pktNum) && (unprotected ==> s.acks[k].unprotected)
    requires forall x :: 0 <= x < k ==>
               !Covers(fr, s.acks[x].pktNum) || (unprotected && !s.acks[x].unprotected)
    ensures var s' := Step(s, PeerAck(fr, unprotected));
            && s'.acks == s.acks[..k] && s'.received == s.received
            && (n in s'.settled <==> n in s.settled || (n in s.received && Covers(s.acks[k].ack, n)))
            && (Known(s'.entries, n) <==> Known(s.entries, n) && !Covers(s.acks[k].ack, n))
  {
    assert FirstQualified(s.acks, fr, unprotected) == k;
    var s' := Step(s, PeerAck(fr, unprotected));
    KnownIs(s.entries, n);
    KnownIs(s'.entries, n);
    forall e: Entry
      ensures e in s'.entries <==> e in s.entries && !Covers(s.acks[k].ack, e.pktNum)
    {
      UnackedIn(s.entries, s.acks[k].ack, e);
    }
  }

  /** A run goes step by step. */
  lemma {:induction false} RunLast(s: State, ops: seq<Op>, op: Op)
    ensures Run(s, []) == s && Run(s, ops + [op]) == Step(Run(s, ops), op)
    decreases |ops|
  {
    if ops == [] {
      assert [] + [op] == [op] && [op][1..] == [];
    } else {
      RunLast(Step(s, ops[0]), ops[1..], op);
      assert (ops + [op])[1..] == ops[1..] + [op];
    }
  }

  // ---------- what is dropped ----------

  /** Only an overflow drops packets, and then only ones that are older than all that are kept. */
  lemma OnlyOverflowDrops(s: State, op: Op)
    requires Inv(s)
    ensures Step(s, op).lost != s.lost ==> Overflows(s, op)
    ensures forall n, m :: n in Step(s, op).lost - s.lost && m in Numbers(Step(s, op).entries) ==> n < m
  {
    match op
    case Receive(e) =>
      if !Known(s.entries, e.pktNum) {
        ReceiveDrops(s.entries, e);
      }
    case SendAck(fr, stop, unprotected) =>
      if Buildable(s.entries, fr, stop, unprotected) {
        OlderBehind(s.entries, stop);
        assert stop == |s.entries| ==> s.entries[stop..] == [];
      }
    case PeerAck(_, _) =>
  }

  lemma OlderBehind(entries: seq<Entry>, stop: nat)
    requires Descending(entries) && stop <= |entries|
    ensures forall n, m :: n in Numbers(entries[stop..]) && m in Numbers(entries[..stop]) ==> n < m
  {
    forall x, y | x in entries[stop..] && y in entries[..stop] ensures x.pktNum < y.pktNum {
      var i :| 0 <= i < |entries[stop..]| && entries[stop..][i] == x;
      var j :| 0 <= j < stop && entries[..stop][j] == y;
      assert Newer(entries, j, stop + i);
    }
  }

  lemma ReceiveDrops(entries: seq<Entry>, e: Entry)
    requires Descending(entries) && |entries| <= MAX_ENT && !Known(entries, e.pktNum)
    ensures var dropped := Numbers(entries) + {e.pktNum} - Numbers(Added(entries, e));
            && (|entries| < MAX_ENT ==> dropped == {})
            && forall n, m :: n in dropped && m in Numbers(Added(entries, e)) ==> n < m
  {
    var all := Inserted(entries, e);
    InsertedDescending(entries, e);
    AllNumbers(entries, e);
    if |all| > MAX_ENT {
      SplitNumbers(all, MAX_ENT);
      OlderBehind(all, MAX_ENT);
    }
  }

  lemma AllNumbers(entries: seq<Entry>, e: Entry)
    ensures Numbers(Inserted(entries, e)) == Numbers(entries) + {e.pktNum}
  {
    InsertedIn(entries, e, e);
    forall x ensures x in Inserted(entries, e) <==> x == e || x in entries {
      InsertedIn(entries, e, x);
    }
  }

  lemma {:induction false} NothingLost(s: State, ops: seq<Op>)
    requires Inv(s) && NeverOverflows(s, ops)
    ensures Run(s, ops).lost == s.lost
    decreases |ops|
  {
    if ops != [] {
      OnlyOverflowDrops(s, ops[0]);
      StepInv(s, ops[0]);
      NothingLost(Step(s, ops[0]), ops[1..]);
    }
  }

  /** In every run, no recorded ACK frame claims a packet that was never received, and a received
      packet leaves the list only after the peer has been told about it or for lack of space: if the
      list and the frames never overflow, every received packet is listed or settled. */
  lemma HonestRun(ops: seq<Op>)
    ensures var s := Run(Start, ops);
            && (forall i :: 0 <= i < |s.acks| ==> forall n: int :: Covers(s.acks[i].ack, n) ==> n in s.received)
            && (forall n :: n in s.received && !Known(s.entries, n) ==> n in s.settled || n in s.lost)
            && (forall n :: n in s.settled ==> n in s.received)
            && (NeverOverflows(Start, ops) ==>
                  forall n :: n in s.received <==> Known(s.entries, n) || n in s.settled)
  {
    var s := Run(Start, ops);
    RunInv(Start, ops);
    forall i | 0 <= i < |s.acks|
      ensures forall n: int :: Covers(s.acks[i].ack, n) ==> n in s.received
    {
      assert Honest(s.acks[i].ack, s.received);
    }
    if NeverOverflows(Start, ops) {
      NothingLost(Start, ops);
      forall n: nat ensures n in Numbers(s.entries) <==> Known(s.entries, n) {
        KnownIs(s.entries, n);
      }
    }
  }

  lemma KnownIs(entries: seq<Entry>, n: nat)
    ensures n in Numbers(entries) <==> Known(entries, n)
  {
    if Known(entries, n) {
      var i :| 0 <= i < |entries| && entries[i].pktNum == n;
      assert entries[i] in entries;
    }
  }

  // ---------- what the decoder makes of a frame ----------

  /** A frame that was built from a list arrives with all its blocks exactly when the list has at most
      256 runs of numbers to report. */
  lemma SurvivesDecoding(entries: seq<Entry>, unprotected: bool, fr: Ack)
    requires |fr.blks| == BlockCount(entries, unprotected)
    ensures D.ClipAck(fr) == fr <==> Runs(Reportable(entries, unprotected)) <= MAX_ACK_BLKS + 1
  {
  }
}
