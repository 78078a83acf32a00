/** Building an ACK frame from the received packets that still have to be acknowledged
    (conn_create_ack_frame in Polygon/lib/ngtcp2_conn.c). */
module AckBuild {
  import opened Basics
  import opened AckFrames

  /** A received packet. */
  datatype Entry = Entry(pktNum: nat, tstamp: nat, unprotected: bool)

  ghost predicate Newer(entries: seq<Entry>, i: int, j: int) {
    0 <= i < |entries| && 0 <= j < |entries| && entries[j].pktNum < entries[i].pktNum
  }

  /** Newest first. */
  ghost predicate Descending(entries: seq<Entry>) {
    forall i, j {:trigger Newer(entries, i, j)} :: 0 <= i < j < |entries| ==> Newer(entries, i, j)
  }

  /** Leaving out a stretch keeps the order. */
  lemma DescendingWithout(a: seq<Entry>, b: seq<Entry>, c: seq<Entry>)
    requires Descending(a + b + c)
    ensures Descending(a + c)
  {
    var all, es := a + b + c, a + c;
    forall i, j | 0 <= i < j < |es|
      ensures Newer(es, i, j)
    {
      assert Newer(all, if i < |a| then i else i + |b|, if j < |a| then j else j + |b|);
    }
  }

  lemma DescendingTail(entries: seq<Entry>)
    requires Descending(entries) && entries != []
    ensures Descending(entries[1..])
    ensures forall e :: e in entries[1..] ==> e.pktNum < entries[0].pktNum
  {
    forall i, j | 0 <= i < j < |entries[1..]|
      ensures Newer(entries[1..], i, j)
    {
      assert Newer(entries, i + 1, j + 1);
    }
    forall e | e in entries[1..]
      ensures e.pktNum < entries[0].pktNum
    {
      var i :| 0 <= i < |entries[1..]| && entries[1..][i] == e;
      assert Newer(entries, 0, i + 1);
    }
  }

  lemma DescendingWith(a: seq<Entry>, e: Entry, c: seq<Entry>)
    requires Descending(a + c)
    requires forall x :: 0 <= x < |a| ==> e.pktNum < a[x].pktNum
    requires c != [] ==> c[0].pktNum < e.pktNum
    ensures Descending(a + [e] + c)
  {
    var all, es := a + c, a + [e] + c;
    forall i, j | 0 <= i < j < |es|
      ensures Newer(es, i, j)
    {
      if i != |a| && j != |a| {
        assert Newer(all, if i < |a| then i else i - 1, if j < |a| then j else j - 1);
      } else if i == |a| && j > |a| + 1 {
        assert Newer(all, |a|, j - 1);
      }
    }
  }

  /** An ACK in an unprotected packet reports unprotected packets only. */
  predicate Passes(e: Entry, unprotected: bool) {
    unprotected ==> e.unprotected
  }

  /** `n` is the number of one of the first `k` entries that may be reported. */
  ghost predicate Walked(entries: seq<Entry>, k: int, unprotected: bool, n: int) {
    exists j :: 0 <= j < k && j < |entries| && entries[j].pktNum == n && Passes(entries[j], unprotected)
  }

  /** The frame acknowledges exactly the first `k` entries that may be reported. */
  ghost predicate Describes(fr: Ack, entries: seq<Entry>, k: int, unprotected: bool) {
    forall n: int :: Covers(fr, n) <==> Walked(entries, k, unprotected, n)
  }

  function ShiftRight(n: nat, k: nat): nat {
    if k == 0 then n else ShiftRight(n / 2, k - 1)
  }

  /** Shifting right by `k` counts how often 2^k fits. */
  lemma {:induction false} ShiftRightIs(n: nat, k: nat)
    ensures ShiftRight(n, k) * Pow2(k) <= n < (ShiftRight(n, k) + 1) * Pow2(k)
  {
    if k > 0 {
      ShiftRightIs(n / 2, k - 1);
      Double(ShiftRight(n, k), Pow2(k - 1));
      Double(ShiftRight(n, k) + 1, Pow2(k - 1));
    }
  }

  lemma Double(q: nat, p: nat)
    ensures q * (2 * p) == 2 * (q * p)
  {
  }

  const TWO64: nat := 0x1_0000_0000_0000_0000

  /** Entry `i` is the newest one that may be reported. */
  ghost predicate FirstPassing(entries: seq<Entry>, unprotected: bool, i: nat) {
    i < |entries| && Passes(entries[i], unprotected) && forall j :: 0 <= j < i ==> !Passes(entries[j], unprotected)
  }

  /** The delay reported is the time since packet `e` arrived, in units of 2^exponent. */
  ghost predicate DelayOf(fr: Ack, e: Entry, ts: nat, exponent: nat) {
    var d := (ts - e.tstamp) % 0x1_0000_0000_0000_0000;
    fr.delay * Pow2(exponent) <= d < (fr.delay + 1) * Pow2(exponent)
  }

  /** The largest number and the delay are those of the newest entry that may be reported. */
  ghost predicate Dated(fr: Ack, entries: seq<Entry>, unprotected: bool, ts: nat, exponent: nat) {
    forall i: nat :: FirstPassing(entries, unprotected, i) ==>
      fr.largest == entries[i].pktNum && DelayOf(fr, entries[i], ts, exponent)
  }

  lemma DatedBy(fr: Ack, entries: seq<Entry>, i: nat, unprotected: bool, ts: nat, exponent: nat)
    requires FirstPassing(entries, unprotected, i) && fr.largest == entries[i].pktNum
    requires fr.delay == ShiftRight((ts - entries[i].tstamp) % TWO64, exponent)
    ensures Dated(fr, entries, unprotected, ts, exponent)
  {
    ShiftRightIs((ts - entries[i].tstamp) % TWO64, exponent);
  }

  /** Doubling keeps up because the number of blocks grows one at a time. */
  function EnsureBlks(capacity: nat, n: nat): (r: nat)
    requires 1 <= capacity && n <= capacity + 1
    ensures n <= r && capacity <= r
  {
    if n <= capacity then capacity else capacity * 2
  }

  lemma WalkedStep(entries: seq<Entry>, k: nat, unprotected: bool, n: int)
    requires k < |entries|
    ensures Walked(entries, k + 1, unprotected, n) <==>
            Walked(entries, k, unprotected, n) || (entries[k].pktNum == n && Passes(entries[k], unprotected))
  {
  }

  /** What has been reported so far: the frame built so far, and the run still being extended. */
  ghost predicate Reported(entries: seq<Entry>, k: int, unprotected: bool, initial: bool, fr: Ack,
                           first: int, last: int) {
    forall n: int :: Walked(entries, k, unprotected, n) <==> last <= n <= first || (!initial && Covers(fr, n))
  }

  lemma RunReported(entries: seq<Entry>, k: nat, unprotected: bool, initial: bool, fr: Ack, first: int, last: int)
    requires k < |entries| && Reported(entries, k, unprotected, initial, fr, first, last)
    requires Passes(entries[k], unprotected) && entries[k].pktNum + 1 == last <= first
    ensures Reported(entries, k + 1, unprotected, initial, fr, first, entries[k].pktNum)
  {
    var k', p := k + 1, entries[k].pktNum;
    forall n: int
      ensures Walked(entries, k', unprotected, n) <==> p <= n <= first || (!initial && Covers(fr, n))
    {
      WalkedStep(entries, k, unprotected, n);
    }
  }

  /** The frame with the run that is still being extended: its first run, or one more block. */
  function Emit(initial: bool, fr: Ack, gap: nat, len: nat): Ack {
    if initial then fr.(firstLen := len) else fr.(blks := fr.blks + [Block(gap, len)])
  }

  /** How the frame built so far and the current run fit together. */
  ghost predicate Aligned(initial: bool, fr: Ack, gap: nat, first: nat) {
    if initial then first == fr.largest && fr.blks == [] else Low(fr) - gap - 2 == first
  }

  lemma EmitReported(entries: seq<Entry>, k: int, unprotected: bool, initial: bool, fr: Ack, gap: nat,
                     first: nat, last: nat)
    requires Reported(entries, k, unprotected, initial, fr, first, last) && last <= first
    requires Aligned(initial, fr, gap, first)
    ensures var fr' := Emit(initial, fr, gap, first - last);
            Low(fr') == last && Describes(fr', entries, k, unprotected)
  {
    var fr' := Emit(initial, fr, gap, first - last);
    forall n: int
      ensures Covers(fr', n) <==> Walked(entries, k, unprotected, n)
    {
      if !initial {
        AppendCovers(fr, Block(gap, first - last), n);
      }
    }
    if !initial {
      AppendCovers(fr, Block(gap, first - last), 0);
    }
  }

  /** A packet that is not adjacent to the current run starts a new one. */
  lemma NewRunReported(entries: seq<Entry>, k: nat, unprotected: bool, fr: Ack, last: nat)
    requires Descending(entries) && k < |entries| && Passes(entries[k], unprotected)
    requires Describes(fr, entries, k, unprotected)
    ensures Reported(entries, k + 1, unprotected, false, fr, entries[k].pktNum, entries[k].pktNum)
  {
    var k', p := k + 1, entries[k].pktNum;
    forall n: int
      ensures Walked(entries, k', unprotected, n) <==> p <= n <= p || Covers(fr, n)
    {
      WalkedStep(entries, k, unprotected, n);
    }
  }

  lemma SkipReported(entries: seq<Entry>, k: nat, unprotected: bool, initial: bool, fr: Ack, first: int, last: int)
    requires k < |entries| && Reported(entries, k, unprotected, initial, fr, first, last)
    requires !Passes(entries[k], unprotected)
    ensures Reported(entries, k + 1, unprotected, initial, fr, first, last)
  {
    var k' := k + 1;
    forall n: int
      ensures Walked(entries, k', unprotected, n) <==> last <= n <= first || (!initial && Covers(fr, n))
    {
      WalkedStep(entries, k, unprotected, n);
    }
  }

  /** The first entry that may be reported. */
  method FirstToReport(entries: seq<Entry>, unprotected: bool) returns (i: nat)
    ensures i <= |entries| && (i < |entries| ==> Passes(entries[i], unprotected))
    ensures forall j :: 0 <= j < i ==> !Passes(entries[j], unprotected)
  {
    i := 0;
    while i < |entries| && !Passes(entries[i], unprotected)
      invariant 0 <= i <= |entries|
      invariant forall j :: 0 <= j < i ==> !Passes(entries[j], unprotected)
    {
      i := i + 1;
    }
  }

  // ---------- how many blocks a frame has ----------

  /** The numbers that may be reported, in the order of the list. */
  function Reportable(entries: seq<Entry>, unprotected: bool): seq<nat> {
    if entries == [] then []
    else
      var e := entries[|entries| - 1];
      Reportable(entries[..|entries| - 1], unprotected) + if Passes(e, unprotected) then [e.pktNum] else []
  }

  /** The number of stretches without a gap in a descending list of numbers. */
  function Runs(ns: seq<nat>): nat {
    if ns == [] then 0
    else
      var n := |ns| - 1;
      Runs(ns[..n]) + if n > 0 && ns[n - 1] == ns[n] + 1 then 0 else 1
  }

  /** One block for every run but the first, and at most 256 of them. */
  function BlockCount(entries: seq<Entry>, unprotected: bool): nat {
    var runs := Runs(Reportable(entries, unprotected));
    if runs == 0 then 0 else if runs <= MAX_ACK_BLKS + 2 then runs - 1 else MAX_ACK_BLKS + 1
  }

  lemma ReportableStep(entries: seq<Entry>, i: nat, unprotected: bool)
    requires i < |entries|
    ensures Reportable(entries[..i + 1], unprotected) ==
            Reportable(entries[..i], unprotected) + if Passes(entries[i], unprotected) then [entries[i].pktNum] else []
  {
    assert entries[..i + 1][..i] == entries[..i];
  }

  lemma RunsStep(ns: seq<nat>, x: nat)
    ensures Runs(ns + [x]) == Runs(ns) + if ns != [] && ns[|ns| - 1] == x + 1 then 0 else 1
  {
    assert (ns + [x])[..|ns|] == ns;
  }

  /** A longer list has no fewer runs. */
  lemma {:induction false} RunsGrow(entries: seq<Entry>, k: nat, unprotected: bool)
    requires k <= |entries|
    ensures Runs(Reportable(entries[..k], unprotected)) <= Runs(Reportable(entries, unprotected))
    decreases |entries| - k
  {
    if k == |entries| {
      assert entries[..k] == entries;
    } else {
      RunsGrow(entries, k + 1, unprotected);
      ReportableStep(entries, k, unprotected);
      RunsStep(Reportable(entries[..k], unprotected), entries[k].pktNum);
      assert Reportable(entries[..k], unprotected) + [] == Reportable(entries[..k], unprotected);
    }
  }

  lemma {:induction false} NoneReportable(entries: seq<Entry>, k: nat, unprotected: bool)
    requires k <= |entries| && forall j :: 0 <= j < k ==> !Passes(entries[j], unprotected)
    ensures Reportable(entries[..k], unprotected) == []
    decreases k
  {
    if k > 0 {
      NoneReportable(entries, k - 1, unprotected);
      ReportableStep(entries, k - 1, unprotected);
    }
  }

  // ---------- building a frame ----------

  /** The frame so far, the run still being extended and the gap above it, and the room for blocks. */
  datatype Draft = Draft(fr: Ack, initial: bool, gap: nat, first: nat, last: nat, capacity: nat)

  /** There is room for `n` blocks, and no more than doubling calls for. */
  predicate CapacityOk(capacity: nat, n: nat) {
    n <= capacity && 8 <= capacity && (capacity == 8 || capacity < 2 * n)
  }

  /** The numbers walked so far end with the current run. */
  predicate RunsOk(ns: seq<nat>, b: Draft) {
    ns != [] && ns[|ns| - 1] == b.last && Runs(ns) == if b.initial then 1 else |b.fr.blks| + 2
  }

  ghost predicate DraftOk(entries: seq<Entry>, i: nat, unprotected: bool, b: Draft) {
    && i <= |entries| && b.last <= b.first && CapacityOk(b.capacity, |b.fr.blks|)
    && Reported(entries, i, unprotected, b.initial, b.fr, b.first, b.last)
    && Aligned(b.initial, b.fr, b.gap, b.first)
    && RunsOk(Reportable(entries[..i], unprotected), b)
  }

  /** The frame with the current run written down. */
  function Finished(b: Draft): Ack
    requires b.last <= b.first
  {
    Emit(b.initial, b.fr, b.gap, b.first - b.last)
  }

  lemma FinishedCount(ns: seq<nat>, b: Draft)
    requires RunsOk(ns, b) && b.last <= b.first && (b.initial ==> b.fr.blks == [])
    ensures |Finished(b).blks| + 1 == Runs(ns)
  {
  }

  lemma FinishedOk(entries: seq<Entry>, i: nat, unprotected: bool, b: Draft)
    requires DraftOk(entries, i, unprotected, b)
    ensures Low(Finished(b)) == b.last && Describes(Finished(b), entries, i, unprotected)
    ensures |Finished(b).blks| + 1 == Runs(Reportable(entries[..i], unprotected))
  {
    FinishedCount(Reportable(entries[..i], unprotected), b);
    EmitReported(entries, i, unprotected, b.initial, b.fr, b.gap, b.first, b.last);
  }

  lemma FirstReported(entries: seq<Entry>, i: nat, unprotected: bool, fr: Ack)
    requires i < |entries| && Passes(entries[i], unprotected)
    requires forall j :: 0 <= j < i ==> !Passes(entries[j], unprotected)
    ensures Reported(entries, i + 1, unprotected, true, fr, entries[i].pktNum, entries[i].pktNum)
  {
    var k, p := i + 1, entries[i].pktNum;
    forall n: int
      ensures Walked(entries, k, unprotected, n) <==> n == p
    {
      WalkedStep(entries, i, unprotected, n);
    }
  }

  lemma FirstRun(entries: seq<Entry>, i: nat, unprotected: bool, b: Draft)
    requires i < |entries| && Passes(entries[i], unprotected) && b.initial && b.last == entries[i].pktNum
    requires forall j :: 0 <= j < i ==> !Passes(entries[j], unprotected)
    ensures RunsOk(Reportable(entries[..i + 1], unprotected), b)
  {
    NoneReportable(entries, i, unprotected);
    ReportableStep(entries, i, unprotected);
    RunsStep([], b.last);
    assert [] + [b.last] == [b.last];
  }

  lemma DraftStart(entries: seq<Entry>, i: nat, unprotected: bool, delay: nat)
    requires Descending(entries) && i < |entries| && Passes(entries[i], unprotected)
    requires forall j :: 0 <= j < i ==> !Passes(entries[j], unprotected)
    ensures var n := entries[i].pktNum;
            DraftOk(entries, i + 1, unprotected, Draft(Ack(n, delay, 0, []), true, 0, n, n, 8))
  {
    var n := entries[i].pktNum;
    var b := Draft(Ack(n, delay, 0, []), true, 0, n, n, 8);
    FirstRun(entries, i, unprotected, b);
    FirstReported(entries, i, unprotected, b.fr);
  }

  lemma DraftSkip(entries: seq<Entry>, i: nat, unprotected: bool, b: Draft)
    requires DraftOk(entries, i, unprotected, b) && i < |entries| && !Passes(entries[i], unprotected)
    ensures DraftOk(entries, i + 1, unprotected, b)
  {
    SkipReported(entries, i, unprotected, b.initial, b.fr, b.first, b.last);
    ReportableStep(entries, i, unprotected);
    assert Reportable(entries[..i], unprotected) + [] == Reportable(entries[..i], unprotected);
  }

  lemma DraftExtend(entries: seq<Entry>, i: nat, unprotected: bool, b: Draft)
    requires DraftOk(entries, i, unprotected, b) && i < |entries| && Passes(entries[i], unprotected)
    requires entries[i].pktNum + 1 == b.last
    ensures DraftOk(entries, i + 1, unprotected, b.(last := entries[i].pktNum))
  {
    RunReported(entries, i, unprotected, b.initial, b.fr, b.first, b.last);
    ReportableStep(entries, i, unprotected);
    RunsStep(Reportable(entries[..i], unprotected), entries[i].pktNum);
  }

  lemma DraftNew(entries: seq<Entry>, i: nat, unprotected: bool, b: Draft, capacity: nat)
    requires Descending(entries) && DraftOk(entries, i, unprotected, b)
    requires i < |entries| && Passes(entries[i], unprotected) && entries[i].pktNum + 1 < b.last
    requires CapacityOk(capacity, |Finished(b).blks|)
    ensures var n := entries[i].pktNum;
            DraftOk(entries, i + 1, unprotected, Draft(Finished(b), false, b.last - n - 2, n, n, capacity))
  {
    FinishedOk(entries, i, unprotected, b);
    NewRunReported(entries, i, unprotected, Finished(b), b.last);
    ReportableStep(entries, i, unprotected);
    RunsStep(Reportable(entries[..i], unprotected), entries[i].pktNum);
  }

  /** Writes the current run down: the first one in place, any other as a new block. */
  method WriteRun(b: Draft) returns (fr: Ack, capacity: nat)
    requires b.last <= b.first && CapacityOk(b.capacity, |b.fr.blks|) && (b.initial ==> b.fr.blks == [])
    ensures fr == Finished(b) && CapacityOk(capacity, |fr.blks|)
  {
    fr, capacity := b.fr, b.capacity;
    if b.initial {
      fr := fr.(firstLen := b.first - b.last);
    } else {
      capacity := EnsureBlks(capacity, |fr.blks| + 1);
      fr := fr.(blks := fr.blks + [Block(b.gap, b.first - b.last)]);
    }
  }

  /** Takes in one more entry; a gap starts a new run. */
  method WalkEntry(entries: seq<Entry>, i: nat, unprotected: bool, b: Draft) returns (b': Draft)
    requires Descending(entries) && DraftOk(entries, i, unprotected, b)
    requires i < |entries| && entries[i].pktNum < b.last
    ensures DraftOk(entries, i + 1, unprotected, b') && entries[i].pktNum <= b'.last
    ensures !Passes(entries[i], unprotected) || entries[i].pktNum + 1 == b.last ==> b'.fr == b.fr
    ensures b'.fr.largest == b.fr.largest && b'.fr.delay == b.fr.delay
    ensures |b'.fr.blks| <= |b.fr.blks| + 1 && (|b'.fr.blks| == |b.fr.blks| || Passes(entries[i], unprotected))
  {
    if !Passes(entries[i], unprotected) {
      DraftSkip(entries, i, unprotected, b);
      return b;
    }
    var n := entries[i].pktNum;
    if n + 1 == b.last {
      DraftExtend(entries, i, unprotected, b);
      return b.(last := n);
    }
    var fr, capacity := WriteRun(b);
    DraftNew(entries, i, unprotected, b, capacity);
    return Draft(fr, false, b.last - n - 2, n, n, capacity);
  }

  /** Walks down the list until its end or until the frame is full. */
  method WalkEntries(entries: seq<Entry>, i: nat, unprotected: bool, b0: Draft) returns (b: Draft,
                     stop: nat, full: bool)
    requires Descending(entries) && DraftOk(entries, i, unprotected, b0) && b0.fr.blks == []
    requires i < |entries| ==> entries[i].pktNum < b0.last
    ensures Stopped(entries, stop, full, unprotected, b)
    ensures b.fr.largest == b0.fr.largest && b.fr.delay == b0.fr.delay
  {
    b, stop, full := b0, i, false;
    while stop < |entries| && !full
      invariant b.fr.largest == b0.fr.largest && b.fr.delay == b0.fr.delay
      invariant |b.fr.blks| <= MAX_ACK_BLKS && (full <==> |b.fr.blks| == MAX_ACK_BLKS)
      invariant DraftOk(entries, if full then stop + 1 else stop, unprotected, b)
      invariant full ==> stop < |entries| && Passes(entries[stop], unprotected)
      invariant !full && stop < |entries| ==> entries[stop].pktNum < b.last
      decreases |entries| - stop, !full
    {
      assert stop + 1 < |entries| ==> Newer(entries, stop, stop + 1);
      b := WalkEntry(entries, stop, unprotected, b);
      full := |b.fr.blks| == MAX_ACK_BLKS;
      if !full {
        stop := stop + 1;
      }
    }
  }

  /** The walk is over: at the end of the list, or at the entry that filled the frame. */
  ghost predicate Stopped(entries: seq<Entry>, stop: nat, full: bool, unprotected: bool, b: Draft) {
    if full then
      && stop < |entries| && Passes(entries[stop], unprotected) && |b.fr.blks| == MAX_ACK_BLKS
      && DraftOk(entries, stop + 1, unprotected, b)
    else
      stop == |entries| && |b.fr.blks| < MAX_ACK_BLKS && DraftOk(entries, stop, unprotected, b)
  }

  lemma StoppedOk(entries: seq<Entry>, stop: nat, full: bool, unprotected: bool, b: Draft)
    requires Stopped(entries, stop, full, unprotected, b)
    ensures Low(Finished(b)) == b.last && Describes(Finished(b), entries, stop + 1, unprotected)
    ensures |Finished(b).blks| == BlockCount(entries, unprotected)
    ensures full <==> Runs(Reportable(entries, unprotected)) > MAX_ACK_BLKS + 1
  {
    StoppedCount(entries, stop, full, unprotected, b);
    FinishedOk(entries, if full then stop + 1 else stop, unprotected, b);
    DescribesAll(Finished(b), entries, stop, unprotected);
  }

  lemma StoppedCount(entries: seq<Entry>, stop: nat, full: bool, unprotected: bool, b: Draft)
    requires Stopped(entries, stop, full, unprotected, b)
    ensures |Finished(b).blks| == BlockCount(entries, unprotected)
    ensures full <==> Runs(Reportable(entries, unprotected)) > MAX_ACK_BLKS + 1
  {
    if full {
      FinishedCount(Reportable(entries[..stop + 1], unprotected), b);
      RunsGrow(entries, stop + 1, unprotected);
    } else {
      FinishedCount(Reportable(entries[..stop], unprotected), b);
      assert entries[..stop] == entries;
    }
  }

  /** Of the entries that were walked, all are acknowledged, or in an unprotected packet only those that
      came unprotected. */
  lemma ReportsExactly(fr: Ack, entries: seq<Entry>, k: nat, unprotected: bool)
    requires Descending(entries) && Describes(fr, entries, k, unprotected)
    ensures forall j :: 0 <= j < k && j < |entries| ==>
              (Covers(fr, entries[j].pktNum) <==> !unprotected || entries[j].unprotected)
  {
    forall j | 0 <= j < k && j < |entries|
      ensures Covers(fr, entries[j].pktNum) <==> !unprotected || entries[j].unprotected
    {
      if Walked(entries, k, unprotected, entries[j].pktNum) {
        var n := entries[j].pktNum;
        var i :| 0 <= i < k && i < |entries| && entries[i].pktNum == n && Passes(entries[i], unprotected);
        assert i < j ==> Newer(entries, i, j);
        assert j < i ==> Newer(entries, j, i);
      }
    }
  }

  /** The frame that starts with entry `i`. */
  method FrameFrom(entries: seq<Entry>, i: nat, unprotected: bool, delay: nat)
    returns (fr: Ack, stop: nat, capacity: nat)
    requires Descending(entries) && FirstPassing(entries, unprotected, i)
    ensures fr.largest == entries[i].pktNum && fr.delay == delay
    ensures stop <= |entries| && Describes(fr, entries, stop + 1, unprotected)
    ensures ValidAck(fr) && |fr.blks| == BlockCount(entries, unprotected) && CapacityOk(capacity, |fr.blks|)
    ensures stop < |entries| <==> Runs(Reportable(entries, unprotected)) > MAX_ACK_BLKS + 1
    ensures stop < |entries| ==> |fr.blks| == MAX_ACK_BLKS + 1 && Passes(entries[stop], unprotected)
  {
    var n := entries[i].pktNum;
    var b := Draft(Ack(n, delay, 0, []), true, 0, n, n, 8);
    DraftStart(entries, i, unprotected, delay);
    assert i + 1 < |entries| ==> Newer(entries, i, i + 1);
    var full;
    b, stop, full := WalkEntries(entries, i + 1, unprotected, b);
    StoppedOk(entries, stop, full, unprotected, b);
    fr, capacity := WriteRun(b);
  }

  /** Compresses the entries, newest first, into an ACK frame. The walk stops early when the frame
      is full; `stop` is then the entry that filled it, and it is still reported. */
  method BuildAck(entries: seq<Entry>, unprotected: bool, ts: nat, exponent: nat)
    returns (r: Option<Ack>, stop: nat, capacity: nat)
    requires Descending(entries)
    ensures r.None? <==> forall e :: e in entries ==> !Passes(e, unprotected)
    ensures stop <= |entries|
    ensures r.Some? ==> ValidAck(r.value) && |r.value.blks| == BlockCount(entries, unprotected)
    ensures r.Some? ==> forall j :: 0 <= j <= stop && j < |entries| ==>
                          (Covers(r.value, entries[j].pktNum) <==> !unprotected || entries[j].unprotected)
    ensures r.Some? ==> Dated(r.value, entries, unprotected, ts, exponent)
    ensures r.Some? ==> CapacityOk(capacity, |r.value.blks|)
    ensures r.Some? ==> Describes(r.value, entries, stop + 1, unprotected)
    ensures r.Some? ==> (stop < |entries| <==> Runs(Reportable(entries, unprotected)) > MAX_ACK_BLKS + 1)
    ensures r.Some? && stop < |entries| ==> |r.value.blks| == MAX_ACK_BLKS + 1 && Passes(entries[stop], unprotected)
  {
    var i := FirstToReport(entries, unprotected);
    if i == |entries| {
      return None, i, 0;
    }
    assert entries[i] in entries;
    var fr;
    fr, stop, capacity := FrameFrom(entries, i, unprotected, ShiftRight((ts - entries[i].tstamp) % TWO64, exponent));
    DatedBy(fr, entries, i, unprotected, ts, exponent);
    ReportsExactly(fr, entries, stop + 1, unprotected);
    r := Some(fr);
  }

  /** The first `k` of `n` packets that are each followed by a missing one. */
  function Spaced(n: nat, k: nat): (r: seq<Entry>)
    requires k <= n
    ensures |r| == k && forall i :: 0 <= i < k ==> r[i] == Entry(2 * (n - i), 0, true)
  {
    if k == 0 then [] else Spaced(n, k - 1) + [Entry(2 * (n - k + 1), 0, true)]
  }

  lemma SpacedStep(n: nat, k: nat, unprotected: bool)
    requires 0 < k <= n
    ensures Reportable(Spaced(n, k), unprotected) == Reportable(Spaced(n, k - 1), unprotected) + [2 * (n - k + 1)]
  {
    var es := Spaced(n, k);
    assert es[..k] == es && es[..k - 1] == Spaced(n, k - 1);
    ReportableStep(es, k - 1, unprotected);
  }

  lemma {:induction false} SpacedRuns(n: nat, k: nat, unprotected: bool)
    requires k <= n
    ensures var ns := Reportable(Spaced(n, k), unprotected);
            Runs(ns) == k && (k > 0 ==> ns != [] && ns[|ns| - 1] == 2 * (n - k + 1))
  {
    if k > 0 {
      SpacedRuns(n, k - 1, unprotected);
      SpacedStep(n, k, unprotected);
      RunsStep(Reportable(Spaced(n, k - 1), unprotected), 2 * (n - k + 1));
    }
  }

  /** A list well within the limit of 1024 entries fills a frame with 256 blocks, one more than the
      decoder keeps: 257 packets that are each followed by a missing one. */
  lemma Overfull(unprotected: bool)
    ensures var es := Spaced(257, 257);
            Descending(es) && |es| == 257 && BlockCount(es, unprotected) == MAX_ACK_BLKS + 1
  {
    SpacedRuns(257, 257, unprotected);
    var es := Spaced(257, 257);
    forall i, j | 0 <= i < j < |es| ensures Newer(es, i, j) {
    }
  }

  lemma WalkedAll(entries: seq<Entry>, k: nat, unprotected: bool)
    ensures k >= |entries| ==>
      forall n: int :: Walked(entries, k, unprotected, n) <==> Walked(entries, k + 1, unprotected, n)
  {
  }

  lemma DescribesAll(fr: Ack, entries: seq<Entry>, k: nat, unprotected: bool)
    requires Describes(fr, entries, if k < |entries| then k + 1 else k, unprotected)
    ensures Describes(fr, entries, k + 1, unprotected)
  {
    WalkedAll(entries, k, unprotected);
  }
}
