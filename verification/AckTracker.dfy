/** Which received packets still have to be acknowledged, which ACK frames have been sent, and what
    an acknowledgement of such a frame settles (Polygon/lib/ngtcp2_acktr.c). */
module AckTracker {
  import opened Basics
  import opened AckFrames
  import opened AckBuild

  const MAX_ENT: nat := 1024
  const MAX_ACKS: nat := 128

  /** An ACK frame that was sent in packet `pktNum`. */
  datatype Recorded = Recorded(ack: Ack, pktNum: nat, unprotected: bool)

  /** The entries that `fr` does not acknowledge. */
  function Unacked(entries: seq<Entry>, fr: Ack): seq<Entry> {
    if entries == [] then []
    else if Covers(fr, entries[0].pktNum) then Unacked(entries[1..], fr)
    else [entries[0]] + Unacked(entries[1..], fr)
  }

  lemma {:induction false} UnackedConcat(a: seq<Entry>, b: seq<Entry>, fr: Ack)
    ensures Unacked(a + b, fr) == Unacked(a, fr) + Unacked(b, fr)
  {
    if a == [] {
      assert a + b == b;
    } else {
      UnackedConcat(a[1..], b, fr);
      assert (a + b)[1..] == a[1..] + b;
    }
  }

  lemma {:induction false} UnackedAll(a: seq<Entry>, fr: Ack)
    ensures (forall e :: e in a ==> !Covers(fr, e.pktNum)) ==> Unacked(a, fr) == a
    ensures (forall e :: e in a ==> Covers(fr, e.pktNum)) ==> Unacked(a, fr) == []
  {
    if a != [] {
      UnackedAll(a[1..], fr);
    }
  }

  lemma {:induction false} UnackedIn(entries: seq<Entry>, fr: Ack, e: Entry)
    ensures e in Unacked(entries, fr) <==> e in entries && !Covers(fr, e.pktNum)
  {
    if entries != [] {
      UnackedIn(entries[1..], fr, e);
      assert entries == [entries[0]] + entries[1..];
    }
  }

  lemma {:induction false} UnackedDescending(entries: seq<Entry>, fr: Ack)
    requires Descending(entries)
    ensures Descending(Unacked(entries, fr))
    ensures forall e :: e in Unacked(entries, fr) ==> e in entries
  {
    if entries != [] {
      DescendingTail(entries);
      UnackedDescending(entries[1..], fr);
      var rest := Unacked(entries[1..], fr);
      if rest != [] {
        assert rest[0] in entries[1..];
      }
      assert [] + rest == rest && [] + [entries[0]] + rest == [entries[0]] + rest;
      DescendingWith([], entries[0], rest);
    }
  }

  /** Where the last list node is. Unlinking the only entry leaves the pointer dangling. */
  datatype Tail = Null | Dangling | Node(pktNum: nat)

  class AckTracker {
    var entries: seq<Entry>
    var tail: Tail
    var nack: nat
    var activeAck: bool
    var acks: seq<Recorded>

    /** The list of packets, its length and its tail pointer. */
    ghost predicate ListOk()
      reads this
    {
      && Descending(entries) && nack == |entries| && nack <= MAX_ENT
      && (entries != [] ==> tail == Node(entries[|entries| - 1].pktNum))
    }

    constructor ()
      ensures ListOk() && entries == [] && acks == [] && !activeAck
    {
      entries, tail, nack, activeAck, acks := [], Null, 0, false, [];
    }

    /** Unlinks entry `i`. */
    method Remove(i: nat)
      requires ListOk() && i < |entries|
      modifies this`entries, this`tail, this`nack
      ensures ListOk() && entries == old(entries[..i]) + old(entries[i + 1..])
    {
      assert entries == entries[..i] + [entries[i]] + entries[i + 1..];
      DescendingWithout(entries[..i], [entries[i]], entries[i + 1..]);
      entries := entries[..i] + entries[i + 1..];
      if i == |entries| {
        tail := if i == 0 then Dangling else Node(entries[i - 1].pktNum);
      }
      nack := nack - 1;
    }

    /** Drops entry `i` and all older ones. */
    method Forget(i: nat)
      requires ListOk() && i < |entries|
      modifies this`entries, this`tail, this`nack
      ensures ListOk() && entries == old(entries[..i])
    {
      assert entries == entries[..i] + entries[i..] + [] && entries[..i] + [] == entries[..i];
      DescendingWithout(entries[..i], entries[i..], []);
      nack := nack - (|entries| - i);
      entries := entries[..i];
      tail := if i == 0 then Null else Node(entries[i - 1].pktNum);
    }

    /** The first entry that is not newer than `pktNum`. */
    method FindSlot(pktNum: nat) returns (i: nat)
      requires Descending(entries)
      ensures i <= |entries| && (i < |entries| ==> entries[i].pktNum <= pktNum)
      ensures forall j :: 0 <= j < i ==> pktNum < entries[j].pktNum
    {
      i := 0;
      while i < |entries| && entries[i].pktNum > pktNum
        invariant 0 <= i <= |entries|
        invariant forall j :: 0 <= j < i ==> pktNum < entries[j].pktNum
      {
        i := i + 1;
      }
    }

    /** Links `e` in before entry `i`. */
    method Link(i: nat, e: Entry)
      requires ListOk() && i <= |entries|
      requires i < |entries| ==> entries[i].pktNum < e.pktNum
      requires forall j :: 0 <= j < i ==> e.pktNum < entries[j].pktNum
      modifies this`entries, this`tail, this`nack
      ensures entries == Inserted(old(entries), e) && Descending(entries) && nack == |entries| == |old(entries)| + 1
      ensures tail == Node(entries[|entries| - 1].pktNum)
    {
      InsertedAt(entries, i, e);
      assert entries == entries[..i] + entries[i..];
      DescendingWith(entries[..i], e, entries[i..]);
      if i == |entries| {
        tail := Node(e.pktNum);
      }
      entries := entries[..i] + [e] + entries[i..];
      nack := nack + 1;
    }

    method EvictOldest()
      requires Descending(entries) && nack == |entries| == MAX_ENT + 1
      modifies this`entries, this`tail, this`nack
      ensures ListOk() && entries == old(entries)[..MAX_ENT]
    {
      var n := |entries| - 1;
      assert entries == entries[..n] + [entries[n]] + [] && entries[..n] + [] == entries[..n];
      DescendingWithout(entries[..n], [entries[n]], []);
      entries := entries[..n];
      tail := Node(entries[n - 1].pktNum);
      nack := nack - 1;
    }

    /** Takes in a received packet, and evicts the oldest one beyond the limit. */
    method Add(e: Entry, active: bool) returns (ok: bool)
      requires ListOk()
      modifies this`entries, this`tail, this`nack, this`activeAck
      ensures ListOk()
      ensures ok <==> !Known(old(entries), e.pktNum)
      ensures entries == Added(old(entries), e)
      ensures activeAck == (old(activeAck) || (ok && active))
    {
      var i := FindSlot(e.pktNum);
      SlotFree(entries, i, e.pktNum);
      if i < |entries| && entries[i].pktNum == e.pktNum {
        return false;
      }
      Link(i, e);
      activeAck := activeAck || active;
      if nack > MAX_ENT {
        EvictOldest();
      }
      return true;
    }

    /** From entry `i` on, the first entry that is not above `hi`. */
    method SkipAbove(i: nat, hi: int) returns (j: nat)
      requires i <= |entries|
      ensures i <= j <= |entries| && Within(entries[i..j], hi + 1, hi + 1, false)
      ensures j < |entries| ==> entries[j].pktNum <= hi
    {
      j := i;
      while j < |entries| && entries[j].pktNum > hi
        invariant i <= j <= |entries| && forall x :: i <= x < j ==> hi < entries[x].pktNum
      {
        j := j + 1;
      }
    }

    /** Unlinks entries from position `j` on, down to number `lo`. */
    method UnlinkDown(j: nat, lo: int, ghost front: seq<Entry>, ghost todo: seq<Entry>)
      returns (ghost gone: seq<Entry>, ghost rest: seq<Entry>)
      requires ListOk() && entries == front + todo && j == |front|
      modifies this`entries, this`tail, this`nack
      ensures ListOk() && todo == gone + rest && entries == front + rest
      ensures forall x :: 0 <= x < |gone| ==> lo <= gone[x].pktNum
      ensures rest != [] ==> rest[0].pktNum < lo
    {
      gone, rest := [], todo;
      while j < |entries| && lo <= entries[j].pktNum
        invariant ListOk() && todo == gone + rest && entries == front + rest
        invariant forall x :: 0 <= x < |gone| ==> lo <= gone[x].pktNum
        decreases |rest|
      {
        assert rest[0] == entries[j];
        Remove(j);
        ShiftOne(gone, rest);
        gone, rest := gone + [rest[0]], rest[1..];
      }
    }

    /** From entry `i` on: skips the entries above `hi` and unlinks those down to `lo`. */
    method RemoveRange(i: nat, hi: int, lo: int, ghost done: seq<Entry>, ghost todo: seq<Entry>)
      returns (j: nat, ghost kept: seq<Entry>, ghost gone: seq<Entry>, ghost rest: seq<Entry>)
      requires ListOk() && entries == done + todo && i == |done|
      modifies this`entries, this`tail, this`nack
      ensures ListOk() && todo == kept + gone + rest
      ensures entries == (done + kept) + rest && j == |done + kept|
      ensures Within(kept, hi + 1, hi + 1, false) && Within(gone, lo, hi, true) && Within(rest, 0, lo - 1, true)
    {
      j := SkipAbove(i, hi);
      kept := entries[i..j];
      ghost var below := entries[j..];
      SplitAt(entries, done, todo, j);
      gone, rest := UnlinkDown(j, lo, done + kept, below);
      Assoc(kept, gone, rest);
      RangeSplit(done + kept, gone, rest, lo, hi);
    }

    /** The walk over the list has dealt with `passed`, the first run and `b` blocks of `fr`. */
    ghost predicate Dealt(all: seq<Entry>, fr: Ack, b: nat, lo: int, i: nat, passed: seq<Entry>, rest: seq<Entry>)
      reads this
    {
      && ListOk() && all == passed + rest
      && entries == Unacked(passed, fr) + rest && i == |Unacked(passed, fr)|
      && b <= |fr.blks| && lo == LowAt(fr, b) && Within(rest, 0, lo - 1, true)
    }

    method RemoveBlock(ghost all: seq<Entry>, fr: Ack, b: nat, lo: int, i: nat, ghost passed: seq<Entry>,
                       ghost rest: seq<Entry>)
      returns (lo': int, i': nat, ghost passed': seq<Entry>, ghost rest': seq<Entry>)
      requires Dealt(all, fr, b, lo, i, passed, rest) && b < |fr.blks|
      modifies this`entries, this`tail, this`nack
      ensures Dealt(all, fr, b + 1, lo', i', passed', rest')
    {
      var hi := lo - fr.blks[b].gap - 2;
      lo' := hi - fr.blks[b].len;
      assert lo' == LowAt(fr, b + 1);
      ghost var kept, gone;
      i', kept, gone, rest' := RemoveRange(i, hi, lo', Unacked(passed, fr), rest);
      BlockAcked(passed, kept, gone, rest', rest, fr, b);
      passed' := passed + kept + gone;
    }

    method RemoveFirstRun(fr: Ack) returns (i: nat, ghost passed: seq<Entry>, ghost rest: seq<Entry>)
      requires ListOk()
      modifies this`entries, this`tail, this`nack
      ensures Dealt(old(entries), fr, 0, fr.largest - fr.firstLen, i, passed, rest)
    {
      assert entries == [] + entries;
      ghost var kept, gone;
      i, kept, gone, rest := RemoveRange(0, fr.largest, fr.largest - fr.firstLen, [], entries);
      FirstRunAcked(kept, gone, fr);
      assert [] + kept == kept;
      passed := kept + gone;
    }

    /** Unlinks every entry that `fr` acknowledges. */
    method RemoveAcked(fr: Ack)
      requires ListOk() && ValidAck(fr)
      modifies this`entries, this`tail, this`nack
      ensures ListOk() && entries == Unacked(old(entries), fr)
    {
      ghost var all := entries;
      var lo, b := fr.largest - fr.firstLen, 0;
      var i: nat;
      ghost var passed, rest;
      i, passed, rest := RemoveFirstRun(fr);
      while b < |fr.blks| && i < |entries|
        invariant Dealt(all, fr, b, lo, i, passed, rest)
        decreases |fr.blks| - b
      {
        lo, i, passed, rest := RemoveBlock(all, fr, b, lo, i, passed, rest);
        b := b + 1;
      }
      RestKept(passed, rest, fr, b);
    }

    /** Everything that the recorded frame `k` acknowledged has reached the peer: these entries are
        done with, and so are this frame and all older ones. */
    method OnAck(k: nat)
      requires ListOk() && k < |acks| && ValidAck(acks[k].ack)
      modifies this`entries, this`tail, this`nack, this`acks
      ensures ListOk() && entries == Unacked(old(entries), old(acks)[k].ack)
      ensures acks == old(acks)[..k]
    {
      RemoveAcked(acks[k].ack);
      acks := acks[..k];
    }

    /** Builds the frame to send, if one is due. Entries that do not fit any more are forgotten. */
    method CreateAckFrame(unprotected: bool, ts: nat, exponent: nat) returns (r: Option<Ack>)
      requires ListOk()
      modifies this`entries, this`tail, this`nack
      ensures ListOk() && entries <= old(entries)
      ensures r.None? <==> !activeAck || forall e :: e in old(entries) ==> !Passes(e, unprotected)
      ensures r.None? ==> entries == old(entries)
      ensures r.Some? ==> ValidAck(r.value) && |r.value.blks| == BlockCount(old(entries), unprotected)
      ensures r.Some? ==> Dated(r.value, old(entries), unprotected, ts, exponent)
      ensures r.Some? ==> Describes(r.value, old(entries), |entries| + 1, unprotected)
      ensures r.Some? ==>
        (|entries| < |old(entries)| <==> Runs(Reportable(old(entries), unprotected)) > MAX_ACK_BLKS + 1)
    {
      if !activeAck {
        return None;
      }
      var stop, capacity;
      r, stop, capacity := BuildAck(entries, unprotected, ts, exponent);
      if r.Some? && stop < |entries| {
        Forget(stop);
      } else if r.Some? {
        WalkedAll(entries, stop, unprotected);
      }
    }

    /** Remembers a frame that was sent in packet `pktNum`; the ring keeps the newest ones. */
    method AddAck(pktNum: nat, fr: Ack, unprotected: bool)
      requires RecordsOk(acks) && ValidAck(fr) && (acks != [] ==> acks[0].pktNum < pktNum)
      modifies this`acks
      ensures RecordsOk(acks)
      ensures acks == Remembered(old(acks), Recorded(fr, pktNum, unprotected))
    {
      ghost var before := acks;
      acks := [Recorded(fr, pktNum, unprotected)] + acks;
      if |acks| > MAX_ACKS {
        acks := acks[..MAX_ACKS];
      }
      forall i, j | 0 <= i < j < |acks|
        ensures Later(acks, i, j)
      {
        assert j == 1 || Later(before, 0, j - 1);
        assert i == 0 || Later(before, i - 1, j - 1);
      }
    }

    /** Looks for an eligible record in [lo, hi], starting from record `j0`. */
    method ScanRange(j0: nat, hi: int, lo: int, unprotected: bool) returns (j: nat, found: bool)
      requires j0 <= |acks|
      ensures j0 <= j <= |acks|
      ensures forall x :: j0 <= x < j ==> Missed(acks[x], hi, lo, unprotected)
      ensures found ==> j < |acks| && lo <= acks[j].pktNum <= hi && Eligible(acks[j], unprotected)
      ensures !found && j < |acks| ==> acks[j].pktNum < lo
    {
      j := j0;
      while j < |acks|
        invariant j0 <= j <= |acks|
        invariant forall x :: j0 <= x < j ==> Missed(acks[x], hi, lo, unprotected)
      {
        if acks[j].pktNum > hi {
          j := j + 1;
          continue;
        }
        if acks[j].pktNum < lo {
          break;
        }
        if Eligible(acks[j], unprotected) {
          return j, true;
        }
        j := j + 1;
      }
      return j, false;
    }

    /** The newest record that `fr` acknowledges and that may be settled by it. */
    method FindRecord(fr: Ack, unprotected: bool) returns (k: nat)
      requires RecordsOk(acks)
      ensures k <= |acks| && (k < |acks| ==> Qualifies(acks[k], fr, unprotected))
      ensures forall x :: 0 <= x < k ==> !Qualifies(acks[x], fr, unprotected)
    {
      var lo := fr.largest - fr.firstLen;
      var j, found := ScanRange(0, fr.largest, lo, unprotected);
      FirstRunScanned(acks, j, fr, unprotected);
      var b := 0;
      while b < |fr.blks| && !found && j < |acks|
        invariant 0 <= b <= |fr.blks| && lo == LowAt(fr, b) && 0 <= j <= |acks|
        invariant forall x :: 0 <= x < j ==> !Qualifies(acks[x], fr, unprotected)
        invariant found ==> j < |acks| && Qualifies(acks[j], fr, unprotected)
        invariant !found && j < |acks| ==> acks[j].pktNum < lo
        decreases |fr.blks| - b
      {
        var hi := lo - fr.blks[b].gap - 2;
        ghost var j0 := j;
        j, found := ScanRange(j, hi, hi - fr.blks[b].len, unprotected);
        BlockScanned(acks, j0, j, fr, b, unprotected);
        lo, b := hi - fr.blks[b].len, b + 1;
      }
      if !found {
        RestScanned(acks, j, fr, b, unprotected);
        return |acks|;
      }
      return j;
    }

    /** An incoming ACK frame settles the newest eligible ACK that it acknowledges, and with it all
        older ones; newer ones stay recorded. */
    method RecvAck(fr: Ack, unprotected: bool) returns (k: nat)
      requires ListOk() && RecordsOk(acks)
      modifies this`entries, this`tail, this`nack, this`acks
      ensures ListOk() && RecordsOk(acks) && k <= |old(acks)|
      ensures forall x :: 0 <= x < k ==> !Qualifies(old(acks)[x], fr, unprotected)
      ensures k < |old(acks)| ==> Qualifies(old(acks)[k], fr, unprotected)
      ensures k < |old(acks)| ==> Covers(fr, old(acks)[k].pktNum) && (unprotected ==> old(acks)[k].unprotected)
      ensures forall x :: 0 <= x < k ==> !Covers(fr, old(acks)[x].pktNum) || (unprotected && !old(acks)[x].unprotected)
      ensures acks == old(acks)[..k]
      ensures entries == if k < |old(acks)| then Unacked(old(entries), old(acks)[k].ack) else old(entries)
    {
      k := FindRecord(fr, unprotected);
      if k < |acks| {
        OnAck(k);
        forall i, j | 0 <= i < j < |acks|
          ensures Later(acks, i, j)
        {
          assert Later(old(acks), i, j);
        }
      } else {
        assert acks[..k] == acks;
      }
    }
  }

  /** The records after one more: the newest ones that the ring holds. */
  function Remembered(acks: seq<Recorded>, a: Recorded): seq<Recorded> {
    ([a] + acks)[..if |acks| < MAX_ACKS then |acks| + 1 else MAX_ACKS]
  }

  ghost predicate Later(acks: seq<Recorded>, i: int, j: int) {
    0 <= i < |acks| && 0 <= j < |acks| && acks[j].pktNum < acks[i].pktNum
  }

  /** Recorded frames are valid, newest packet first, and at most as many as the ring holds. */
  ghost predicate RecordsOk(acks: seq<Recorded>) {
    && |acks| <= MAX_ACKS
    && (forall i :: 0 <= i < |acks| ==> ValidAck(acks[i].ack))
    && (forall i, j {:trigger Later(acks, i, j)} :: 0 <= i < j < |acks| ==> Later(acks, i, j))
  }

  /** An ACK that came in an unprotected packet does not settle one sent in a protected packet. */
  predicate Eligible(a: Recorded, unprotected: bool) {
    unprotected ==> a.unprotected
  }

  /** The record lies above [lo, hi], or in it without being eligible. */
  predicate Missed(a: Recorded, hi: int, lo: int, unprotected: bool) {
    hi < a.pktNum || (lo <= a.pktNum <= hi && !Eligible(a, unprotected))
  }

  predicate Qualifies(a: Recorded, fr: Ack, unprotected: bool) {
    Covers(fr, a.pktNum) && Eligible(a, unprotected)
  }

  lemma FirstRunScanned(acks: seq<Recorded>, j: nat, fr: Ack, unprotected: bool)
    requires j <= |acks|
    requires forall x :: 0 <= x < j ==> Missed(acks[x], fr.largest, fr.largest - fr.firstLen, unprotected)
    ensures forall x :: 0 <= x < j ==> !Qualifies(acks[x], fr, unprotected)
  {
    forall x | 0 <= x < j
      ensures !Qualifies(acks[x], fr, unprotected)
    {
      CoversFirst(fr, acks[x].pktNum);
    }
  }

  lemma BlockScanned(acks: seq<Recorded>, j0: nat, j: nat, fr: Ack, b: nat, unprotected: bool)
    requires RecordsOk(acks) && j0 <= j <= |acks| && b < |fr.blks| && j0 < |acks| && acks[j0].pktNum < LowAt(fr, b)
    requires var hi := LowAt(fr, b) - fr.blks[b].gap - 2;
             forall x :: j0 <= x < j ==> Missed(acks[x], hi, hi - fr.blks[b].len, unprotected)
    ensures forall x :: j0 <= x < j ==> !Qualifies(acks[x], fr, unprotected)
    ensures var hi := LowAt(fr, b) - fr.blks[b].gap - 2;
            j < |acks| && hi - fr.blks[b].len <= acks[j].pktNum <= hi ==> Covers(fr, acks[j].pktNum)
  {
    var hi := LowAt(fr, b) - fr.blks[b].gap - 2;
    forall x | j0 <= x < |acks| && hi - fr.blks[b].len <= acks[x].pktNum
      ensures Covers(fr, acks[x].pktNum) <==> acks[x].pktNum <= hi
    {
      RecordInBlock(acks, j0, x, fr, b);
    }
    forall x | j0 <= x < j
      ensures !Qualifies(acks[x], fr, unprotected)
    {
      assert Missed(acks[x], hi, hi - fr.blks[b].len, unprotected);
    }
  }

  lemma RecordInBlock(acks: seq<Recorded>, j0: nat, x: nat, fr: Ack, b: nat)
    requires RecordsOk(acks) && j0 <= x < |acks| && b < |fr.blks| && acks[j0].pktNum < LowAt(fr, b)
    requires LowAt(fr, b + 1) <= acks[x].pktNum
    ensures Covers(fr, acks[x].pktNum) <==> acks[x].pktNum <= LowAt(fr, b) - fr.blks[b].gap - 2
  {
    assert x == j0 || Later(acks, j0, x);
    CoversBlock(fr, b, acks[x].pktNum);
  }

  lemma RestScanned(acks: seq<Recorded>, j: nat, fr: Ack, b: nat, unprotected: bool)
    requires RecordsOk(acks) && j <= |acks| && b <= |fr.blks|
    requires j < |acks| ==> b == |fr.blks| && acks[j].pktNum < LowAt(fr, b)
    ensures forall x :: j <= x < |acks| ==> !Qualifies(acks[x], fr, unprotected)
  {
    forall x | j <= x < |acks|
      ensures !Qualifies(acks[x], fr, unprotected)
    {
      assert x == j || Later(acks, j, x);
      CoversBelow(fr, b, acks[x].pktNum);
    }
  }

  lemma SplitAt<T>(all: seq<T>, a: seq<T>, b: seq<T>, j: nat)
    requires all == a + b && |a| <= j <= |all|
    ensures b == all[|a|..j] + all[j..] && all == (a + all[|a|..j]) + all[j..]
  {
  }

  /** In a descending list, what lies between two numbers. */
  lemma RangeSplit(front: seq<Entry>, gone: seq<Entry>, rest: seq<Entry>, lo: int, hi: int)
    requires Descending(front + (gone + rest)) && (gone + rest != [] ==> (gone + rest)[0].pktNum <= hi)
    requires forall x :: 0 <= x < |gone| ==> lo <= gone[x].pktNum
    requires rest != [] ==> rest[0].pktNum < lo
    ensures Within(gone, lo, hi, true) && Within(rest, 0, lo - 1, true)
  {
    var tail := gone + rest;
    TailBelow(front, tail);
    assert front + tail == (front + gone) + rest;
    TailBelow(front + gone, rest);
    forall x | 0 <= x < |gone|
      ensures gone[x].pktNum <= hi
    {
      assert gone[x] == tail[x];
    }
  }

  lemma ShiftOne<T>(a: seq<T>, b: seq<T>)
    requires b != []
    ensures a + b == (a + [b[0]]) + b[1..]
  {
  }

  /** All numbers of `es` lie in [lo, hi], or only above `lo` when not `bounded`. */
  ghost predicate Within(es: seq<Entry>, lo: int, hi: int, bounded: bool) {
    forall x :: 0 <= x < |es| ==> lo <= es[x].pktNum && (bounded ==> es[x].pktNum <= hi)
  }

  /** The entries after a point of a descending list are no newer than the first of them. */
  lemma TailBelow(a: seq<Entry>, b: seq<Entry>)
    requires Descending(a + b)
    ensures b != [] ==> Within(b, 0, b[0].pktNum, true)
  {
    var es := a + b;
    forall x | 0 <= x < |b|
      ensures b[x].pktNum <= b[0].pktNum
    {
      assert b[x] == es[|a| + x] && b[0] == es[|a|];
      assert x == 0 || Newer(es, |a|, |a| + x);
    }
  }

  /** A stretch of entries that is kept, followed by one that is acknowledged. */
  lemma UnackedStep(passed: seq<Entry>, kept: seq<Entry>, gone: seq<Entry>, fr: Ack)
    requires forall x :: 0 <= x < |kept| ==> !Covers(fr, kept[x].pktNum)
    requires forall x :: 0 <= x < |gone| ==> Covers(fr, gone[x].pktNum)
    ensures Unacked(passed + kept + gone, fr) == Unacked(passed, fr) + kept
  {
    UnackedConcat(passed + kept, gone, fr);
    UnackedConcat(passed, kept, fr);
    UnackedAll(kept, fr);
    UnackedAll(gone, fr);
  }

  lemma FirstRunAcked(kept: seq<Entry>, gone: seq<Entry>, fr: Ack)
    requires Within(kept, fr.largest + 1, 0, false) && Within(gone, fr.largest - fr.firstLen, fr.largest, true)
    ensures Unacked(kept + gone, fr) == kept
  {
    forall x | 0 <= x < |kept|
      ensures !Covers(fr, kept[x].pktNum)
    {
      CoversFirst(fr, kept[x].pktNum);
    }
    UnackedStep([], kept, gone, fr);
    assert [] + kept == kept;
  }

  lemma KeptAndGone(kept: seq<Entry>, gone: seq<Entry>, rest: seq<Entry>, rest': seq<Entry>, hi: int)
    requires rest' == kept + gone + rest && Within(rest', 0, hi, true)
    ensures Within(kept, 0, hi, true) && Within(gone, 0, hi, true)
  {
    assert forall x :: 0 <= x < |kept| ==> kept[x] == rest'[x];
    assert forall x :: 0 <= x < |gone| ==> gone[x] == rest'[|kept| + x];
  }

  lemma Concat4<T>(a: seq<T>, b: seq<T>, c: seq<T>, d: seq<T>)
    ensures a + (b + c + d) == (a + b + c) + d
  {
  }

  lemma BlockKept(kept: seq<Entry>, fr: Ack, b: nat)
    requires b < |fr.blks| && Within(kept, 0, LowAt(fr, b) - 1, true)
    requires Within(kept, LowAt(fr, b) - fr.blks[b].gap - 1, 0, false)
    ensures forall x :: 0 <= x < |kept| ==> !Covers(fr, kept[x].pktNum)
  {
    forall x | 0 <= x < |kept| ensures !Covers(fr, kept[x].pktNum) {
      CoversBlock(fr, b, kept[x].pktNum);
    }
  }

  lemma BlockGone(gone: seq<Entry>, fr: Ack, b: nat)
    requires b < |fr.blks| && Within(gone, 0, LowAt(fr, b) - 1, true)
    requires var hi := LowAt(fr, b) - fr.blks[b].gap - 2; Within(gone, hi - fr.blks[b].len, hi, true)
    ensures forall x :: 0 <= x < |gone| ==> Covers(fr, gone[x].pktNum)
  {
    forall x | 0 <= x < |gone| ensures Covers(fr, gone[x].pktNum) {
      CoversBlock(fr, b, gone[x].pktNum);
    }
  }

  lemma BlockAcked(passed: seq<Entry>, kept: seq<Entry>, gone: seq<Entry>, rest: seq<Entry>,
                   rest': seq<Entry>, fr: Ack, b: nat)
    requires b < |fr.blks| && rest' == kept + gone + rest && Within(rest', 0, LowAt(fr, b) - 1, true)
    requires var hi := LowAt(fr, b) - fr.blks[b].gap - 2;
             Within(kept, hi + 1, hi + 1, false) && Within(gone, hi - fr.blks[b].len, hi, true)
    ensures Unacked(passed + kept + gone, fr) == Unacked(passed, fr) + kept
    ensures passed + rest' == (passed + kept + gone) + rest
  {
    KeptAndGone(kept, gone, rest, rest', LowAt(fr, b) - 1);
    BlockKept(kept, fr, b);
    BlockGone(gone, fr, b);
    UnackedStep(passed, kept, gone, fr);
    Concat4(passed, kept, gone, rest);
  }

  lemma RestKept(passed: seq<Entry>, rest: seq<Entry>, fr: Ack, b: nat)
    requires b <= |fr.blks| && (b == |fr.blks| || rest == [])
    requires Within(rest, 0, LowAt(fr, b) - 1, true)
    ensures Unacked(passed + rest, fr) == Unacked(passed, fr) + rest
  {
    forall x | 0 <= x < |rest|
      ensures !Covers(fr, rest[x].pktNum)
    {
      CoversBelow(fr, b, rest[x].pktNum);
    }
    UnackedStep(passed, rest, [], fr);
    assert passed + rest + [] == passed + rest;
  }

  lemma SlotFree(entries: seq<Entry>, i: nat, pktNum: nat)
    requires Descending(entries) && i <= |entries| && (i < |entries| ==> entries[i].pktNum <= pktNum)
    requires forall j :: 0 <= j < i ==> pktNum < entries[j].pktNum
    ensures Known(entries, pktNum) <==> i < |entries| && entries[i].pktNum == pktNum
  {
    if Known(entries, pktNum) {
      var j :| 0 <= j < |entries| && entries[j].pktNum == pktNum;
      assert j == i || Newer(entries, i, j);
    }
  }

  ghost predicate Known(entries: seq<Entry>, pktNum: int) {
    exists i :: 0 <= i < |entries| && entries[i].pktNum == pktNum
  }

  function Inserted(entries: seq<Entry>, e: Entry): seq<Entry> {
    if entries == [] || entries[0].pktNum < e.pktNum then [e] + entries
    else [entries[0]] + Inserted(entries[1..], e)
  }

  function Newest(entries: seq<Entry>): seq<Entry> {
    if |entries| > MAX_ENT then entries[..MAX_ENT] else entries
  }

  /** The list after a packet has arrived: a known number is refused, and beyond the limit the oldest
      entry is dropped. */
  ghost function Added(entries: seq<Entry>, e: Entry): seq<Entry> {
    if Known(entries, e.pktNum) then entries else Newest(Inserted(entries, e))
  }

  lemma {:induction false} InsertedAt(entries: seq<Entry>, i: nat, e: Entry)
    requires i <= |entries|
    requires forall j :: 0 <= j < i ==> e.pktNum < entries[j].pktNum
    requires i < |entries| ==> entries[i].pktNum < e.pktNum
    ensures Inserted(entries, e) == entries[..i] + [e] + entries[i..]
  {
    if i == 0 {
      assert entries[..0] + [e] + entries[0..] == [e] + entries;
    } else {
      InsertedAt(entries[1..], i - 1, e);
      assert entries[1..][..i - 1] == entries[1..i] && entries[1..][i - 1..] == entries[i..];
      assert entries[..i] == [entries[0]] + entries[1..i];
    }
  }

  // ---------- what an acknowledged ACK settles ----------

  lemma {:induction false} InsertedIn(entries: seq<Entry>, e: Entry, x: Entry)
    ensures x in Inserted(entries, e) <==> x == e || x in entries
  {
    if entries != [] && entries[0].pktNum >= e.pktNum {
      InsertedIn(entries[1..], e, x);
    }
    assert entries != [] ==> entries == [entries[0]] + entries[1..];
  }

  lemma {:induction false} InsertedDescending(entries: seq<Entry>, e: Entry)
    requires Descending(entries) && !Known(entries, e.pktNum)
    ensures Descending(Inserted(entries, e)) && |Inserted(entries, e)| == |entries| + 1
  {
    if entries == [] || entries[0].pktNum < e.pktNum {
      Front(e, entries);
    } else {
      DescendingTail(entries);
      assert forall i :: 0 <= i < |entries[1..]| ==> entries[1..][i] == entries[i + 1];
      InsertedDescending(entries[1..], e);
      Front(entries[0], Inserted(entries[1..], e));
    }
  }

  /** A newer entry goes in front. */
  lemma Front(e: Entry, entries: seq<Entry>)
    requires Descending(entries) && (entries != [] ==> entries[0].pktNum < e.pktNum)
    ensures Descending([e] + entries)
  {
    assert [] + entries == entries && [] + [e] + entries == [e] + entries;
    DescendingWith([], e, entries);
  }

  lemma AddedDescending(entries: seq<Entry>, e: Entry)
    requires Descending(entries)
    ensures Descending(Added(entries, e))
    ensures !Known(entries, e.pktNum) ==>
            |Added(entries, e)| == if |entries| < MAX_ENT then |entries| + 1 else MAX_ENT
  {
    if !Known(entries, e.pktNum) {
      InsertedDescending(entries, e);
      FirstOnes(Inserted(entries, e), MAX_ENT);
    }
  }

  lemma FirstOnes(entries: seq<Entry>, n: nat)
    requires Descending(entries)
    ensures n <= |entries| ==> Descending(entries[..n])
  {
    if n <= |entries| {
      assert entries == entries[..n] + entries[n..] + [] && entries[..n] + [] == entries[..n];
      DescendingWithout(entries[..n], entries[n..], []);
    }
  }

  /** The list after more packets have arrived. */
  ghost function AddAll(entries: seq<Entry>, more: seq<Entry>): seq<Entry>
    decreases |more|
  {
    if more == [] then entries else AddAll(Added(entries, more[0]), more[1..])
  }

  lemma {:induction false} AddAllIn(entries: seq<Entry>, more: seq<Entry>, x: Entry)
    requires x in AddAll(entries, more)
    ensures x in entries || x in more
    decreases |more|
  {
    if more != [] {
      AddAllIn(Added(entries, more[0]), more[1..], x);
      InsertedIn(entries, more[0], x);
    }
  }

  lemma {:induction false} AddAllDescending(entries: seq<Entry>, more: seq<Entry>)
    requires Descending(entries)
    ensures Descending(AddAll(entries, more))
    decreases |more|
  {
    if more != [] {
      AddedDescending(entries, more[0]);
      AddAllDescending(Added(entries, more[0]), more[1..]);
    }
  }

  /** As long as the list has room, nothing is dropped. */
  lemma {:induction false} AddAllKeeps(entries: seq<Entry>, more: seq<Entry>, n: nat)
    requires Descending(entries) && |entries| + |more| <= MAX_ENT
    requires Known(entries, n) || exists i :: 0 <= i < |more| && more[i].pktNum == n
    ensures Known(AddAll(entries, more), n)
    decreases |more|
  {
    if more != [] {
      AddedDescending(entries, more[0]);
      AddedKeeps(entries, more[0], n);
      if !Known(Added(entries, more[0]), n) {
        var i :| 0 <= i < |more| && more[i].pktNum == n;
        assert i > 0 && more[1..][i - 1] == more[i];
      }
      AddAllKeeps(Added(entries, more[0]), more[1..], n);
    }
  }

  lemma AddedKeeps(entries: seq<Entry>, e: Entry, n: nat)
    requires Descending(entries) && |entries| < MAX_ENT
    ensures Known(Added(entries, e), n) <==> Known(entries, n) || n == e.pktNum
  {
    if !Known(entries, e.pktNum) {
      InsertedDescending(entries, e);
      InsertedKnown(entries, e, n);
    }
  }

  lemma InsertedKnown(entries: seq<Entry>, e: Entry, n: nat)
    ensures Known(Inserted(entries, e), n) <==> Known(entries, n) || n == e.pktNum
  {
    InsertedIn(entries, e, e);
    if Known(entries, n) {
      var i :| 0 <= i < |entries| && entries[i].pktNum == n;
      InsertedIn(entries, e, entries[i]);
    }
    if Known(Inserted(entries, e), n) {
      var i :| 0 <= i < |Inserted(entries, e)| && Inserted(entries, e)[i].pktNum == n;
      InsertedIn(entries, e, Inserted(entries, e)[i]);
    }
  }

  /** Build a frame, let packets with new numbers arrive, and have the frame acknowledged: what
      remains of the list is precisely the packets that arrived later, and those that the frame was
      not allowed to report, still in descending order. While the list has room, all of those are
      there. */
  lemma AckOfAck(entries: seq<Entry>, stop: nat, unprotected: bool, fr: Ack, more: seq<Entry>, x: Entry)
    requires Descending(entries) && stop <= |entries| && Describes(fr, entries, stop + 1, unprotected)
    requires forall e :: e in more ==> !Known(entries, e.pktNum)
    ensures var now := AddAll(entries[..stop], more);
            && Descending(now) && Descending(Unacked(now, fr))
            && (x in Unacked(now, fr) <==> x in now && (x in more || !Passes(x, unprotected)))
            && (stop + |more| <= MAX_ENT && x in more ==> Known(Unacked(now, fr), x.pktNum))
  {
    var now := AddAll(entries[..stop], more);
    FirstOnes(entries, stop);
    AddAllDescending(entries[..stop], more);
    UnackedDescending(now, fr);
    UnackedIn(now, fr, x);
    if x in now {
      Remains(entries, stop, unprotected, fr, more, x);
    }
    if stop + |more| <= MAX_ENT && x in more {
      var i :| 0 <= i < |more| && more[i] == x;
      AddAllKeeps(entries[..stop], more, x.pktNum);
      StillKnown(entries, stop, unprotected, fr, now, x.pktNum);
    }
  }

  lemma Remains(entries: seq<Entry>, stop: nat, unprotected: bool, fr: Ack, more: seq<Entry>, x: Entry)
    requires Descending(entries) && stop <= |entries| && Describes(fr, entries, stop + 1, unprotected)
    requires forall e :: e in more ==> !Known(entries, e.pktNum)
    requires x in AddAll(entries[..stop], more)
    ensures Covers(fr, x.pktNum) <==> !(x in more || !Passes(x, unprotected))
  {
    AddAllIn(entries[..stop], more, x);
    if x in more {
      assert !Walked(entries, stop + 1, unprotected, x.pktNum);
    } else {
      var i :| 0 <= i < stop && entries[..stop][i] == x;
      assert entries[i] == x;
      SameNumber(entries, stop + 1, unprotected, i);
    }
  }

  /** A number that the frame does not cover stays. */
  lemma StillKnown(entries: seq<Entry>, stop: nat, unprotected: bool, fr: Ack, now: seq<Entry>, n: nat)
    requires Describes(fr, entries, stop + 1, unprotected) && !Known(entries, n) && Known(now, n)
    ensures Known(Unacked(now, fr), n)
  {
    assert !Walked(entries, stop + 1, unprotected, n);
    var i :| 0 <= i < |now| && now[i].pktNum == n;
    UnackedIn(now, fr, now[i]);
  }

  /** Numbers are unique, so an entry is reported exactly when it may be. */
  lemma SameNumber(entries: seq<Entry>, k: nat, unprotected: bool, i: nat)
    requires Descending(entries) && i < k && i < |entries|
    ensures Walked(entries, k, unprotected, entries[i].pktNum) <==> Passes(entries[i], unprotected)
  {
    if Walked(entries, k, unprotected, entries[i].pktNum) {
      var j :| 0 <= j < k && j < |entries| && entries[j].pktNum == entries[i].pktNum && Passes(entries[j], unprotected);
      assert j == i || Newer(entries, j, i) || Newer(entries, i, j);
    }
  }
}
