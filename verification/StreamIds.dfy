/** The tracker of stream ids that the peer has used (Polygon/lib/ngtcp2_idtr.c). */
module StreamIds {
  import opened Basics
  import opened Ranges

  /** The slot of a stream id among the ids of its kind (initiator and direction). */
  function Slot(streamId: nat): nat {
    streamId / 4
  }

  const MAX_SLOT: nat := MAX_VARINT / 4

  /** Gaps in order, from `lo` on, with a used slot between any two; a gap may be empty. */
  predicate OrderedFrom(lo: nat, gaps: seq<Range>)
    decreases |gaps|
  {
    gaps == [] || (lo <= gaps[0].begin <= gaps[0].end && OrderedFrom(gaps[0].end + 1, gaps[1..]))
  }

  /** The last gap is never used up, because it reaches far beyond every slot. */
  predicate OpenEnded(gaps: seq<Range>)
    decreases |gaps|
  {
    gaps != [] &&
    if |gaps| == 1 then gaps[0].begin <= MAX_SLOT + 1 && gaps[0].end == UINT64_MAX else OpenEnded(gaps[1..])
  }

  /** What taking slot `q` leaves of gap `g`. A gap that loses its last slot leaves an empty gap
      behind, unless it had only that slot. */
  function Pieces(g: Range, q: nat): seq<Range>
    requires g.Contains(q)
  {
    if q == g.begin then (if g.end - g.begin == 1 then [] else [Range(q + 1, g.end)])
    else [Range(g.begin, q), Range(q + 1, g.end)]
  }

  /** Taking slot `q`, if it is free. */
  function Take(gaps: seq<Range>, q: nat): Option<seq<Range>>
    decreases |gaps|
  {
    if gaps == [] || q < gaps[0].begin then None
    else if gaps[0].end <= q then
      var rest := Take(gaps[1..], q);
      if rest.Some? then Some([gaps[0]] + rest.value) else None
    else Some(Pieces(gaps[0], q) + gaps[1..])
  }

  lemma HeadCovers(gaps: seq<Range>, x: int)
    requires gaps != []
    ensures Covers(gaps, x) <==> gaps[0].Contains(x) || Covers(gaps[1..], x)
  {
    assert gaps == [gaps[0]] + gaps[1..];
    CoversSplit([gaps[0]], gaps[1..], x);
    assert Covers([gaps[0]], x) <==> [gaps[0]][0].Contains(x);
  }

  lemma {:induction false} OrderedCovers(lo: nat, gaps: seq<Range>, x: int)
    requires OrderedFrom(lo, gaps) && Covers(gaps, x)
    ensures lo <= x
    decreases |gaps|
  {
    HeadCovers(gaps, x);
    if !gaps[0].Contains(x) {
      OrderedCovers(gaps[0].end + 1, gaps[1..], x);
    }
  }

  lemma FirstCovered(gaps: seq<Range>)
    requires OrderedFrom(0, gaps) && gaps != []
    ensures Covers(gaps, gaps[0].begin) <==> gaps[0].begin < gaps[0].end
  {
    HeadCovers(gaps, gaps[0].begin);
    if Covers(gaps[1..], gaps[0].begin) {
      OrderedCovers(gaps[0].end + 1, gaps[1..], gaps[0].begin);
    }
  }

  lemma PiecesCover(g: Range, q: nat, x: int)
    requires g.Contains(q)
    ensures Covers(Pieces(g, q), x) <==> g.Contains(x) && x != q
  {
    var p := Pieces(g, q);
    if g.Contains(x) && x != q {
      if x < q {
        assert p[0].Contains(x);
      } else {
        assert p[|p| - 1].Contains(x);
      }
    }
  }

  /** A slot can be taken exactly when it is free, and then only that slot stops being free. */
  lemma {:induction false} TakeExact(lo: nat, gaps: seq<Range>, q: nat, x: int)
    requires OrderedFrom(lo, gaps)
    ensures Take(gaps, q).Some? <==> Covers(gaps, q)
    ensures Take(gaps, q).Some? ==> (Covers(Take(gaps, q).value, x) <==> Covers(gaps, x) && x != q)
    decreases |gaps|
  {
    if gaps != [] {
      HeadCovers(gaps, q);
      HeadCovers(gaps, x);
      if Covers(gaps[1..], q) {
        OrderedCovers(gaps[0].end + 1, gaps[1..], q);
      }
      if gaps[0].end <= q {
        TakeExact(gaps[0].end + 1, gaps[1..], q, x);
        if Take(gaps, q).Some? {
          HeadCovers(Take(gaps, q).value, x);
        }
      } else if gaps[0].begin <= q {
        PiecesCover(gaps[0], q, x);
        CoversSplit(Pieces(gaps[0], q), gaps[1..], x);
        if Covers(gaps[1..], x) {
          OrderedCovers(gaps[0].end + 1, gaps[1..], x);
        }
      }
    }
  }

  lemma {:induction false} TakeOrdered(lo: nat, gaps: seq<Range>, q: nat)
    requires OrderedFrom(lo, gaps) && OpenEnded(gaps) && q <= MAX_SLOT && Take(gaps, q).Some?
    ensures OrderedFrom(lo, Take(gaps, q).value) && OpenEnded(Take(gaps, q).value)
    decreases |gaps|
  {
    var r := Take(gaps, q).value;
    if gaps[0].end <= q {
      TakeOrdered(gaps[0].end + 1, gaps[1..], q);
      assert r[1..] == Take(gaps[1..], q).value;
    } else {
      var p := Pieces(gaps[0], q);
      if |p| == 2 {
        assert r[1..] == [p[1]] + gaps[1..] && r[1..][1..] == gaps[1..];
      } else if |p| == 1 {
        assert r[1..] == gaps[1..];
      } else {
        assert r == gaps[1..];
        OrderedWeaken(gaps[0].end + 1, lo, gaps[1..]);
      }
    }
  }

  lemma OrderedWeaken(lo: nat, lo': nat, gaps: seq<Range>)
    requires OrderedFrom(lo, gaps) && lo' <= lo
    ensures OrderedFrom(lo', gaps)
  {
  }

  class IdTracker {
    var gaps: seq<Range>

    ghost predicate Valid()
      reads this
    {
      OrderedFrom(0, gaps) && OpenEnded(gaps)
    }

    constructor ()
      ensures Valid() && gaps == [Range(0, UINT64_MAX)]
    {
      gaps := [Range(0, UINT64_MAX)];
    }

    /** The first gap that does not end before slot `q`. */
    method FindGap(q: nat) returns (i: nat)
      requires Valid()
      ensures i <= |gaps| && (i < |gaps| ==> q < gaps[i].end)
      ensures forall j :: 0 <= j < i ==> gaps[j].end <= q
    {
      i := 0;
      while i < |gaps| && gaps[i].end <= q
        invariant 0 <= i <= |gaps|
        invariant forall j :: 0 <= j < i ==> gaps[j].end <= q
      {
        i := i + 1;
      }
    }

    /** Claims a stream id; fails when it has been used. */
    method Open(streamId: nat) returns (ok: bool)
      requires Valid() && streamId <= MAX_VARINT
      modifies this
      ensures Valid()
      ensures ok == Take(old(gaps), Slot(streamId)).Some?
      ensures gaps == if ok then Take(old(gaps), Slot(streamId)).value else old(gaps)
    {
      var q := Slot(streamId);
      var i := FindGap(q);
      TakeAt(0, gaps, i, q);
      if i == |gaps| || q < gaps[i].begin {
        return false;
      }
      TakeOrdered(0, gaps, q);
      var g := gaps[i];
      if q == g.begin {
        if g.end - g.begin == 1 {
          gaps := gaps[..i] + [] + gaps[i + 1..];
        } else {
          gaps := gaps[..i] + [Range(q + 1, g.end)] + gaps[i + 1..];
        }
      } else {
        gaps := gaps[..i] + [Range(g.begin, q), Range(q + 1, g.end)] + gaps[i + 1..];
      }
      return true;
    }

    /** Whether a stream id has been used. The code also answers "unused" when it runs off the end of
        the list, which cannot happen. */
    method IsUsed(streamId: nat) returns (used: bool)
      requires Valid() && streamId <= MAX_VARINT
      ensures used <==> !Covers(gaps, Slot(streamId))
    {
      var q := Slot(streamId);
      var i := FindGap(q);
      OpenEndedCovers(gaps, i, q);
      TakeAt(0, gaps, i, q);
      TakeExact(0, gaps, q, q);
      return i < |gaps| && q < gaps[i].begin;
    }

    /** Every slot below the first gap has been used, and the slot itself is the least unused one exactly
        when the first gap is not empty. */
    method FirstGap() returns (r: nat)
      requires Valid()
      ensures forall x: int :: 0 <= x < r ==> !Covers(gaps, x)
      ensures Covers(gaps, r) <==> gaps[0].begin < gaps[0].end
    {
      r := gaps[0].begin;
      forall x: int | Covers(gaps, x)
        ensures r <= x
      {
        OrderedCovers(r, gaps, x);
      }
      FirstCovered(gaps);
    }
  }

  lemma {:induction false} TakeAt(lo: nat, gaps: seq<Range>, i: nat, q: nat)
    requires OrderedFrom(lo, gaps) && i <= |gaps| && (i < |gaps| ==> q < gaps[i].end)
    requires forall j :: 0 <= j < i ==> gaps[j].end <= q
    ensures Take(gaps, q) == if i < |gaps| && gaps[i].begin <= q
                             then Some(gaps[..i] + Pieces(gaps[i], q) + gaps[i + 1..]) else None
    decreases |gaps|
  {
    if i > 0 {
      TakeAt(gaps[0].end + 1, gaps[1..], i - 1, q);
      assert gaps[..i] == [gaps[0]] + gaps[1..][..i - 1];
      if i < |gaps| && gaps[i].begin <= q {
        var p := Pieces(gaps[i], q);
        assert gaps[1..][i..] == gaps[i + 1..];
        assert [gaps[0]] + (gaps[1..][..i - 1] + p + gaps[1..][i..]) == gaps[..i] + p + gaps[i + 1..];
      }
    } else if gaps != [] && gaps[0].begin <= q {
      assert gaps[..0] + Pieces(gaps[0], q) + gaps[1..] == Pieces(gaps[0], q) + gaps[1..];
    }
  }

  lemma {:induction false} OpenEndedCovers(gaps: seq<Range>, i: nat, q: nat)
    requires OpenEnded(gaps) && q <= MAX_SLOT && i <= |gaps|
    requires forall j :: 0 <= j < i ==> gaps[j].end <= q
    ensures i < |gaps|
    decreases |gaps|
  {
    if |gaps| > 1 && i > 0 {
      OpenEndedCovers(gaps[1..], i - 1, q);
    }
  }

  // ---------- whole runs ----------

  /** Claiming a list of slots one after the other: the answers. */
  function Granted(gaps: seq<Range>, qs: seq<nat>): seq<bool>
    decreases |qs|
  {
    if qs == [] then [] else [Take(gaps, qs[0]).Some?] + Granted(Left(gaps, qs[0]), qs[1..])
  }

  lemma {:induction false} GrantedExact(gaps: seq<Range>, qs: seq<nat>, i: nat)
    requires OrderedFrom(0, gaps) && OpenEnded(gaps) && i < |qs| && forall q :: q in qs ==> q <= MAX_SLOT
    ensures |Granted(gaps, qs)| == |qs|
    ensures Granted(gaps, qs)[i] <==> Covers(gaps, qs[i]) && qs[i] !in qs[..i]
    decreases |qs|
  {
    assert qs[0] in qs && qs[i] in qs;
    TakeNext(gaps, qs[0], qs[i]);
    if |qs| > 1 {
      assert forall q :: q in qs[1..] ==> q in qs;
      GrantedExact(Left(gaps, qs[0]), qs[1..], if i > 0 then i - 1 else 0);
    }
    EarlierThan(qs, i);
  }

  /** The gaps that are left after a claim, granted or not. */
  function Left(gaps: seq<Range>, q: nat): seq<Range> {
    if Take(gaps, q).Some? then Take(gaps, q).value else gaps
  }

  lemma TakeNext(gaps: seq<Range>, q: nat, x: nat)
    requires OrderedFrom(0, gaps) && OpenEnded(gaps) && q <= MAX_SLOT
    ensures OrderedFrom(0, Left(gaps, q)) && OpenEnded(Left(gaps, q))
    ensures Take(gaps, q).Some? <==> Covers(gaps, q)
    ensures Covers(Left(gaps, q), x) <==> Covers(gaps, x) && x != q
  {
    TakeExact(0, gaps, q, x);
    if Take(gaps, q).Some? {
      TakeOrdered(0, gaps, q);
    }
  }

  lemma EarlierThan(qs: seq<nat>, i: nat)
    requires i < |qs|
    ensures i > 0 ==> qs[1..][i - 1] == qs[i] && (qs[i] in qs[..i] <==> qs[i] == qs[0] || qs[i] in qs[1..][..i - 1])
  {
    if i > 0 {
      assert qs[..i] == [qs[0]] + qs[1..][..i - 1];
    }
  }

  /** In every run each slot is granted exactly once: to the first request for it. */
  lemma GrantedOnce(qs: seq<nat>, i: nat)
    requires i < |qs| && forall q :: q in qs ==> q <= MAX_SLOT
    ensures |Granted([Range(0, UINT64_MAX)], qs)| == |qs|
    ensures Granted([Range(0, UINT64_MAX)], qs)[i] <==> qs[i] !in qs[..i]
  {
    var gaps := [Range(0, UINT64_MAX)];
    GrantedExact(gaps, qs, i);
    assert qs[i] in qs;
    assert gaps[0].Contains(qs[i]);
  }

  // ---------- empty gaps ----------

  lemma PiecesEmpty(g: Range, q: nat, p: nat)
    requires g.Contains(q)
    ensures Range(p, p) in Pieces(g, q) <==> p == q + 1 == g.end && g.begin < q
  {
  }

  /** A claim leaves an empty gap behind it exactly when the slot before is free and the one after is
      used, and it never removes one. */
  lemma {:induction false} TakeEmpties(lo: nat, gaps: seq<Range>, q: nat, p: nat)
    requires OrderedFrom(lo, gaps) && Take(gaps, q).Some?
    ensures Range(p, p) in Take(gaps, q).value <==>
            Range(p, p) in gaps || (p == q + 1 && Covers(gaps, q - 1) && !Covers(gaps, q + 1))
    decreases |gaps|
  {
    var g, tail := gaps[0], gaps[1..];
    assert gaps == [g] + tail;
    HeadCovers(gaps, q - 1);
    HeadCovers(gaps, q + 1);
    if g.end <= q {
      TakeExact(g.end + 1, tail, q, q);
      OrderedCovers(g.end + 1, tail, q);
      TakeEmpties(g.end + 1, tail, q, p);
    } else {
      PiecesEmpty(g, q, p);
      NotInTail(g, tail, q - 1);
      NotInTail(g, tail, q + 1);
    }
  }

  /** Nothing up to the end of the first gap is in a later one. */
  lemma NotInTail(g: Range, tail: seq<Range>, x: int)
    requires OrderedFrom(g.end + 1, tail)
    ensures x <= g.end ==> !Covers(tail, x)
  {
    if Covers(tail, x) {
      OrderedCovers(g.end + 1, tail, x);
    }
  }

  /** The gaps after a run of claims on a new tracker. */
  function After(qs: seq<nat>): seq<Range>
  {
    if qs == [] then [Range(0, UINT64_MAX)] else Left(After(qs[..|qs| - 1]), qs[|qs| - 1])
  }

  predicate Slots(qs: seq<nat>) {
    forall i :: 0 <= i < |qs| ==> qs[i] <= MAX_SLOT
  }

  /** After a run exactly the slots that were not claimed are free. */
  lemma {:induction false} AfterCovers(qs: seq<nat>, x: int)
    requires Slots(qs)
    ensures OrderedFrom(0, After(qs)) && OpenEnded(After(qs))
    ensures Covers(After(qs), x) <==> 0 <= x < UINT64_MAX && x !in qs
  {
    if qs == [] {
      HeadCovers(After(qs), x);
    } else {
      var before, q := qs[..|qs| - 1], qs[|qs| - 1];
      AfterCovers(before, x);
      assert qs == before + [q];
      if x >= 0 {
        TakeNext(After(before), q, x);
      } else {
        TakeNext(After(before), q, 0);
        NegativeFree(After(qs), x);
      }
    }
  }

  lemma NegativeFree(gaps: seq<Range>, x: int)
    requires OrderedFrom(0, gaps) && x < 0
    ensures !Covers(gaps, x)
  {
    if Covers(gaps, x) {
      OrderedCovers(0, gaps, x);
    }
  }

  /** Claim `i` found the slot before it free and the slot after it used. */
  predicate LeavesEmpty(qs: seq<nat>, i: nat)
    requires i < |qs|
  {
    qs[i] !in qs[..i] && qs[i] + 1 in qs[..i] && qs[i] > 0 && qs[i] - 1 !in qs[..i]
  }

  /** Some claim left an empty gap at slot `p`. */
  ghost predicate Stale(qs: seq<nat>, p: nat) {
    exists i: nat :: i < |qs| && qs[i] + 1 == p && LeavesEmpty(qs, i)
  }

  lemma StaleLast(before: seq<nat>, q: nat, p: nat)
    ensures Stale(before + [q], p) <==>
            Stale(before, p) ||
            (p == q + 1 && q !in before && q + 1 in before && q > 0 && q - 1 !in before)
  {
    var qs := before + [q];
    LeavesEmptyPrefix(before, q, |before|);
    if Stale(qs, p) {
      var i: nat :| i < |qs| && qs[i] + 1 == p && LeavesEmpty(qs, i);
      LeavesEmptyPrefix(before, q, i);
    }
    if Stale(before, p) {
      var i: nat :| i < |before| && before[i] + 1 == p && LeavesEmpty(before, i);
      LeavesEmptyPrefix(before, q, i);
      assert qs[i] + 1 == p && LeavesEmpty(qs, i);
    }
    if p == q + 1 && LeavesEmpty(qs, |before|) {
      assert qs[|before|] + 1 == p;
    }
  }

  /** Whether a claim leaves an empty gap depends on the claims before it only. */
  lemma LeavesEmptyPrefix(before: seq<nat>, q: nat, i: nat)
    requires i <= |before|
    ensures var qs := before + [q];
            && (i < |before| ==> qs[i] == before[i] && (LeavesEmpty(qs, i) <==> LeavesEmpty(before, i)))
            && (i == |before| ==>
                  (LeavesEmpty(qs, i) <==> q !in before && q + 1 in before && q > 0 && q - 1 !in before))
  {
    assert (before + [q])[..i] == before[..i] && before[..|before|] == before;
  }

  /** The list holds an empty gap at a slot exactly when some claim left one there. */
  lemma {:induction false} EmptyGaps(qs: seq<nat>, p: nat)
    requires Slots(qs)
    ensures Range(p, p) in After(qs) <==> Stale(qs, p)
  {
    if qs != [] {
      var before, q := qs[..|qs| - 1], qs[|qs| - 1];
      assert qs == before + [q];
      EmptyGaps(before, p);
      StaleLast(before, q, p);
      AfterCovers(before, q);
      var prev: int := q;
      AfterCovers(before, prev - 1);
      AfterCovers(before, q + 1);
      TakeExact(0, After(before), q, q);
      if Take(After(before), q).Some? {
        TakeEmpties(0, After(before), q, p);
      }
    }
  }

  /** The first gap is the least unused slot after a run exactly when no claim left an empty gap in
      front of it: one at a slot below which everything is used. */
  lemma FirstGapExact(qs: seq<nat>)
    requires Slots(qs)
    ensures After(qs) != []
    ensures var r := After(qs)[0].begin;
            && (forall x: nat :: x < r ==> x in qs)
            && (r !in qs <==> !exists p: nat :: Stale(qs, p) && forall x: nat :: x < p ==> x in qs)
  {
    var gaps := After(qs);
    AfterCovers(qs, 0);
    var r := gaps[0].begin;
    FirstCovered(gaps);
    AfterCovers(qs, r);
    OpenBegin(0, gaps);
    FirstBelow(qs, r);
    if r in qs {
      assert gaps[0] == Range(r, r);
      EmptyGaps(qs, r);
      assert Stale(qs, r);
    }
    forall p: nat | Stale(qs, p) && forall x: nat :: x < p ==> x in qs
      ensures r in qs
    {
      EmptyGaps(qs, p);
      StaleUsed(qs, p);
      EmptyBehind(gaps, p);
    }
  }

  lemma FirstBelow(qs: seq<nat>, r: nat)
    requires Slots(qs) && After(qs) != [] && r == After(qs)[0].begin
    ensures forall x: nat :: x < r ==> x in qs
  {
    forall x: nat | x < r ensures x in qs {
      AfterCovers(qs, x);
      OpenBegin(0, After(qs));
      if Covers(After(qs), x) {
        OrderedCovers(r, After(qs), x);
      }
    }
  }

  lemma {:induction false} OpenBegin(lo: nat, gaps: seq<Range>)
    requires OrderedFrom(lo, gaps) && OpenEnded(gaps)
    ensures gaps[0].begin <= MAX_SLOT + 1
    decreases |gaps|
  {
    if |gaps| > 1 {
      OpenBegin(gaps[0].end + 1, gaps[1..]);
    }
  }

  lemma StaleUsed(qs: seq<nat>, p: nat)
    requires Stale(qs, p)
    ensures p in qs
  {
    var i: nat :| i < |qs| && qs[i] + 1 == p && LeavesEmpty(qs, i);
    assert p in qs[..i];
  }

  /** The first gap does not begin behind any gap of the list. */
  lemma EmptyBehind(gaps: seq<Range>, p: nat)
    requires OrderedFrom(0, gaps) && Range(p, p) in gaps
    ensures gaps[0].begin <= p
  {
    OrderedBegin(0, gaps, Range(p, p));
    OrderedBegin(gaps[0].begin, gaps, Range(p, p));
  }

  lemma {:induction false} OrderedBegin(lo: nat, gaps: seq<Range>, g: Range)
    requires OrderedFrom(lo, gaps) && g in gaps
    ensures lo <= g.begin
    decreases |gaps|
  {
    if gaps[0] != g {
      assert gaps == [gaps[0]] + gaps[1..];
      OrderedBegin(gaps[0].end + 1, gaps[1..], g);
    }
  }

  /** Such a run: after slots 3, 2, 0 and 1 have been claimed, the first gap still begins at 3. */
  lemma FirstGapIsStale()
    ensures var left := After([3, 2, 0, 1]);
            left != [] && left[0] == Range(3, 3) && !Covers(left, 3)
  {
    var g0 := [Range(0, UINT64_MAX)];
    var g1 := [Range(0, 3), Range(4, UINT64_MAX)];
    var g2 := [Range(0, 2), Range(3, 3), Range(4, UINT64_MAX)];
    var g3 := [Range(1, 2), Range(3, 3), Range(4, UINT64_MAX)];
    var g4 := [Range(3, 3), Range(4, UINT64_MAX)];
    assert Left(g0, 3) == g1 by { assert Pieces(g0[0], 3) + g0[1..] == g1; }
    assert Left(g1, 2) == g2 by { assert Pieces(g1[0], 2) + g1[1..] == g2; }
    assert Left(g2, 0) == g3 by { assert Pieces(g2[0], 0) + g2[1..] == g3; }
    assert Left(g3, 1) == g4 by { assert Pieces(g3[0], 1) + g3[1..] == g4; }
    assert [3, 2, 0, 1][..3] == [3, 2, 0] && [3, 2, 0][..2] == [3, 2] && [3, 2][..1] == [3] && [3][..0] == [];
    assert After([3]) == g1;
    assert After([3, 2]) == g2;
    assert After([3, 2, 0]) == g3;
    assert After([3, 2, 0, 1]) == g4;
  }
}
