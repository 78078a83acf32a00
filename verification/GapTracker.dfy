/** The gap tracker (Polygon/lib/ngtcp2_gaptr.c): which offsets have not been seen yet. */
module GapTracker {
  import opened Ranges

  class Gaps {
    var gaps: seq<Range>

    ghost predicate Valid()
      reads this
    {
      Canonical(gaps)
    }

    constructor ()
      ensures Valid()
      ensures gaps == [Range(0, UINT64_MAX)]
    {
      gaps := [Range(0, UINT64_MAX)];
    }

    /** Puts `pieces` where gap `i` was: trimming, splitting or unlinking it. */
    method Relink(i: nat, pieces: seq<Range>)
      requires i < |gaps|
      modifies this
      ensures gaps == old(gaps[..i]) + pieces + old(gaps[i + 1..])
    {
      gaps := gaps[..i] + pieces + gaps[i + 1..];
    }

    /** Takes `q` out of gap `i` and says how many pieces of it remain. */
    method TrimGap(i: nat, q: Range) returns (n: nat)
      requires i < |gaps|
      modifies this
      ensures n == |Cut(old(gaps[i]), q)|
      ensures gaps == old(gaps[..i]) + Cut(old(gaps[i]), q) + old(gaps[i + 1..])
    {
      var g := gaps[i];
      var m := Intersect(q, g);
      if m.begin == m.end {
        Relink(i, [g]);
        return 1;
      }
      if g == m {
        Relink(i, []);
        return 0;
      }
      var l, r := Range(g.begin, m.begin), Range(m.end, g.end);
      if l.begin != l.end {
        if r.begin != r.end {
          Relink(i, [l, r]);
          return 2;
        }
        Relink(i, [l]);
      } else if r.begin != r.end {
        Relink(i, [r]);
      }
      return 1;
    }

    /** Marks [offset, offset + datalen) as seen. */
    method Push(offset: nat, datalen: nat)
      requires Valid()
      requires offset + datalen <= UINT64_MAX
      modifies this
      ensures Valid()
      ensures gaps == Subtract(old(gaps), Range(offset, offset + datalen))
    {
      var q := Range(offset, offset + datalen);
      SubtractCanonical(gaps, q);
      var i := 0;
      ghost var done, todo := [], gaps;
      while i < |gaps|
        invariant i == |done| && gaps == done + todo
        invariant Canonical(todo)
        invariant done + Subtract(todo, q) == Subtract(old(gaps), q)
        decreases |todo|
      {
        SubtractStep(done, todo, q);
        done, todo := done + Cut(todo[0], q), todo[1..];
        var n := TrimGap(i, q);
        if n == 0 {
          continue;
        }
        i := i + n;
        if NotAfter(q, gaps[i - 1]) {
          return;
        }
      }
      assert todo == [] && gaps == done + [];
    }

    /** Drops the gaps below `offset` and cuts the one that contains it. */
    method RemovePrefix(offset: nat)
      requires Valid()
      modifies this
      ensures Valid()
      ensures gaps == Subtract(old(gaps), Range(0, offset))
    {
      var q := Range(0, offset);
      SubtractCanonical(gaps, q);
      while |gaps| > 0 && gaps[0].begin < offset
        invariant Canonical(gaps)
        invariant Subtract(gaps, q) == Subtract(old(gaps), q)
        decreases |gaps|
      {
        SubtractStep([], gaps, q);
        if offset < gaps[0].end {
          gaps := [Range(offset, gaps[0].end)] + gaps[1..];
          assert gaps == [] + gaps;
          return;
        }
        assert Cut(gaps[0], q) == [];
        gaps := gaps[1..];
      }
      SubtractBefore(gaps, q);
    }

    method FirstGapOffset() returns (r: nat)
      requires Valid()
      ensures gaps != [] ==> Covers(gaps, r) && forall x: int :: Covers(gaps, x) ==> r <= x
      ensures gaps == [] ==> r == UINT64_MAX
    {
      if |gaps| > 0 {
        r := gaps[0].begin;
        assert gaps[0].Contains(r);
      } else {
        r := UINT64_MAX;
      }
    }
  }

  /** What a sequence of pushes leaves of a gap list. */
  ghost function PushAll(gaps: seq<Range>, qs: seq<Range>): seq<Range>
    decreases |qs|
  {
    if qs == [] then gaps else PushAll(Subtract(gaps, qs[0]), qs[1..])
  }

  lemma {:induction false} PushAllCovers(gaps: seq<Range>, qs: seq<Range>, x: int)
    requires Canonical(gaps)
    ensures Canonical(PushAll(gaps, qs))
    ensures Covers(PushAll(gaps, qs), x) <==> Covers(gaps, x) && !Covers(qs, x)
    decreases |qs|
  {
    if qs == [] {
    } else {
      SubtractCanonical(gaps, qs[0]);
      SubtractCovers(gaps, qs[0], x);
      PushAllCovers(Subtract(gaps, qs[0]), qs[1..], x);
      CoversSplit([qs[0]], qs[1..], x);
      assert qs == [qs[0]] + qs[1..];
      assert [qs[0]][0].Contains(x) <==> Covers([qs[0]], x);
    }
  }

  /** Order, overlap and repetition of pushes never matter: two runs that saw the same
      offsets hold the very same list. */
  lemma PushOrderIrrelevant(gaps: seq<Range>, qs: seq<Range>, qs': seq<Range>)
    requires Canonical(gaps)
    requires SameCover(qs, qs')
    ensures PushAll(gaps, qs) == PushAll(gaps, qs')
  {
    forall x: int
      ensures Covers(PushAll(gaps, qs), x) <==> Covers(PushAll(gaps, qs'), x)
    {
      PushAllCovers(gaps, qs, x);
      PushAllCovers(gaps, qs', x);
    }
    PushAllCovers(gaps, qs, 0);
    PushAllCovers(gaps, qs', 0);
    CanonicalUnique(PushAll(gaps, qs), PushAll(gaps, qs'));
  }
}
