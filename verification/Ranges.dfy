/** Half-open ranges of stream offsets, and ordered lists of them.
    The gap tracker, the reorder buffer and the stream-id tracker all keep what they
    have not seen yet as such a list. */
module Ranges {
  import opened Basics

  const UINT64_MAX: nat := 0xFFFF_FFFF_FFFF_FFFF
  const MAX_VARINT: nat := 0x3FFF_FFFF_FFFF_FFFF

  datatype Range = Range(begin: nat, end: nat) {
    predicate Contains(x: int) {
      begin <= x < end
    }
  }

  /** The common part of two ranges; the range [0,0) stands for "nothing in common". */
  function Intersect(a: Range, b: Range): (r: Range)
    ensures r.begin <= r.end
  {
    var begin := if a.begin < b.begin then b.begin else a.begin;
    var end := if a.end < b.end then a.end else b.end;
    if begin < end then Range(begin, end) else Range(0, 0)
  }

  predicate NotAfter(a: Range, b: Range) {
    a.end <= b.end
  }

  predicate Covers(gaps: seq<Range>, x: int) {
    exists i :: 0 <= i < |gaps| && gaps[i].Contains(x)
  }

  ghost predicate SameCover(a: seq<Range>, b: seq<Range>) {
    forall x: int :: Covers(a, x) <==> Covers(b, x)
  }

  /** Sorted, every range nonempty, and consecutive ranges neither overlap nor touch. */
  predicate Canonical(gaps: seq<Range>) {
    && (forall i :: 0 <= i < |gaps| ==> gaps[i].begin < gaps[i].end)
    && (forall i, j :: 0 <= i < j < |gaps| ==> gaps[i].end < gaps[j].begin)
  }

  /** The pieces of `g` that lie outside `q`, left to right. */
  function Cut(g: Range, q: Range): seq<Range>
  {
    var m := Intersect(q, g);
    var l, r := Range(g.begin, m.begin), Range(m.end, g.end);
    if m.begin == m.end then [g]
    else if l.begin < l.end then (if r.begin < r.end then [l, r] else [l])
    else if r.begin < r.end then [r]
    else []
  }

  /** Removing `q` from a list of ranges, one range at a time. */
  function Subtract(gaps: seq<Range>, q: Range): seq<Range> {
    if gaps == [] then [] else Cut(gaps[0], q) + Subtract(gaps[1..], q)
  }

  lemma CoversSplit(a: seq<Range>, b: seq<Range>, x: int)
    ensures Covers(a + b, x) <==> Covers(a, x) || Covers(b, x)
  {
    if Covers(a, x) {
      var i :| 0 <= i < |a| && a[i].Contains(x);
      assert (a + b)[i].Contains(x);
    }
    if Covers(b, x) {
      var i :| 0 <= i < |b| && b[i].Contains(x);
      assert (a + b)[|a| + i].Contains(x);
    }
  }

  lemma CoversCut(g: Range, q: Range, x: int)
    requires g.begin < g.end
    ensures Covers(Cut(g, q), x) <==> g.Contains(x) && !q.Contains(x)
  {
    var m := Intersect(q, g);
    var c := Cut(g, q);
    assert m.Contains(x) <==> q.Contains(x) && g.Contains(x);
    if m.begin == m.end {
      assert c[0] == g;
    } else if g.Contains(x) && !q.Contains(x) {
      assert x < m.begin || m.end <= x;
      if x < m.begin {
        assert c[0].Contains(x);
      } else {
        assert c[|c| - 1].Contains(x);
      }
    }
  }

  lemma {:induction false} SubtractCovers(gaps: seq<Range>, q: Range, x: int)
    requires forall i :: 0 <= i < |gaps| ==> gaps[i].begin < gaps[i].end
    ensures Covers(Subtract(gaps, q), x) <==> Covers(gaps, x) && !q.Contains(x)
  {
    if gaps == [] {
    } else {
      SubtractCovers(gaps[1..], q, x);
      CoversCut(gaps[0], q, x);
      CoversSplit(Cut(gaps[0], q), Subtract(gaps[1..], q), x);
      CoversSplit([gaps[0]], gaps[1..], x);
      assert gaps == [gaps[0]] + gaps[1..];
      assert Covers([gaps[0]], x) <==> gaps[0].Contains(x) by {
        if gaps[0].Contains(x) { assert [gaps[0]][0].Contains(x); }
      }
    }
  }

  /** Every piece left by Subtract lies inside one of the original ranges. */
  lemma {:induction false} SubtractWithin(gaps: seq<Range>, q: Range, lo: int, hi: int)
    requires forall i :: 0 <= i < |gaps| ==> lo <= gaps[i].begin && gaps[i].end <= hi
    ensures forall i :: 0 <= i < |Subtract(gaps, q)| ==>
              lo <= Subtract(gaps, q)[i].begin && Subtract(gaps, q)[i].end <= hi
  {
    if gaps != [] {
      SubtractWithin(gaps[1..], q, lo, hi);
    }
  }

  lemma CutCanonical(g: Range, q: Range)
    requires g.begin < g.end
    ensures Canonical(Cut(g, q))
    ensures forall i :: 0 <= i < |Cut(g, q)| ==> Cut(g, q)[i].end <= g.end
  {
  }

  lemma {:induction false} SubtractCanonical(gaps: seq<Range>, q: Range)
    requires Canonical(gaps)
    ensures Canonical(Subtract(gaps, q))
  {
    if gaps == [] {
    } else {
      SubtractCanonical(gaps[1..], q);
      SubtractWithin(gaps[1..], q, gaps[0].end + 1, gaps[|gaps| - 1].end);
      CutCanonical(gaps[0], q);
      CanonicalAppend(Cut(gaps[0], q), Subtract(gaps[1..], q), gaps[0].end);
    }
  }

  lemma CanonicalAppend(a: seq<Range>, b: seq<Range>, mid: int)
    requires Canonical(a) && Canonical(b)
    requires forall i :: 0 <= i < |a| ==> a[i].end <= mid
    requires forall i :: 0 <= i < |b| ==> mid < b[i].begin
    ensures Canonical(a + b)
  {
  }

  lemma CutBefore(g: Range, q: Range)
    requires q.end <= g.begin
    ensures Cut(g, q) == [g]
  {
  }

  /** A range that ends before every remaining gap removes nothing from them. */
  lemma {:induction false} SubtractBefore(gaps: seq<Range>, q: Range)
    requires forall i :: 0 <= i < |gaps| ==> q.end <= gaps[i].begin
    ensures Subtract(gaps, q) == gaps
  {
    if gaps == [] {
    } else {
      CutBefore(gaps[0], q);
      SubtractBefore(gaps[1..], q);
    }
  }

  /** One step of the walk over a gap list: the first gap gives way to its pieces, and when
      `q` ends inside it the walk may stop. */
  lemma SubtractStep(done: seq<Range>, todo: seq<Range>, q: Range)
    requires Canonical(todo) && todo != []
    ensures Canonical(todo[1..])
    ensures done + Subtract(todo, q) == (done + Cut(todo[0], q)) + Subtract(todo[1..], q)
    ensures q.end <= todo[0].end ==> Subtract(todo[1..], q) == todo[1..]
    ensures forall i :: 0 <= i < |Cut(todo[0], q)| ==> Cut(todo[0], q)[i].end <= todo[0].end
  {
    TailCanonical(todo, q);
    if q.end <= todo[0].end {
      SubtractBefore(todo[1..], q);
    }
    Assoc(done, Cut(todo[0], q), Subtract(todo[1..], q));
  }

  lemma TailCanonical(gaps: seq<Range>, q: Range)
    requires Canonical(gaps) && gaps != []
    ensures Canonical(gaps[1..])
    ensures forall i :: 0 <= i < |gaps[1..]| ==> gaps[0].end <= gaps[1..][i].begin
    ensures forall i :: 0 <= i < |Cut(gaps[0], q)| ==> Cut(gaps[0], q)[i].end <= gaps[0].end
  {
  }

  /** A canonical list is determined by the points it covers. */
  lemma {:induction false} CanonicalUnique(a: seq<Range>, b: seq<Range>)
    requires Canonical(a) && Canonical(b)
    requires SameCover(a, b)
    ensures a == b
  {
    SameEmptiness(a, b);
    SameEmptiness(b, a);
    if a != [] {
      FirstNotAfter(a, b);
      FirstNotAfter(b, a);
      EndNotAfter(a, b);
      EndNotAfter(b, a);
      TailSame(a, b);
      CanonicalUnique(a[1..], b[1..]);
      assert a == [a[0]] + a[1..];
      assert b == [b[0]] + b[1..];
    }
  }

  lemma SameEmptiness(a: seq<Range>, b: seq<Range>)
    requires Canonical(b)
    requires SameCover(a, b)
    ensures b != [] ==> a != []
  {
    if b != [] {
      assert b[0].Contains(b[0].begin);
      assert Covers(a, b[0].begin);
    }
  }

  lemma FirstNotAfter(a: seq<Range>, b: seq<Range>)
    requires Canonical(a) && Canonical(b) && a != [] && b != []
    requires SameCover(a, b)
    ensures a[0].begin <= b[0].begin
  {
    assert b[0].Contains(b[0].begin);
    assert Covers(a, b[0].begin);
    var i :| 0 <= i < |a| && a[i].Contains(b[0].begin);
    assert a[0].begin <= a[i].begin;
  }

  lemma EndNotAfter(a: seq<Range>, b: seq<Range>)
    requires Canonical(a) && Canonical(b) && a != [] && b != []
    requires a[0].begin == b[0].begin
    requires SameCover(a, b)
    ensures a[0].end <= b[0].end
  {
    assert !Covers(b, b[0].end);
    assert !Covers(a, b[0].end);
    assert !a[0].Contains(b[0].end);
  }

  lemma TailSame(a: seq<Range>, b: seq<Range>)
    requires Canonical(a) && Canonical(b) && a != [] && b != [] && a[0] == b[0]
    requires SameCover(a, b)
    ensures SameCover(a[1..], b[1..])
  {
    forall x: int
      ensures Covers(a[1..], x) <==> Covers(b[1..], x)
    {
      TailCovers(a, x);
      TailCovers(b, x);
    }
  }

  lemma TailCovers(a: seq<Range>, x: int)
    requires Canonical(a) && a != []
    ensures Covers(a[1..], x) <==> Covers(a, x) && a[0].end <= x
  {
    if Covers(a[1..], x) {
      var i :| 0 <= i < |a[1..]| && a[1..][i].Contains(x);
      assert a[i + 1].Contains(x);
      assert a[0].end < a[i + 1].begin;
    }
    if Covers(a, x) && a[0].end <= x {
      var i :| 0 <= i < |a| && a[i].Contains(x);
      assert a[1..][i - 1].Contains(x);
    }
  }
}
