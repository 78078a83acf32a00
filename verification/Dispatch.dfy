/** Which data centers a request is forwarded to (Polygon/examples/balancer.cc): the best one that is
    deployed, and further ones that are nearly as good, up to the configured redundancy. Measurements
    are real numbers. */
module Dispatch {

  datatype Sample = Sample(dc: string, value: real)

  /** The three metrics: latency is best when small, idle processor share and throughput when large. */
  datatype Metric = Latency | Cpu | Throughput

  function Abs(x: real): real {
    if x < 0.0 then -x else x
  }

  predicate Better(metric: Metric, a: real, b: real) {
    if metric.Latency? then a <= b else a >= b
  }

  /** A measurement that counts: latencies must be positive, the others not negative. */
  predicate Measured(metric: Metric, x: real) {
    if metric.Latency? then x > 0.0 else x >= 0.0
  }

  predicate Eligible(metric: Metric, dcs: set<string>, s: Sample) {
    Measured(metric, s.value) && s.dc in dcs
  }

  /** What is measured and deployed may be chosen: a positive latency, and any share or throughput from 0
      on. */
  lemma EligibleExact(metric: Metric, dcs: set<string>, s: Sample)
    ensures Eligible(metric, dcs, s) <==>
      s.dc in dcs && (s.value > 0.0 || (s.value == 0.0 && (metric == Cpu || metric == Throughput)))
  {
  }

  // What the latency list says about a data center.

  /** The first latency of the list that is not 0. */
  function Base(latencies: seq<Sample>): real {
    if latencies == [] then 0.0
    else if latencies[0].value != 0.0 then latencies[0].value
    else Base(latencies[1..])
  }

  predicate FirstAt(latencies: seq<Sample>, dc: string, i: nat) {
    i < |latencies| && latencies[i].dc == dc && forall j :: 0 <= j < i ==> latencies[j].dc != dc
  }

  /** The first entry of the data center is within 30 of the base latency up to that entry. */
  ghost predicate Near(latencies: seq<Sample>, dc: string) {
    exists i: nat :: FirstAt(latencies, dc, i) && Abs(Base(latencies[..i + 1]) - latencies[i].value) <= 30.0
  }

  /** Good enough to be used besides the best one. */
  ghost predicate Suitable(dc: string, best: real, now: real, latencies: seq<Sample>) {
    Abs(best) >= 0.0000001 && Abs(best - now) / best <= 0.1 && Near(latencies, dc)
  }

  /** Suitable without division: within a tenth of the best one, which must not be next to 0. */
  lemma SuitableExact(dc: string, best: real, now: real, latencies: seq<Sample>)
    ensures Suitable(dc, best, now, latencies) <==>
      && (best >= 0.0000001 || best <= -0.0000001)
      && (best > 0.0 ==> 9.0 * best <= 10.0 * now <= 11.0 * best)
      && Near(latencies, dc)
  {
    if best > 0.0 {
      Share(best, Abs(best - now));
    } else if best < 0.0 {
      Negative(best, Abs(best - now));
    }
  }

  lemma Share(best: real, gap: real)
    requires best > 0.0
    ensures gap / best <= 0.1 <==> 10.0 * gap <= best
  {
    var q := gap / best;
    assert gap == q * best;
    if q <= 0.1 {
      assert q * best <= 0.1 * best;
    } else {
      assert q * best > 0.1 * best;
    }
  }

  lemma Negative(best: real, gap: real)
    requires best < 0.0 && gap >= 0.0
    ensures gap / best <= 0.1
  {
    assert gap == gap / best * best;
  }

  lemma {:induction false} BaseLast(a: seq<Sample>, x: Sample)
    ensures Base(a + [x]) == if Base(a) != 0.0 then Base(a) else x.value
  {
    if a == [] {
      assert a + [x] == [x];
    } else {
      assert (a + [x])[1..] == a[1..] + [x];
      BaseLast(a[1..], x);
    }
  }

  predicate Sorted(metric: Metric, samples: seq<Sample>) {
    forall i, j :: 0 <= i < j < |samples| ==> Better(metric, samples[i].value, samples[j].value)
  }

  /** The least latency that counts as measured. */
  ghost predicate Least(latencies: seq<Sample>, x: real) {
    && (exists i :: 0 <= i < |latencies| && latencies[i].value == x && x > 0.0)
    && (forall i :: 0 <= i < |latencies| && latencies[i].value > 0.0 ==> x <= latencies[i].value)
  }

  /** In the order in which the list is kept, the base is the least latency that counts unless a
      negative one stands before it. */
  lemma {:induction false} BaseSorted(latencies: seq<Sample>, i: nat, least: real)
    requires Sorted(Latency, latencies) && i < |latencies| && (latencies[i].value > 0.0 ==> Least(latencies, least))
    ensures Base(latencies[..i + 1]) ==
      if latencies[0].value < 0.0 || latencies[i].value <= 0.0 then latencies[0].value else least
  {
    assert latencies[..i + 1][0] == latencies[0];
    if latencies[0].value == 0.0 && i > 0 {
      assert latencies[..i + 1][1..] == latencies[1..][..i];
      if latencies[i].value > 0.0 {
        LeastTail(latencies, least);
      }
      BaseSorted(latencies[1..], i - 1, least);
    }
  }

  lemma LeastTail(latencies: seq<Sample>, least: real)
    requires Least(latencies, least) && latencies != [] && latencies[0].value <= 0.0
    ensures Least(latencies[1..], least)
  {
    var i :| 0 <= i < |latencies| && latencies[i].value == least && least > 0.0;
    assert latencies[1..][i - 1].value == least;
  }

  /** A measured data center counts as near if and only if it is within 30 of the least measured
      latency, except where the list begins with a negative value and it is more than 30 above that. */
  lemma NearExact(latencies: seq<Sample>, dc: string, i: nat, least: real)
    requires Sorted(Latency, latencies) && FirstAt(latencies, dc, i) && Least(latencies, least)
    requires Measured(Latency, latencies[i].value)
    ensures (Near(latencies, dc) <==> Abs(least - latencies[i].value) <= 30.0) <==>
      !(latencies[0].value < 0.0 && latencies[0].value + 30.0 < latencies[i].value <= least + 30.0)
  {
    BaseSorted(latencies, i, least);
    NearAt(latencies, dc, i);
  }

  /** One that is not measured is compared with the front of the list, so a latency of 0 is near
      unless a value below -30 comes first. */
  lemma NearUnmeasured(latencies: seq<Sample>, dc: string, i: nat)
    requires Sorted(Latency, latencies) && FirstAt(latencies, dc, i)
    requires !Measured(Latency, latencies[i].value)
    ensures Near(latencies, dc) <==> latencies[i].value <= latencies[0].value + 30.0
  {
    BaseSorted(latencies, i, 0.0);
    NearAt(latencies, dc, i);
  }

  lemma NearAt(latencies: seq<Sample>, dc: string, i: nat)
    requires FirstAt(latencies, dc, i)
    ensures Near(latencies, dc) <==> Abs(Base(latencies[..i + 1]) - latencies[i].value) <= 30.0
  {
    if Near(latencies, dc) {
      var j: nat :| FirstAt(latencies, dc, j) && Abs(Base(latencies[..j + 1]) - latencies[j].value) <= 30.0;
      assert i == j;
    }
  }

  /** The exception exists: after -1, the center at 45 is refused, 25 from the least measured one. */
  lemma NegativeFront()
    ensures var latencies := [Sample("a", -1.0), Sample("b", 20.0), Sample("c", 45.0)];
            Sorted(Latency, latencies) && Least(latencies, 20.0) && !Near(latencies, "c")
  {
    var latencies := [Sample("a", -1.0), Sample("b", 20.0), Sample("c", 45.0)];
    assert latencies[1].value == 20.0;
    assert FirstAt(latencies, "c", 2);
    NearExact(latencies, "c", 2, 20.0);
  }

  method CheckRedundantSuitable(dc: string, best: real, now: real, latencies: seq<Sample>) returns (ok: bool)
    ensures ok <==> Suitable(dc, best, now, latencies)
  {
    if Abs(best) < 0.0000001 {
      return false;
    }
    if Abs(best - now) / best > 0.1 {
      return false;
    }
    var least, i: nat := 0.0, 0;
    while i < |latencies|
      invariant i <= |latencies| && least == Base(latencies[..i])
      invariant forall j :: 0 <= j < i ==> latencies[j].dc != dc
    {
      BaseLast(latencies[..i], latencies[i]);
      assert latencies[..i] + [latencies[i]] == latencies[..i + 1];
      if least == 0.0 {
        least := latencies[i].value;
      }
      if latencies[i].dc == dc {
        assert FirstAt(latencies, dc, i);
        return Abs(least - latencies[i].value) <= 30.0;
      }
      i := i + 1;
    }
    return false;
  }

  // What is chosen.

  function Candidates(metric: Metric, dcs: set<string>, samples: seq<Sample>): seq<Sample> {
    if samples == [] then []
    else
      var before, last := Candidates(metric, dcs, samples[..|samples| - 1]), samples[|samples| - 1];
      if Eligible(metric, dcs, last) then before + [last] else before
  }

  ghost function AlsoGood(best: real, candidates: seq<Sample>, latencies: seq<Sample>): seq<Sample> {
    if candidates == [] then []
    else
      var before, last := AlsoGood(best, candidates[..|candidates| - 1], latencies), candidates[|candidates| - 1];
      if Suitable(last.dc, best, last.value, latencies) then before + [last] else before
  }

  function Take(s: seq<Sample>, n: nat): (r: seq<Sample>)
    ensures |r| <= n
  {
    if |s| <= n then s else s[..n]
  }

  /** The first candidate, then the first suitable ones of the others, as many as allowed. */
  ghost function Choice(candidates: seq<Sample>, redundancy: nat, latencies: seq<Sample>): seq<Sample> {
    if candidates == [] then []
    else [candidates[0]] + Take(AlsoGood(candidates[0].value, candidates[1..], latencies), redundancy)
  }

  ghost function Chosen(metric: Metric, dcs: set<string>, samples: seq<Sample>, redundancy: nat,
                        latencies: seq<Sample>): seq<Sample> {
    Choice(Candidates(metric, dcs, samples), redundancy, latencies)
  }

  lemma CandidatesLast(metric: Metric, dcs: set<string>, a: seq<Sample>, x: Sample)
    ensures Candidates(metric, dcs, a + [x]) ==
      Candidates(metric, dcs, a) + if Eligible(metric, dcs, x) then [x] else []
  {
    assert (a + [x])[..|a|] == a;
  }

  /** One more candidate is added when it is the first, or when it is suitable and there is room. */
  lemma ChoiceLast(c: seq<Sample>, x: Sample, redundancy: nat, latencies: seq<Sample>)
    ensures Choice(c + [x], redundancy, latencies) == Choice(c, redundancy, latencies) +
      if c == [] || (|Choice(c, redundancy, latencies)| <= redundancy && Suitable(x.dc, c[0].value, x.value, latencies))
      then [x] else []
  {
    if c != [] {
      assert (c + [x])[1..] == c[1..] + [x] && (c[1..] + [x])[..|c| - 1] == c[1..];
      var good := AlsoGood(c[0].value, c[1..], latencies);
      assert Suitable(x.dc, c[0].value, x.value, latencies) ==>
          AlsoGood(c[0].value, c[1..] + [x], latencies) == good + [x];
    }
  }

  /** Once enough are chosen, the rest of the list does not matter. */
  lemma {:induction false} ChoiceFull(metric: Metric, dcs: set<string>, a: seq<Sample>, b: seq<Sample>,
                                      redundancy: nat, latencies: seq<Sample>)
    requires |Chosen(metric, dcs, a, redundancy, latencies)| > redundancy
    ensures Chosen(metric, dcs, a + b, redundancy, latencies) == Chosen(metric, dcs, a, redundancy, latencies)
    decreases |b|
  {
    if b == [] {
      assert a + b == a;
    } else {
      var b', x := b[..|b| - 1], b[|b| - 1];
      ChoiceFull(metric, dcs, a, b', redundancy, latencies);
      assert a + b == (a + b') + [x];
      CandidatesLast(metric, dcs, a + b', x);
      ChoiceLast(Candidates(metric, dcs, a + b'), x, redundancy, latencies);
    }
  }

  /** The selection loop. */
  method Select(metric: Metric, samples: seq<Sample>, dcs: set<string>, redundancy: nat, latencies: seq<Sample>)
    returns (targets: seq<Sample>)
    ensures targets == Chosen(metric, dcs, samples, redundancy, latencies)
  {
    targets := [];
    var best, count := 0.0, 0;
    ghost var seen: seq<Sample> := [];
    var i: nat := 0;
    while i < |samples| && count <= redundancy
      invariant i <= |samples| && seen == samples[..i] && count == |targets|
      invariant targets == Chosen(metric, dcs, seen, redundancy, latencies)
      invariant count > 0 ==> best == Candidates(metric, dcs, seen)[0].value
    {
      var s := samples[i];
      ghost var c := Candidates(metric, dcs, seen);
      CandidatesLast(metric, dcs, seen, s);
      ChoiceLast(c, s, redundancy, latencies);
      i := i + 1;
      seen := seen + [s];
      if Eligible(metric, dcs, s) {
        var ok := true;
        if count == 0 {
          best := s.value;
        } else {
          ok := CheckRedundantSuitable(s.dc, best, s.value, latencies);
        }
        if ok {
          targets := targets + [s];
          count := count + 1;
        }
      }
    }
    if i < |samples| {
      ChoiceFull(metric, dcs, seen, samples[i..], redundancy, latencies);
    }
    assert seen + samples[i..] == samples && samples[..|samples|] == samples;
  }

  // What the choice means.

  lemma {:induction false} CandidatesAre(metric: Metric, dcs: set<string>, samples: seq<Sample>, s: Sample)
    ensures s in Candidates(metric, dcs, samples) <==> s in samples && Eligible(metric, dcs, s)
  {
    if samples != [] {
      CandidatesAre(metric, dcs, samples[..|samples| - 1], s);
      assert samples == samples[..|samples| - 1] + [samples[|samples| - 1]];
    }
  }

  lemma {:induction false} FirstIsBest(metric: Metric, dcs: set<string>, samples: seq<Sample>, s: Sample)
    requires Sorted(metric, samples) && s in Candidates(metric, dcs, samples)
    ensures Better(metric, Candidates(metric, dcs, samples)[0].value, s.value)
  {
    var before, last := samples[..|samples| - 1], samples[|samples| - 1];
    var c := Candidates(metric, dcs, before);
    if s in c {
      FirstIsBest(metric, dcs, before, s);
    } else if c != [] {
      CandidatesAre(metric, dcs, before, c[0]);
      var i :| 0 <= i < |before| && before[i] == c[0];
      assert samples[i] == c[0] && s == last;
    }
  }

  lemma {:induction false} AlsoGoodAre(best: real, candidates: seq<Sample>, latencies: seq<Sample>, s: Sample)
    ensures s in AlsoGood(best, candidates, latencies) <==>
      s in candidates && Suitable(s.dc, best, s.value, latencies)
  {
    if candidates != [] {
      AlsoGoodAre(best, candidates[..|candidates| - 1], latencies, s);
      assert candidates == candidates[..|candidates| - 1] + [candidates[|candidates| - 1]];
    }
  }

  /** Something is chosen exactly when some deployed data center has a measurement, and never more than
      one plus the redundancy. */
  lemma ChosenCount(metric: Metric, dcs: set<string>, samples: seq<Sample>, redundancy: nat, latencies: seq<Sample>)
    ensures |Chosen(metric, dcs, samples, redundancy, latencies)| <= redundancy + 1
    ensures Chosen(metric, dcs, samples, redundancy, latencies) == [] <==>
      forall i :: 0 <= i < |samples| ==> !Eligible(metric, dcs, samples[i])
  {
    var c := Candidates(metric, dcs, samples);
    if c != [] {
      CandidatesAre(metric, dcs, samples, c[0]);
    }
    forall i | 0 <= i < |samples| ensures c == [] ==> !Eligible(metric, dcs, samples[i]) {
      CandidatesAre(metric, dcs, samples, samples[i]);
    }
  }

  /** Whatever order the measurements came in, once sorted the first target is a best one of all
      deployed data centers with a measurement. */
  lemma ChosenBest(metric: Metric, dcs: set<string>, raw: seq<Sample>, samples: seq<Sample>,
                   redundancy: nat, latencies: seq<Sample>, s: Sample)
    requires multiset(raw) == multiset(samples) && Sorted(metric, samples)
    requires s in raw && Eligible(metric, dcs, s)
    ensures var t := Chosen(metric, dcs, samples, redundancy, latencies);
      && t != [] && t[0] in raw && Eligible(metric, dcs, t[0]) && Better(metric, t[0].value, s.value)
      && t[0].dc in dcs && (if metric.Latency? then 0.0 < t[0].value <= s.value else t[0].value >= s.value >= 0.0)
  {
    assert s in multiset(samples);
    CandidatesAre(metric, dcs, samples, s);
    FirstIsBest(metric, dcs, samples, s);
    var c := Candidates(metric, dcs, samples);
    CandidatesAre(metric, dcs, samples, c[0]);
    assert c[0] in multiset(raw);
  }

  /** Every further target is deployed, measured within a tenth of the first one and near enough. */
  lemma ChosenExtras(metric: Metric, dcs: set<string>, samples: seq<Sample>, redundancy: nat,
                     latencies: seq<Sample>, i: nat)
    requires 0 < i < |Chosen(metric, dcs, samples, redundancy, latencies)|
    ensures var t := Chosen(metric, dcs, samples, redundancy, latencies);
      && t[i] in samples && Eligible(metric, dcs, t[i]) && Near(latencies, t[i].dc)
      && 10.0 * Abs(t[0].value - t[i].value) <= t[0].value
  {
    var c := Candidates(metric, dcs, samples);
    var t := Chosen(metric, dcs, samples, redundancy, latencies);
    assert t[i] in AlsoGood(c[0].value, c[1..], latencies);
    AlsoGoodAre(c[0].value, c[1..], latencies, t[i]);
    CandidatesAre(metric, dcs, samples, t[i]);
    CandidatesAre(metric, dcs, samples, c[0]);
    Tenth(c[0].value, Abs(c[0].value - t[i].value));
  }

  lemma Tenth(best: real, gap: real)
    requires best > 0.0 && gap / best <= 0.1
    ensures 10.0 * gap <= best
  {
    assert gap == gap / best * best;
  }

  /** No suitable data center is left out while there is room. */
  lemma ChosenAll(metric: Metric, dcs: set<string>, samples: seq<Sample>, redundancy: nat,
                  latencies: seq<Sample>, s: Sample)
    requires s in samples && Eligible(metric, dcs, s)
    requires |Chosen(metric, dcs, samples, redundancy, latencies)| <= redundancy
    ensures var t := Chosen(metric, dcs, samples, redundancy, latencies);
      t != [] && (s in t <==> s == t[0] || Suitable(s.dc, t[0].value, s.value, latencies))
  {
    var c := Candidates(metric, dcs, samples);
    CandidatesAre(metric, dcs, samples, s);
    AlsoGoodAre(c[0].value, c[1..], latencies, s);
    assert c == [c[0]] + c[1..];
  }
}
