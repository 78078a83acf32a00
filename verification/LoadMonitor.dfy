/** The monitor that moves a domain to the next layer of servers under load, and back
    (FastRoute/server/LoadMonitor.py). Beats are counted from 1; `samples[t - 1]` says whether the
    load was above the threshold at beat `t`. */
module LoadMonitor {

  const SIZE: nat := 15

  function Sum(flags: seq<nat>): nat {
    if flags == [] then 0 else Sum(flags[..|flags| - 1]) + flags[|flags| - 1]
  }

  lemma {:induction false} SumTail(flags: seq<nat>)
    requires flags != []
    ensures Sum(flags) == flags[0] + Sum(flags[1..])
  {
    if |flags| > 1 {
      SumTail(flags[..|flags| - 1]);
      assert flags[..|flags| - 1][1..] == flags[1..][..|flags| - 2];
    }
  }

  predicate Flags(flags: seq<nat>) {
    forall i :: 0 <= i < |flags| ==> flags[i] <= 1
  }

  lemma {:induction false} SumBound(flags: seq<nat>)
    requires Flags(flags)
    ensures Sum(flags) <= |flags|
  {
    if flags != [] {
      SumBound(flags[..|flags| - 1]);
    }
  }

  // What the monitor does, as a function of the samples.

  function Flag(high: bool): nat {
    if high then 1 else 0
  }

  function Pushed(window: seq<nat>, e: nat): seq<nat> {
    var more := window + [e];
    if |more| > SIZE then more[1..] else more
  }

  /** The window after beat `t`. */
  function Window(samples: seq<bool>, t: nat): (w: seq<nat>)
    requires t <= |samples|
    ensures |w| == (if t < SIZE then t else SIZE) && Flags(w)
  {
    if t == 0 then [] else Pushed(Window(samples, t - 1), Flag(samples[t - 1]))
  }

  /** The number of high samples in the window, beat after beat. */
  function Counts(samples: seq<bool>): (c: seq<nat>)
    ensures |c| == |samples| + 1
  {
    seq(|samples| + 1, t requires 0 <= t <= |samples| => Sum(Window(samples, t)))
  }

  /** Whether the domain is served by the next layer: more than 12 high samples in the window move it
      there, fewer than 4.5 move it back. */
  function Decide(count: nat, atNext: bool): bool {
    if count > 12 then true else if 2 * count < 9 then false else atNext
  }

  function AtNext(counts: seq<nat>, t: nat): bool
    requires t < |counts|
  {
    if t == 0 then false else Decide(counts[t], AtNext(counts, t - 1))
  }

  /** A migration takes place at beat `t`. */
  predicate Migrates(counts: seq<nat>, t: nat) {
    0 < t < |counts| && AtNext(counts, t) != AtNext(counts, t - 1)
  }

  /** Between the beats `u` and `t` nothing moves the domain back. */
  predicate StaysUp(counts: seq<nat>, u: nat, t: nat)
    requires t < |counts|
  {
    0 < u <= t && counts[u] > 12 && forall v :: u < v <= t ==> 2 * counts[v] >= 9
  }

  /** The domain is at the next layer exactly when some beat counted more than 12 high samples and none
      since then fewer than 4.5. */
  lemma {:induction false} AtNextExact(counts: seq<nat>, t: nat)
    requires t < |counts|
    ensures AtNext(counts, t) <==>
      exists u: nat :: StaysUp(counts, u, t)
  {
    if t > 0 {
      AtNextExact(counts, t - 1);
      if counts[t] > 12 {
        assert StaysUp(counts, t, t);
      } else if 2 * counts[t] >= 9 && AtNext(counts, t - 1) {
        var u: nat :| StaysUp(counts, u, t - 1);
        assert StaysUp(counts, u, t);
      } else {
        forall u: nat
          ensures !StaysUp(counts, u, t)
        {
          assert StaysUp(counts, u, t) ==> StaysUp(counts, u, t - 1);
        }
      }
    }
  }

  lemma PushedSum(w: seq<nat>, e: nat)
    requires Flags(w) && e <= 1
    ensures Sum(w) <= Sum(Pushed(w, e)) + 1 && Sum(Pushed(w, e)) <= Sum(w) + 1
  {
    assert (w + [e])[..|w|] == w;
    if |w| >= SIZE {
      SumTail(w + [e]);
    }
  }

  /** Counts change by at most one per beat. */
  ghost predicate Smooth(counts: seq<nat>) {
    forall t :: 0 < t < |counts| ==> Near(counts, t)
  }

  predicate Near(counts: seq<nat>, t: nat)
    requires 0 < t < |counts|
  {
    counts[t - 1] <= counts[t] + 1 && counts[t] <= counts[t - 1] + 1
  }

  /** The count never exceeds the window or the number of beats, and changes by at most one per beat. */
  lemma CountsSmooth(samples: seq<bool>)
    ensures Smooth(Counts(samples))
    ensures forall t :: 0 <= t < |Counts(samples)| ==> Counts(samples)[t] <= SIZE && Counts(samples)[t] <= t
  {
    var c := Counts(samples);
    forall t | 0 <= t < |c| ensures c[t] <= SIZE && c[t] <= t {
      CountBound(samples, t);
    }
    forall t | 0 < t < |c| ensures Near(c, t) {
      CountNear(samples, t);
    }
  }

  lemma CountBound(samples: seq<bool>, t: nat)
    requires t <= |samples|
    ensures Counts(samples)[t] <= SIZE && Counts(samples)[t] <= t
  {
    SumBound(Window(samples, t));
  }

  lemma CountNear(samples: seq<bool>, t: nat)
    requires 0 < t <= |samples|
    ensures Near(Counts(samples), t)
  {
    CountStep(samples, t, Counts(samples), Window(samples, t - 1), Flag(samples[t - 1]));
  }

  lemma CountStep(samples: seq<bool>, t: nat, counts: seq<nat>, w: seq<nat>, e: nat)
    requires 0 < t <= |samples| && counts == Counts(samples) && e == Flag(samples[t - 1])
    requires w == Window(samples, t - 1)
    ensures Near(counts, t)
  {
    PushedSum(w, e);
    assert Window(samples, t) == Pushed(w, e);
  }

  lemma {:induction false} CountDrift(counts: seq<nat>, s: nat, t: nat)
    requires Smooth(counts) && s <= t < |counts|
    ensures counts[s] <= counts[t] + (t - s) && counts[t] <= counts[s] + (t - s)
    decreases t - s
  {
    if s < t {
      CountDrift(counts, s, t - 1);
      assert Near(counts, t);
    }
  }

  predicate Beyond(count: nat, next: bool) {
    if next then count >= 13 else count <= 4
  }

  /** A migration leaves the count on its side of the band. */
  lemma MigrationCount(counts: seq<nat>, t: nat)
    requires Migrates(counts, t)
    ensures Beyond(counts[t], AtNext(counts, t))
  {
  }

  lemma {:induction false} NoMigration(counts: seq<nat>, s: nat, t: nat)
    requires s <= t < |counts| && forall u :: s < u <= t ==> !Migrates(counts, u)
    ensures AtNext(counts, t) == AtNext(counts, s)
    decreases t - s
  {
    if s < t {
      assert !Migrates(counts, t);
      NoMigration(counts, s, t - 1);
    }
  }

  lemma Successive(counts: seq<nat>, s: nat, t: nat)
    requires Smooth(counts) && Migrates(counts, s) && Migrates(counts, t) && s < t
    requires forall u :: s < u < t ==> !Migrates(counts, u)
    ensures AtNext(counts, s) != AtNext(counts, t)
    ensures t - s >= 9
  {
    Alternates(counts, s, t);
    MigrationCount(counts, s);
    MigrationCount(counts, t);
    CountDrift(counts, s, t);
    AcrossTheBand(AtNext(counts, s), counts[s], counts[t], t - s);
  }

  lemma Alternates(counts: seq<nat>, s: nat, t: nat)
    requires Migrates(counts, t) && s < t && forall u :: s < u < t ==> !Migrates(counts, u)
    ensures AtNext(counts, s) != AtNext(counts, t)
  {
    NoMigration(counts, s, t - 1);
  }

  lemma AcrossTheBand(next: bool, from: nat, to: nat, beats: nat)
    requires Beyond(from, next) && Beyond(to, !next)
    requires from <= to + beats && to <= from + beats
    ensures beats >= 9
  {
  }

  lemma {:induction false} Apart(counts: seq<nat>, s: nat, t: nat)
    requires Smooth(counts) && Migrates(counts, s) && Migrates(counts, t) && s < t
    ensures t - s >= 9
    decreases t - s
  {
    if u :| s < u < t && Migrates(counts, u) {
      Apart(counts, s, u);
    } else {
      Successive(counts, s, t);
    }
  }

  /** Whatever the samples are, any two migrations are at least nine beats apart, and successive ones
      go in opposite directions. */
  lemma MigrationsApart(samples: seq<bool>, s: nat, t: nat)
    requires var c := Counts(samples); Migrates(c, s) && Migrates(c, t) && s < t
    ensures t - s >= 9
    ensures var c := Counts(samples);
      (forall u :: s < u < t ==> !Migrates(c, u)) ==> AtNext(c, s) != AtNext(c, t)
  {
    var c := Counts(samples);
    CountsSmooth(samples);
    Apart(c, s, t);
    if forall u :: s < u < t ==> !Migrates(c, u) {
      Successive(c, s, t);
    }
  }

  /** The first migration goes to the next layer and needs thirteen beats. */
  lemma FirstMigration(samples: seq<bool>, t: nat)
    requires var c := Counts(samples); Migrates(c, t) && forall u :: 0 < u < t ==> !Migrates(c, u)
    ensures AtNext(Counts(samples), t) && t >= 13
  {
    CountsSmooth(samples);
    FirstOf(Counts(samples), t);
  }

  lemma FirstOf(counts: seq<nat>, t: nat)
    requires Migrates(counts, t) && counts[t] <= t && forall u :: 0 < u < t ==> !Migrates(counts, u)
    ensures AtNext(counts, t) && t >= 13
  {
    Alternates(counts, 0, t);
    MigrationCount(counts, t);
  }

  /** Thirteen beats are enough: if the load is high from the start, the domain moves at beat 13. */
  lemma ThirteenHigh(samples: seq<bool>)
    requires |samples| >= 13 && forall i :: 0 <= i < 13 ==> samples[i]
    ensures Migrates(Counts(samples), 13)
  {
    HighCounts(samples, 12);
    HighCount(samples, 13);
  }

  lemma {:induction false} HighCount(samples: seq<bool>, t: nat)
    requires t <= |samples| && t <= 13 && forall i :: 0 <= i < t ==> samples[i]
    ensures Sum(Window(samples, t)) == t && Counts(samples)[t] == t
  {
    if t > 0 {
      HighCount(samples, t - 1);
      var w := Window(samples, t - 1);
      assert (w + [1])[..|w|] == w;
    }
  }

  lemma {:induction false} HighCounts(samples: seq<bool>, t: nat)
    requires t <= |samples| && t <= 12 && forall i :: 0 <= i < t ==> samples[i]
    ensures !AtNext(Counts(samples), t)
  {
    if t > 0 {
      HighCount(samples, t);
      HighCounts(samples, t - 1);
    }
  }

  // Nine beats are reached.

  /** The window holds the last 15 samples, or all of them while there are fewer. */
  lemma {:induction false} WindowIs(samples: seq<bool>, t: nat, i: nat)
    requires t <= |samples| && i < |Window(samples, t)|
    ensures |Window(samples, t)| == if t < 15 then t else 15
    ensures Window(samples, t)[i] == Flag(samples[t - |Window(samples, t)| + i])
  {
    var w := Window(samples, t - 1);
    if i + 1 < |Window(samples, t)| {
      WindowIs(samples, t - 1, if t <= SIZE then i else i + 1);
    }
  }

  lemma PushedExact(w: seq<nat>, e: nat)
    requires |w| <= SIZE
    ensures Sum(Pushed(w, e)) + (if |w| == SIZE then w[0] else 0) == Sum(w) + e
  {
    assert (w + [e])[..|w|] == w;
    if |w| == SIZE {
      SumTail(w + [e]);
    }
  }

  /** A beat adds its own sample and takes away the one that leaves the window. */
  lemma CountChange(samples: seq<bool>, t: nat)
    requires 0 < t <= |samples|
    ensures Counts(samples)[t] + (if t > SIZE then Flag(samples[t - 1 - SIZE]) else 0)
         == Counts(samples)[t - 1] + Flag(samples[t - 1])
  {
    var w, e := Window(samples, t - 1), Flag(samples[t - 1]);
    if t > SIZE {
      WindowIs(samples, t - 1, 0);
    }
    ChangeBy(samples, t, w, e, if t > SIZE then Flag(samples[t - 1 - SIZE]) else 0);
  }

  lemma ChangeBy(samples: seq<bool>, t: nat, w: seq<nat>, e: nat, gone: nat)
    requires 0 < t <= |samples| && w == Window(samples, t - 1) && e == Flag(samples[t - 1])
    requires gone == if t > SIZE then w[0] else 0
    ensures Counts(samples)[t] + gone == Counts(samples)[t - 1] + e
  {
    PushedExact(w, e);
    assert Window(samples, t) == Pushed(w, e);
  }

  /** Twelve high beats after a low one, two low ones, a high one, and nine low ones. */
  predicate SharpTurn(samples: seq<bool>) {
    |samples| >= 25 && forall i :: 0 <= i < 25 ==> (samples[i] <==> 1 <= i <= 12 || i == 15)
  }

  function TurnCount(t: nat): nat
    requires t <= 25
  {
    if t == 0 then 0 else if t <= 13 then t - 1 else if t <= 15 then 12 else 29 - t
  }

  lemma {:induction false} TurnCounts(samples: seq<bool>, t: nat)
    requires SharpTurn(samples) && t <= 25
    ensures Counts(samples)[t] == TurnCount(t)
  {
    if t > 0 {
      TurnCounts(samples, t - 1);
      CountChange(samples, t);
    }
  }

  lemma AtNextStep(counts: seq<nat>, t: nat)
    requires 0 < t < |counts|
    ensures AtNext(counts, t) == Decide(counts[t], AtNext(counts, t - 1))
  {
  }

  lemma {:induction false} TurnPlaces(samples: seq<bool>, t: nat)
    requires SharpTurn(samples) && t <= 25
    ensures AtNext(Counts(samples), t) <==> 16 <= t <= 24
  {
    if t > 0 {
      TurnPlaces(samples, t - 1);
      TurnCounts(samples, t);
      AtNextStep(Counts(samples), t);
    }
  }

  /** The bound of nine beats is reached: these samples move the domain at beat 16 and back at 25. */
  lemma NineBeats(samples: seq<bool>)
    requires SharpTurn(samples)
    ensures Migrates(Counts(samples), 16) && Migrates(Counts(samples), 25)
  {
    TurnPlaces(samples, 15);
    TurnPlaces(samples, 16);
    TurnPlaces(samples, 24);
    TurnPlaces(samples, 25);
  }

  // The monitor itself.

  /** The window and the place of the domain. */
  datatype Placed = Placed(window: seq<nat>, next: bool)

  function Beaten(m: Placed, high: bool): Placed {
    var w := Pushed(m.window, Flag(high));
    Placed(w, Decide(Sum(w), m.next))
  }

  /** Where a run of samples leads, beat by beat. */
  function After(samples: seq<bool>): Placed {
    if samples == [] then Placed([], false)
    else Beaten(After(samples[..|samples| - 1]), samples[|samples| - 1])
  }

  lemma AfterMore(seen: seq<bool>, high: bool)
    ensures After(seen + [high]) == Beaten(After(seen), high)
  {
    assert (seen + [high])[..|seen|] == seen;
  }

  lemma Unsnoc(samples: seq<bool>)
    requires samples != []
    ensures samples == samples[..|samples| - 1] + [samples[|samples| - 1]]
  {
  }

  /** The beat by beat view agrees with the counts, so what is sent are exactly the migrations. */
  lemma {:induction false} AfterIs(samples: seq<bool>)
    ensures After(samples) == Placed(Window(samples, |samples|), AtNext(Counts(samples), |samples|))
    ensures samples != [] ==>
      (Migrates(Counts(samples), |samples|) <==> After(samples).next != After(samples[..|samples| - 1]).next)
  {
    if samples != [] {
      var seen, high := samples[..|samples| - 1], samples[|samples| - 1];
      AfterIs(seen);
      SeenMore(seen, high);
      Unsnoc(samples);
    }
  }

  class FixLenList {
    const maxlen: nat
    var list: seq<nat>

    constructor (size: nat)
      ensures maxlen == size && list == []
    {
      maxlen, list := size, [];
    }

    method Push(e: nat)
      modifies this
      ensures var more := old(list) + [e]; list == if |more| > maxlen then more[1..] else more
    {
      list := list + [e];
      if |list| > maxlen {
        list := list[1..];
      }
    }
  }

  class Monitor {
    const thisLayer: string
    const nextLayer: string
    var lastServer: string
    const flags: FixLenList
    /** All samples seen so far. */
    ghost var seen: seq<bool>

    ghost predicate Valid()
      reads this, flags
    {
      && flags.maxlen == SIZE && flags.list == After(seen).window && lastServer == Server(After(seen).next)
    }

    function Server(next: bool): string {
      if next then nextLayer else thisLayer
    }

    constructor (nextLayer: string, thisLayer: string)
      ensures Valid() && seen == [] && fresh(flags)
      ensures this.nextLayer == nextLayer && this.thisLayer == thisLayer
    {
      this.thisLayer, this.nextLayer, lastServer := thisLayer, nextLayer, thisLayer;
      flags := new FixLenList(SIZE);
      seen := [];
    }

    method Total() returns (n: nat)
      ensures n == Sum(flags.list)
    {
      n := 0;
      var i := 0;
      while i < |flags.list|
        invariant 0 <= i <= |flags.list| && n == Sum(flags.list[..i])
      {
        assert flags.list[..i + 1][..i] == flags.list[..i];
        n := n + flags.list[i];
        i := i + 1;
      }
      assert flags.list[..i] == flags.list;
    }

    /** One beat: the requests sent to the name server, which are none or one. */
    method Beat(high: bool) returns (sent: seq<string>)
      requires Valid()
      modifies this, flags
      ensures Valid() && seen == old(seen) + [high]
      ensures sent == if After(seen).next != After(old(seen)).next && thisLayer != nextLayer then [lastServer] else []
    {
      AfterMore(seen, high);
      flags.Push(Flag(high));
      seen := seen + [high];
      sent := Decided();
    }

    /** Compares the window with the two limits. */
    method Decided() returns (sent: seq<string>)
      requires lastServer == nextLayer || lastServer == thisLayer
      modifies this`lastServer
      ensures var next := Decide(Sum(flags.list), old(lastServer) == nextLayer);
        lastServer == Server(next) && sent == if lastServer != old(lastServer) then [lastServer] else []
    {
      sent := [];
      var n := Total();
      if n > 12 && lastServer != nextLayer {
        sent := sent + [nextLayer];
        lastServer := nextLayer;
      }
      if 2 * n < 9 && lastServer != thisLayer {
        sent := sent + [thisLayer];
        lastServer := thisLayer;
      }
    }
  }

  /** Later samples do not change the past. */
  lemma {:induction false} WindowPrefix(seen: seq<bool>, high: bool, t: nat)
    requires t <= |seen|
    ensures Window(seen + [high], t) == Window(seen, t)
  {
    if t > 0 {
      WindowPrefix(seen, high, t - 1);
    }
  }

  lemma {:induction false} AtNextPrefix(a: seq<nat>, b: seq<nat>, t: nat)
    requires t < |a| && t < |b| && forall i :: 0 <= i <= t ==> a[i] == b[i]
    ensures AtNext(a, t) == AtNext(b, t)
  {
    if t > 0 {
      AtNextPrefix(a, b, t - 1);
    }
  }

  /** One more sample: the window moves on, and the decision is taken on its sum. */
  lemma SeenMore(seen: seq<bool>, high: bool)
    ensures var s := seen + [high];
      var w := Pushed(Window(seen, |seen|), Flag(high));
      var before := AtNext(Counts(seen), |seen|);
      && Window(s, |s|) == w && AtNext(Counts(s), |s|) == Decide(Sum(w), before)
      && (Migrates(Counts(s), |s|) <==> Decide(Sum(w), before) != before)
  {
    var s := seen + [high];
    forall t | 0 <= t <= |seen| ensures Counts(s)[t] == Counts(seen)[t] {
      WindowPrefix(seen, high, t);
    }
    WindowPrefix(seen, high, |seen|);
    AtNextPrefix(Counts(s), Counts(seen), |seen|);
  }
}
