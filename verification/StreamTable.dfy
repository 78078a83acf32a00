/** The stream table of a connection (Polygon/lib/ngtcp2_conn.c): the open streams by id, together with
    the trackers of the ids that the peer has used and the next local ids. */
module StreamTable {
  import opened Basics
  import opened Ranges
  import opened StreamIds

  datatype Strm = Strm(id: nat)

  /** Odd ids belong to the server. */
  predicate Local(server: bool, id: nat) {
    id % 2 == if server then 1 else 0
  }

  predicate Bidi(id: nat) {
    id / 2 % 2 == 0
  }

  /** The first local id of each direction. */
  function FirstLocal(server: bool, bidi: bool): nat {
    (if server then 1 else 0) + if bidi then 0 else 2
  }

  /** Which ids have been used: the peer's are those taken out of the gaps of their direction, the local
      ones those below the next one to be used. */
  datatype Used = Used(server: bool, bidi: seq<Range>, uni: seq<Range>, nextBidi: nat, nextUni: nat)

  predicate Ordered(u: Used) {
    && OrderedFrom(0, u.bidi) && OpenEnded(u.bidi) && OrderedFrom(0, u.uni) && OpenEnded(u.uni)
    && u.nextBidi % 4 == FirstLocal(u.server, true) && u.nextUni % 4 == FirstLocal(u.server, false)
  }

  ghost predicate IsUsed(u: Used, id: nat) {
    if Local(u.server, id) then id < (if Bidi(id) then u.nextBidi else u.nextUni)
    else !Covers(if Bidi(id) then u.bidi else u.uni, Slot(id))
  }

  function Claim(u: Used, id: nat): Used {
    if Bidi(id) then u.(bidi := Left(u.bidi, Slot(id))) else u.(uni := Left(u.uni, Slot(id)))
  }

  /** Claiming an id of the peer makes exactly that id used. */
  lemma ClaimExact(u: Used, id: nat, x: nat)
    requires Ordered(u) && id <= MAX_VARINT && !Local(u.server, id)
    ensures Ordered(Claim(u, id))
    ensures Take(if Bidi(id) then u.bidi else u.uni, Slot(id)).Some? <==> !IsUsed(u, id)
    ensures IsUsed(Claim(u, id), x) <==> IsUsed(u, x) || x == id
  {
    TakeNext(if Bidi(id) then u.bidi else u.uni, Slot(id), Slot(x));
    SameSlot(u.server, id, x);
  }

  /** Initiator and direction are the two low bits of an id. */
  lemma LowBits(id: nat)
    ensures id % 4 == id % 2 + (if Bidi(id) then 0 else 2)
  {
    var h := id / 2;
    assert id == 2 * h + id % 2 && h == 2 * (h / 2) + h % 2;
  }

  /** Two ids of the peer of one direction have the same slot only if they are the same. */
  lemma SameSlot(server: bool, a: nat, b: nat)
    requires !Local(server, a)
    ensures Bidi(a) == Bidi(b) && !Local(server, b) && Slot(a) == Slot(b) ==> a == b
  {
    LowBits(a);
    LowBits(b);
    assert a == 4 * Slot(a) + a % 4 && b == 4 * Slot(b) + b % 4;
  }

  function Advance(u: Used, bidi: bool): Used {
    if bidi then u.(nextBidi := u.nextBidi + 4) else u.(nextUni := u.nextUni + 4)
  }

  /** Using the next local id makes exactly that id used. */
  lemma AdvanceExact(u: Used, bidi: bool, x: nat)
    requires Ordered(u)
    ensures var id := if bidi then u.nextBidi else u.nextUni;
      && Ordered(Advance(u, bidi)) && !IsUsed(u, id)
      && (IsUsed(Advance(u, bidi), x) <==> IsUsed(u, x) || x == id)
  {
    NextOfKind(u.server, bidi, if bidi then u.nextBidi else u.nextUni, x);
  }

  /** Among the local ids of a direction, the next one is followed by the one four further on. */
  lemma NextOfKind(server: bool, bidi: bool, next: nat, x: nat)
    requires next % 4 == FirstLocal(server, bidi)
    ensures Local(server, next) && Bidi(next) == bidi && (next + 4) % 4 == FirstLocal(server, bidi)
    ensures Local(server, x) && Bidi(x) == bidi ==> (x < next + 4 <==> x < next || x == next)
  {
  }

  datatype Table = Table(used: Used, strms: map<nat, Strm>)

  datatype Event =
    | Frame(id: nat)          // a frame that needs the stream
    | Reset(id: nat)          // a frame that only marks an id of the peer as used
    | OpenLocal(bidi: bool)
    | Close(id: nat)

  /** The id for which a stream object is put into the table: a frame for an id of the peer that is
      neither open nor used, or the next local id. */
  function Creates(t: Table, e: Event): Option<nat> {
    match e
    case Frame(id) =>
      if id in t.strms || Local(t.used.server, id) ||
         Take(if Bidi(id) then t.used.bidi else t.used.uni, Slot(id)).None? then None
      else Some(id)
    case OpenLocal(bidi) => Some(if bidi then t.used.nextBidi else t.used.nextUni)
    case _ => None
  }

  function Step(t: Table, e: Event): Table {
    match e
    case Frame(id) =>
      if Creates(t, e).None? then t else Table(Claim(t.used, id), t.strms[id := Strm(id)])
    case Reset(id) =>
      if Local(t.used.server, id) then t else t.(used := Claim(t.used, id))
    case OpenLocal(bidi) =>
      Table(Advance(t.used, bidi), t.strms[Creates(t, e).value := Strm(Creates(t, e).value)])
    case Close(id) => t.(strms := t.strms - {id})
  }

  /** The two low bits of an id: who opened the stream, and whether it goes both ways (section 2.1 of
      RFC 9000). */
  lemma KindsOfIds(n: nat)
    ensures !Local(true, 4 * n) && Local(false, 4 * n) && Bidi(4 * n)
    ensures Local(true, 4 * n + 1) && !Local(false, 4 * n + 1) && Bidi(4 * n + 1)
    ensures !Local(true, 4 * n + 2) && Local(false, 4 * n + 2) && !Bidi(4 * n + 2)
    ensures Local(true, 4 * n + 3) && !Local(false, 4 * n + 3) && !Bidi(4 * n + 3)
    ensures Slot(4 * n) == Slot(4 * n + 1) == Slot(4 * n + 2) == Slot(4 * n + 3) == n
  {
    Halves(n, 0);
    Halves(n, 1);
    Halves(n, 2);
    Halves(n, 3);
  }

  lemma Halves(n: nat, r: nat)
    requires r < 4
    ensures (4 * n + r) % 2 == r % 2 && (4 * n + r) / 2 % 2 == r / 2 && Slot(4 * n + r) == n
  {
    assert (4 * n + r) / 2 == 2 * n + r / 2;
  }

  /** A frame for an id of the peer creates a stream exactly when the id has not been used; a local stream
      gets the least id of its kind that has not been used. */
  lemma CreatesExact(t: Table, id: nat, bidi: bool, x: nat)
    requires Good(t) && id <= MAX_VARINT
    ensures Creates(t, Frame(id)) == (if !Local(t.used.server, id) && !IsUsed(t.used, id) then Some(id) else None)
    ensures Creates(t, Reset(id)) == Creates(t, Close(id)) == None
    ensures var next := Creates(t, OpenLocal(bidi));
            && next.Some? && Local(t.used.server, next.value) && Bidi(next.value) == bidi && !IsUsed(t.used, next.value)
            && (Local(t.used.server, x) && Bidi(x) == bidi && !IsUsed(t.used, x) ==> next.value <= x)
  {
    if !Local(t.used.server, id) {
      ClaimExact(t.used, id, x);
    }
    AdvanceExact(t.used, bidi, x);
    NextOfKind(t.used.server, bidi, if bidi then t.used.nextBidi else t.used.nextUni, x);
  }

  /** What an event does to the table and to the used ids. */
  lemma StepExact(t: Table, e: Event, x: nat)
    requires Good(t) && Readable(e)
    ensures var t', made := Step(t, e), Creates(t, e);
            && (x in t'.strms <==> made == Some(x) || (x in t.strms && e != Close(x)))
            && (x in t'.strms ==> t'.strms[x] == if made == Some(x) then Strm(x) else t.strms[x])
            && (IsUsed(t'.used, x) <==>
                  IsUsed(t.used, x) || made == Some(x) || (e == Reset(x) && !Local(t.used.server, x)))
  {
    match e
    case Frame(id) =>
      if !Local(t.used.server, id) {
        ClaimExact(t.used, id, x);
      }
    case Reset(id) =>
      if !Local(t.used.server, id) {
        ClaimExact(t.used, id, x);
      }
    case OpenLocal(bidi) => AdvanceExact(t.used, bidi, x);
    case Close(_) =>
  }

  predicate Readable(e: Event) {
    (e.Frame? || e.Reset?) ==> e.id <= MAX_VARINT
  }

  /** Every stream in the table has a used id. */
  ghost predicate Good(t: Table) {
    Ordered(t.used) && forall k :: k in t.strms ==> IsUsed(t.used, k)
  }

  /** A stream is only created for an id that was never used before, so the table cannot hold it already;
      and an id that is used stays used. */
  lemma StepGood(t: Table, e: Event, x: nat)
    requires Good(t) && Readable(e)
    ensures Good(Step(t, e)) && (IsUsed(t.used, x) ==> IsUsed(Step(t, e).used, x))
    ensures Creates(t, e).Some? ==>
      var id := Creates(t, e).value;
      !IsUsed(t.used, id) && id !in t.strms && IsUsed(Step(t, e).used, id)
  {
    UsedGrows(t, e, x);
    forall k | k in Step(t, e).strms ensures IsUsed(Step(t, e).used, k) {
      UsedGrows(t, e, k);
    }
    if Creates(t, e).Some? {
      UsedGrows(t, e, Creates(t, e).value);
    }
  }

  lemma UsedGrows(t: Table, e: Event, x: nat)
    requires Good(t) && Readable(e)
    ensures Ordered(Step(t, e).used) && (IsUsed(t.used, x) ==> IsUsed(Step(t, e).used, x))
    ensures Creates(t, e) == Some(x) ==> !IsUsed(t.used, x) && IsUsed(Step(t, e).used, x)
  {
    match e
    case Frame(id) =>
      if !Local(t.used.server, id) {
        ClaimExact(t.used, id, x);
      }
    case Reset(id) =>
      if !Local(t.used.server, id) {
        ClaimExact(t.used, id, x);
      }
    case OpenLocal(bidi) => AdvanceExact(t.used, bidi, x);
    case Close(_) =>
  }

  /** The ids for which streams are created in a run, in order. */
  function Created(t: Table, events: seq<Event>): seq<nat>
    decreases |events|
  {
    if events == [] then []
    else
      var later := Created(Step(t, events[0]), events[1..]);
      if Creates(t, events[0]).Some? then [Creates(t, events[0]).value] + later else later
  }

  lemma {:induction false} CreatedUnused(t: Table, events: seq<Event>, i: nat)
    requires Good(t) && i < |Created(t, events)| && forall e :: e in events ==> Readable(e)
    ensures !IsUsed(t.used, Created(t, events)[i])
    decreases |events|
  {
    var e, t' := events[0], Step(t, events[0]);
    assert e in events && forall f :: f in events[1..] ==> f in events;
    var x := Created(t, events)[i];
    StepGood(t, e, x);
    var c := Creates(t, e).Some?;
    if !c || i > 0 {
      CreatedUnused(t', events[1..], if c then i - 1 else i);
    }
  }

  /** In every run, whatever is closed in between, no id is given a stream twice. */
  lemma {:induction false} CreatedOnce(t: Table, events: seq<Event>, i: nat, j: nat)
    requires Good(t) && i < j < |Created(t, events)| && forall e :: e in events ==> Readable(e)
    ensures Created(t, events)[i] != Created(t, events)[j]
    decreases |events|
  {
    var e, t' := events[0], Step(t, events[0]);
    assert e in events && forall f :: f in events[1..] ==> f in events;
    StepGood(t, e, 0);
    if Creates(t, e).Some? {
      if i == 0 {
        CreatedUnused(t', events[1..], j - 1);
      } else {
        CreatedOnce(t', events[1..], i - 1, j - 1);
      }
    } else {
      CreatedOnce(t', events[1..], i, j);
    }
  }

  /** A new connection: stream 0 is open from the start, so its id counts as used on both sides. */
  function Fresh(server: bool): Table {
    var all := [Range(0, UINT64_MAX)];
    var used :=
      if server then Used(server, Left(all, Slot(0)), all, 1, 3)
      else Used(server, all, all, 4, 2);
    Table(used, map[0 := Strm(0)])
  }

  lemma FreshGood(server: bool)
    ensures Good(Fresh(server))
  {
    TakeNext([Range(0, UINT64_MAX)], 0, 0);
  }

  /** At the start no id is used but 0, which the client has opened, and the server's first ids are 1 and
      3, the client's 4 and 2. */
  lemma FreshExact(server: bool, x: nat)
    requires x <= MAX_VARINT
    ensures var t := Fresh(server);
            && t.strms.Keys == {0} && (IsUsed(t.used, x) <==> x == 0)
            && Creates(t, OpenLocal(true)) == Some(if server then 1 else 4)
            && Creates(t, OpenLocal(false)) == Some(if server then 3 else 2)
  {
    var all := [Range(0, UINT64_MAX)];
    assert all[0].Contains(Slot(x)) && Covers(all, Slot(x));
    TakeNext(all, 0, Slot(x));
    LowBits(x);
  }

  function After(t: Table, events: seq<Event>): Table
    decreases |events|
  {
    if events == [] then t else After(Step(t, events[0]), events[1..])
  }

  /** A run goes event by event. */
  lemma {:induction false} AfterLast(t: Table, events: seq<Event>, e: Event)
    ensures After(t, []) == t && After(t, events + [e]) == Step(After(t, events), e)
    decreases |events|
  {
    if events == [] {
      assert [] + [e] == [e] && [e][1..] == [];
    } else {
      AfterLast(Step(t, events[0]), events[1..], e);
      assert (events + [e])[1..] == events[1..] + [e];
    }
  }

  lemma {:induction false} RunGood(t: Table, events: seq<Event>)
    requires Good(t) && forall e :: e in events ==> Readable(e)
    ensures Good(After(t, events))
    decreases |events|
  {
    if events != [] {
      assert events[0] in events && forall f :: f in events[1..] ==> f in events;
      StepGood(t, events[0], 0);
      RunGood(Step(t, events[0]), events[1..]);
    }
  }

  /** Whatever has happened on a connection, a stream is never inserted under a key that the table holds. */
  lemma NeverDuplicate(server: bool, events: seq<Event>, e: Event)
    requires Readable(e) && forall f :: f in events ==> Readable(f)
    ensures var t := After(Fresh(server), events); Creates(t, e).Some? ==> Creates(t, e).value !in t.strms
  {
    FreshGood(server);
    RunGood(Fresh(server), events);
    StepGood(After(Fresh(server), events), e, 0);
  }
}
