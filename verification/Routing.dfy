/** How the server finds the handler of a packet (Polygon/examples/server.cc): handlers are kept under
    the connection id that the server chose, and a second map leads from the id that the client chose
    to the server's. */
module Routing {
  import opened Basics

  datatype Handler = Handler(connId: nat, clientId: nat)

  datatype State = State(handlers: map<nat, Handler>, ctos: map<nat, nat>)

  /** Results of the handler's reading and writing. */
  datatype Outcome = Ok | CloseWait | SendNonFatal | Failed

  /** `ctos` leads one-to-one from the client ids of the live handlers onto the keys of `handlers`. */
  ghost predicate Good(s: State) {
    && (forall k :: k in s.handlers ==> s.handlers[k].connId == k)
    && (forall k :: k in s.handlers ==> s.handlers[k].clientId in s.ctos && s.ctos[s.handlers[k].clientId] == k)
    && (forall c :: c in s.ctos ==> s.ctos[c] in s.handlers && s.handlers[s.ctos[c]].clientId == c)
  }

  lemma GoodOneToOne(s: State, c: nat, d: nat)
    requires Good(s) && c in s.ctos && d in s.ctos
    ensures s.ctos[c] == s.ctos[d] ==> c == d
    ensures s.ctos.Values == s.handlers.Keys
  {
    forall k | k in s.handlers ensures k in s.ctos.Values {
      assert s.ctos[s.handlers[k].clientId] == k;
    }
  }

  /** Inserting does nothing when the key is taken. */
  function Emplace<V>(m: map<nat, V>, k: nat, v: V): map<nat, V> {
    if k in m then m else m[k := v]
  }

  function Accept(s: State, client: nat, id: nat): State {
    State(Emplace(s.handlers, id, Handler(id, client)), Emplace(s.ctos, client, id))
  }

  function Remove(s: State, h: Handler): State {
    State(s.handlers - {h.connId}, s.ctos - {h.clientId})
  }

  /** The key of the handler for a packet: the server's own id is tried first. */
  function Lookup(s: State, id: nat): Option<nat> {
    if id in s.handlers then Some(id)
    else if id in s.ctos then Some(s.ctos[id])
    else None
  }

  /** A lookup that goes through `ctos` never ends at a handler that is gone. */
  lemma LookupHits(s: State, id: nat)
    requires Good(s) && Lookup(s, id).Some?
    ensures Lookup(s, id).value in s.handlers
    ensures var h := s.handlers[Lookup(s, id).value]; h.connId == id || (h.clientId == id && id !in s.handlers)
  {
  }

  /** The server's own ids are tried first, so a packet with a client's id reaches the handler of that
      client exactly when the id is not the key of another handler. */
  lemma LookupOfClient(s: State, c: nat)
    requires Good(s) && c in s.ctos
    ensures Lookup(s, c).Some? && Lookup(s, c).value in s.handlers
    ensures s.handlers[Lookup(s, c).value].clientId == c <==> c !in s.handlers || s.ctos[c] == c
  {
  }

  /** It may be: client 9 is given id 5, then client 7 is given id 9, and packets of client 9 go to the
      handler of client 7. */
  lemma Misrouted()
    ensures var s := Accept(Accept(State(map[], map[]), 9, 5), 7, 9);
            && Good(s) && Lookup(s, 9) == Some(9) && s.handlers[9].clientId == 7
  {
    var s0 := State(map[], map[]);
    AcceptKeeps(s0, 9, 5);
    AcceptKeeps(Accept(s0, 9, 5), 7, 9);
  }

  /** No client's id is the key of another handler. */
  ghost predicate Apart(s: State) {
    forall c :: c in s.ctos && c in s.handlers ==> s.ctos[c] == c
  }

  /** Accepting keeps that exactly when the id that is drawn is not a client's. */
  lemma AcceptApart(s: State, client: nat, id: nat)
    requires Good(s) && Apart(s) && Lookup(s, client).None? && id !in s.handlers
    ensures Apart(Accept(s, client, id)) <==> id !in s.ctos
  {
    var t := Accept(s, client, id);
    if id in s.ctos {
      assert id in t.ctos && id in t.handlers && t.ctos[id] in s.handlers;
    }
  }

  /** Accepting a new client keeps the maps in step exactly when the id drawn for it is not in use. */
  lemma AcceptKeeps(s: State, client: nat, id: nat)
    requires Good(s) && Lookup(s, client).None?
    ensures Good(Accept(s, client, id)) <==> id !in s.handlers
  {
    var t := Accept(s, client, id);
    if id in s.handlers {
      assert client in t.ctos && t.ctos[client] == id && t.handlers[id] == s.handlers[id];
      assert s.handlers[id].clientId != client;
    } else {
      assert t.handlers[id] == Handler(id, client) && t.ctos[client] == id;
    }
  }

  lemma RemoveKeeps(s: State, k: nat)
    requires Good(s) && k in s.handlers
    ensures Good(Remove(s, s.handlers[k]))
  {
    var t := Remove(s, s.handlers[k]);
    forall c | c in t.ctos ensures t.ctos[c] in t.handlers && t.handlers[t.ctos[c]].clientId == c {
      assert s.ctos[c] != k;
    }
    forall x | x in t.handlers ensures t.handlers[x].clientId in t.ctos && t.ctos[t.handlers[x].clientId] == x {
      assert s.ctos[s.handlers[x].clientId] == x;
    }
  }

  // Packets.

  /** What happens to a packet: whether it is a valid first packet, the id that would be drawn for its
      handler, and what the handler makes of it. */
  datatype Packet = Packet(id: nat, acceptable: bool, drawn: nat, closing: bool, draining: bool,
                           close: Outcome, read: Outcome, write: Outcome)

  /** The first packet of a client makes a handler unless reading or writing fails at once. */
  function AfterFirst(s: State, p: Packet): State {
    if p.acceptable && p.read.Ok? && (p.write.Ok? || p.write.SendNonFatal?) then Accept(s, p.id, p.drawn) else s
  }

  /** Whether the handler of a packet is given up. */
  predicate GivesUp(p: Packet) {
    if p.closing then p.close.CloseWait? || p.close.Failed?
    else if p.draining then false
    else if !p.read.Ok? then !p.read.CloseWait?
    else p.write.Failed?
  }

  function AfterRead(s: State, p: Packet): State
    requires Lookup(s, p.id).Some? ==> Lookup(s, p.id).value in s.handlers
  {
    match Lookup(s, p.id)
    case None => AfterFirst(s, p)
    case Some(k) => if GivesUp(p) then Remove(s, s.handlers[k]) else s
  }

  /** The drawn id is not in use when it is needed. */
  predicate Fresh(s: State, p: Packet) {
    Lookup(s, p.id).None? ==> p.drawn !in s.handlers
  }

  lemma AfterReadKeeps(s: State, p: Packet)
    requires Good(s) && Fresh(s, p)
    ensures Lookup(s, p.id).Some? ==> Lookup(s, p.id).value in s.handlers
    ensures Good(AfterRead(s, p))
  {
    match Lookup(s, p.id)
    case None => AcceptKeeps(s, p.id, p.drawn);
    case Some(k) =>
      LookupHits(s, p.id);
      RemoveKeeps(s, k);
  }

  /** When a handler appears: for a first packet that is acceptable, read without an error and answered,
      or that only could not be answered at once. When one goes: in the closing period if sending the
      close fails, and otherwise, unless it is draining, if reading or writing fails in earnest. */
  lemma ReadExact(s: State, p: Packet, k: nat)
    requires Good(s) && Fresh(s, p)
    requires Lookup(s, p.id).Some? ==> Lookup(s, p.id).value in s.handlers
    ensures var t := AfterRead(s, p);
            var known := p.id in s.handlers || p.id in s.ctos;
            var addressed := p.id == k || (p.id !in s.handlers && p.id in s.ctos && s.ctos[p.id] == k);
            && (k in t.handlers && k !in s.handlers <==>
                  !known && k == p.drawn && p.acceptable && p.read == Ok && p.write in {Ok, SendNonFatal})
            && (k in s.handlers && k !in t.handlers <==>
                  k in s.handlers && addressed &&
                  (if p.closing then p.close in {CloseWait, Failed}
                   else !p.draining && (p.read in {SendNonFatal, Failed} || (p.read == Ok && p.write == Failed))))
            && (k in s.handlers && k in t.handlers ==> t.handlers[k] == s.handlers[k])
            && (k in t.handlers && k !in s.handlers ==>
                  t.handlers[k] == Handler(k, p.id) && p.id in t.ctos && t.ctos[p.id] == k)
  {
  }

  /** The handlers of `order` exist, and each is visited once. */
  predicate Walkable(s: State, order: seq<nat>, rv: map<nat, Outcome>) {
    && (forall k :: k in order ==> k in s.handlers && k in rv)
    && (forall i, j :: 0 <= i < j < |order| ==> order[i] != order[j])
  }

  /** Writing for the handlers in the given order: failures are removed, and a send that would block
      ends the walk. */
  function AfterWrite(s: State, order: seq<nat>, rv: map<nat, Outcome>): State
    requires Walkable(s, order, rv)
    decreases |order|
  {
    if order == [] || rv[order[0]].SendNonFatal? then s
    else if rv[order[0]].Failed? then
      var h := s.handlers[order[0]];
      AfterWrite(State(s.handlers - {order[0]}, s.ctos - {h.clientId}), order[1..], rv)
    else AfterWrite(s, order[1..], rv)
  }

  lemma {:induction false} AfterWriteKeeps(s: State, order: seq<nat>, rv: map<nat, Outcome>)
    requires Good(s) && Walkable(s, order, rv)
    ensures Good(AfterWrite(s, order, rv))
    decreases |order|
  {
    if order != [] && !rv[order[0]].SendNonFatal? {
      if rv[order[0]].Failed? {
        RemoveKeeps(s, order[0]);
        AfterWriteKeeps(Remove(s, s.handlers[order[0]]), order[1..], rv);
      } else {
        AfterWriteKeeps(s, order[1..], rv);
      }
    }
  }

  /** The walk gets to position `i`: nothing before it blocks. */
  predicate Reached(order: seq<nat>, rv: map<nat, Outcome>, i: nat) {
    i < |order| && forall j :: 0 <= j < i ==> order[j] in rv && !rv[order[j]].SendNonFatal?
  }

  /** The handler's write fails before the first one that blocks. */
  ghost predicate FailsInTime(order: seq<nat>, rv: map<nat, Outcome>, k: nat) {
    k in rv && rv[k].Failed? && exists i: nat :: Reached(order, rv, i) && order[i] == k
  }

  lemma FailsFirst(order: seq<nat>, rv: map<nat, Outcome>, k: nat)
    requires order != [] && order[0] in rv
    ensures FailsInTime(order, rv, k) <==>
            (order[0] == k && rv[k].Failed?) || (!rv[order[0]].SendNonFatal? && FailsInTime(order[1..], rv, k))
  {
    if FailsInTime(order, rv, k) {
      var i: nat :| Reached(order, rv, i) && order[i] == k;
      if i > 0 {
        assert order[1..][i - 1] == order[i] && !rv[order[0]].SendNonFatal?;
        assert forall j :: 0 <= j < i - 1 ==> order[1..][j] == order[j + 1];
        assert Reached(order[1..], rv, i - 1);
      }
    }
    if order[0] == k && rv[k].Failed? {
      assert Reached(order, rv, 0);
    }
    if !rv[order[0]].SendNonFatal? && FailsInTime(order[1..], rv, k) {
      var i: nat :| Reached(order[1..], rv, i) && order[1..][i] == k;
      assert forall j :: 1 <= j <= i ==> order[j] == order[1..][j - 1];
      assert order[i + 1] == k && Reached(order, rv, i + 1);
    }
  }

  /** Exactly the handlers whose write fails before the first one that blocks are removed, and the
      others are left as they were. */
  lemma {:induction false} WriteRemoves(s: State, order: seq<nat>, rv: map<nat, Outcome>, k: nat)
    requires Walkable(s, order, rv)
    ensures var t := AfterWrite(s, order, rv);
            && (k in t.handlers <==> k in s.handlers && !FailsInTime(order, rv, k))
            && (k in t.handlers ==> t.handlers[k] == s.handlers[k])
    decreases |order|
  {
    if order != [] {
      FailsFirst(order, rv, k);
      if rv[order[0]].SendNonFatal? {
      } else if rv[order[0]].Failed? {
        var h := s.handlers[order[0]];
        WriteRemoves(State(s.handlers - {order[0]}, s.ctos - {h.clientId}), order[1..], rv, k);
      } else {
        WriteRemoves(s, order[1..], rv, k);
      }
    }
  }

  // Whole runs.

  datatype Event =
    | Arrival(packet: Packet)
    | Writable(order: seq<nat>, rv: map<nat, Outcome>)
    | Timeout(key: nat)
    | Disconnect

  /** All handlers in the order of their keys. */
  predicate InOrder(s: State, order: seq<nat>) {
    && (forall k :: k in order ==> k in s.handlers) && (forall k :: k in s.handlers ==> k in order)
    && (forall i, j :: 0 <= i < j < |order| ==> order[i] < order[j])
  }

  /** Ids that the server draws are not in use, it writes for all handlers in the order of their keys,
      and it times out live handlers. */
  predicate Possible(s: State, e: Event) {
    match e
    case Arrival(p) => Fresh(s, p)
    case Writable(order, rv) => InOrder(s, order) && forall k :: k in s.handlers ==> k in rv
    case Timeout(k) => k in s.handlers
    case Disconnect => true
  }

  ghost function Step(s: State, e: Event): State
    requires Good(s) && Possible(s, e)
  {
    match e
    case Arrival(p) => AfterReadKeeps(s, p); AfterRead(s, p)
    case Writable(order, rv) => AfterWrite(s, order, rv)
    case Timeout(k) => Remove(s, s.handlers[k])
    case Disconnect => State(map[], map[])
  }

  lemma StepKeeps(s: State, e: Event)
    requires Good(s) && Possible(s, e)
    ensures Good(Step(s, e))
  {
    match e
    case Arrival(p) => AfterReadKeeps(s, p);
    case Writable(order, rv) => AfterWriteKeeps(s, order, rv);
    case Timeout(k) => RemoveKeeps(s, k);
    case Disconnect =>
  }

  /** `states` are the states of a server from its start on, one event after the other. */
  ghost predicate IsRun(states: seq<State>, events: seq<Event>) {
    && |states| == |events| + 1 && states[0] == State(map[], map[])
    && forall i {:trigger events[i]} :: 0 <= i < |events| ==>
         Good(states[i]) ==> Possible(states[i], events[i]) && states[i + 1] == Step(states[i], events[i])
  }

  /** In every state that a server can reach, the two maps are in step: what the map of client ids leads
      to is a live handler of that client. */
  lemma {:induction false} AlwaysGood(states: seq<State>, events: seq<Event>, n: nat, id: nat)
    requires IsRun(states, events) && n < |states|
    ensures Good(states[n])
    ensures id in states[n].ctos ==>
      states[n].ctos[id] in states[n].handlers && states[n].handlers[states[n].ctos[id]].clientId == id
  {
    if n > 0 {
      AlwaysGood(states, events, n - 1, id);
      var e := events[n - 1];
      StepKeeps(states[n - 1], e);
    }
  }

  /** The id that is drawn for a new client is not a client's id either. */
  predicate WellDrawn(s: State, e: Event) {
    e.Arrival? && Lookup(s, e.packet.id).None? ==> e.packet.drawn !in s.ctos
  }

  lemma StepApart(s: State, e: Event)
    requires Good(s) && Apart(s) && Possible(s, e) && WellDrawn(s, e)
    ensures Apart(Step(s, e))
  {
    match e
    case Arrival(p) =>
      AfterReadKeeps(s, p);
      if Lookup(s, p.id).None? {
        AcceptApart(s, p.id, p.drawn);
      }
    case Writable(order, rv) =>
      AfterWriteFewer(s, order, rv);
    case Timeout(k) =>
    case Disconnect =>
  }

  lemma {:induction false} AfterWriteFewer(s: State, order: seq<nat>, rv: map<nat, Outcome>)
    requires Walkable(s, order, rv)
    ensures var t := AfterWrite(s, order, rv);
            && t.handlers.Keys <= s.handlers.Keys
            && forall c :: c in t.ctos ==> c in s.ctos && t.ctos[c] == s.ctos[c]
    decreases |order|
  {
    if order != [] && !rv[order[0]].SendNonFatal? {
      if rv[order[0]].Failed? {
        var h := s.handlers[order[0]];
        AfterWriteFewer(State(s.handlers - {order[0]}, s.ctos - {h.clientId}), order[1..], rv);
      } else {
        AfterWriteFewer(s, order[1..], rv);
      }
    }
  }

  /** If no id is ever drawn that is a client's, then in every reachable state a packet with the id of a
      known client finds the handler of that client. */
  lemma {:induction false} AlwaysRouted(states: seq<State>, events: seq<Event>, n: nat, id: nat)
    requires IsRun(states, events) && n < |states|
    requires forall i :: 0 <= i < |events| ==> WellDrawn(states[i], events[i])
    ensures Apart(states[n]) && Good(states[n])
    ensures id in states[n].ctos ==>
      Lookup(states[n], id) == Some(states[n].ctos[id]) && states[n].ctos[id] in states[n].handlers &&
      states[n].handlers[states[n].ctos[id]].clientId == id
  {
    AlwaysGood(states, events, n, id);
    if n > 0 {
      AlwaysRouted(states, events, n - 1, id);
      assert WellDrawn(states[n - 1], events[n - 1]);
      StepApart(states[n - 1], events[n - 1]);
    }
  }

  /** A timeout removes the handler and both its keys. */
  lemma TimeoutExact(s: State, k: nat, x: nat)
    requires Good(s) && k in s.handlers
    ensures var t := Step(s, Timeout(k));
            && (x in t.handlers <==> x in s.handlers && x != k)
            && (x in t.ctos <==> x in s.ctos && s.ctos[x] != k)
  {
  }

  // The server.

  class Server {
    var handlers: map<nat, Handler>
    var ctos: map<nat, nat>

    ghost function Value(): State
      reads this
    {
      State(handlers, ctos)
    }

    constructor ()
      ensures Value() == State(map[], map[])
    {
      handlers, ctos := map[], map[];
    }

    method RemoveHandler(h: Handler)
      modifies this
      ensures Value() == Remove(old(Value()), h)
      ensures handlers == old(handlers) - {h.connId} && ctos == old(ctos) - {h.clientId}
    {
      ctos := ctos - {h.clientId};
      handlers := handlers - {h.connId};
    }

    method OnRead(p: Packet)
      requires Good(Value()) && Fresh(Value(), p)
      modifies this
      ensures Value() == Step(old(Value()), Arrival(p)) == AfterRead(old(Value()), p) && Good(Value())
    {
      AfterReadKeeps(Value(), p);
      var key := p.id;
      if key !in handlers {
        if key !in ctos {
          if !p.acceptable || !p.read.Ok? || !(p.write.Ok? || p.write.SendNonFatal?) {
            return;
          }
          handlers := Emplace(handlers, p.drawn, Handler(p.drawn, p.id));
          ctos := Emplace(ctos, p.id, p.drawn);
          return;
        }
        key := ctos[key];
        assert key in handlers;
      }
      var h := handlers[key];
      if p.closing {
        if p.close.CloseWait? || p.close.Failed? {
          RemoveHandler(h);
        }
      } else if !p.draining {
        if !p.read.Ok? {
          if !p.read.CloseWait? {
            RemoveHandler(h);
          }
        } else if p.write.Failed? {
          RemoveHandler(h);
        }
      }
    }

    method OnWrite(order: seq<nat>, rv: map<nat, Outcome>)
      requires Good(Value()) && Possible(Value(), Writable(order, rv))
      modifies this
      ensures Value() == Step(old(Value()), Writable(order, rv)) == AfterWrite(old(Value()), order, rv) && Good(Value())
    {
      AfterWriteKeeps(Value(), order, rv);
      ghost var final := AfterWrite(Value(), order, rv);
      var todo := order;
      while todo != [] && !rv[todo[0]].SendNonFatal?
        invariant Good(Value()) && Walkable(Value(), todo, rv)
        invariant AfterWrite(Value(), todo, rv) == final
        decreases |todo|
      {
        if rv[todo[0]].Failed? {
          RemoveKeeps(Value(), todo[0]);
          RemoveHandler(handlers[todo[0]]);
        }
        todo := todo[1..];
      }
    }

    /** Gives up all handlers, one by one. */
    method DisconnectAll()
      requires Good(Value())
      modifies this
      ensures Value() == Step(old(Value()), Disconnect) && handlers == map[] && ctos == map[]
    {
      while handlers.Keys != {}
        invariant Good(Value())
        decreases |handlers|
      {
        var k :| k in handlers.Keys;
        RemoveKeeps(Value(), k);
        RemoveHandler(handlers[k]);
      }
      assert ctos.Keys == {};
    }
  }
}
