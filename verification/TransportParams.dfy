/** The transport parameters exchanged in the handshake (Polygon/lib/ngtcp2_crypto.c): those of the
    protocol and Polygon's own. The integer parameters are indexed by their id on the wire. */
module TransportParams {
  import opened Basics
  import opened Numbers
  import opened Wire

  const INITIAL_MAX_STREAM_DATA: nat := 0
  const INITIAL_MAX_DATA: nat := 1
  const INITIAL_MAX_STREAM_ID_BIDI: nat := 2
  const IDLE_TIMEOUT: nat := 3
  const OMIT_CONNECTION_ID: nat := 4
  const MAX_PACKET_SIZE: nat := 5
  const STATELESS_RESET_TOKEN: nat := 6
  const ACK_DELAY_EXPONENT: nat := 7
  const INITIAL_MAX_STREAM_ID_UNI: nat := 8
  const SERVER_UNICAST_IP: nat := 9
  const CLIENT_IP: nat := 15
  const KNOWN: nat := 18

  const MAX_PKT_SIZE: nat := 65527
  const DEFAULT_ACK_DELAY_EXPONENT: nat := 3

  /** The three handshake messages, with the versions they carry. */
  datatype Header =
    | ClientHello(initial: nat)
    | EncryptedExtensions(negotiated: nat, supported: seq<nat>)
    | NewSessionTicket

  datatype Kind = Hello | Extensions | Ticket

  function KindOf(h: Header): Kind {
    match h
    case ClientHello(_) => Hello
    case EncryptedExtensions(_, _) => Extensions
    case NewSessionTicket => Ticket
  }

  /** `values[id]` is the integer parameter `id`; the entry of the token is unused. */
  datatype Params = Params(header: Header, values: seq<nat>, token: seq<byte>)

  /** The bytes that the value of a parameter takes. */
  function WidthOf(id: nat): (w: nat)
    ensures w <= 16
  {
    if id == IDLE_TIMEOUT || id == MAX_PACKET_SIZE then 2
    else if id == OMIT_CONNECTION_ID then 0
    else if id == STATELESS_RESET_TOKEN then TOKEN_LEN
    else if id == ACK_DELAY_EXPONENT then 1
    else if id >= CLIENT_IP then 8
    else 4
  }

  /** The order in which they are written. */
  const ORDER: seq<nat> := [0, 1, 3, 6, 2, 8, 4, 5, 9, 10, 11, 12, 13, 14, 15, 16, 17, 7]

  /** Required parameters are always written, the others when they differ from their default. */
  predicate Present(p: Params, id: nat)
    requires |p.values| == KNOWN && id < KNOWN
  {
    if id == INITIAL_MAX_STREAM_DATA || id == INITIAL_MAX_DATA || id == IDLE_TIMEOUT then true
    else if id == STATELESS_RESET_TOKEN then !p.header.ClientHello?
    else if id == MAX_PACKET_SIZE then p.values[id] != MAX_PKT_SIZE
    else if id == ACK_DELAY_EXPONENT then p.values[id] != DEFAULT_ACK_DELAY_EXPONENT
    else p.values[id] != 0
  }

  predicate HeaderFits(h: Header) {
    match h
    case ClientHello(v) => v < 0x1_0000_0000
    case EncryptedExtensions(v, supported) =>
      v < 0x1_0000_0000 && |supported| <= 63 && forall i :: 0 <= i < |supported| ==> supported[i] < 0x1_0000_0000
    case NewSessionTicket => true
  }

  /** The fields are in the range of their C types. */
  ghost predicate Fits(p: Params) {
    && HeaderFits(p.header) && |p.token| == TOKEN_LEN && |p.values| == KNOWN
    && p.values[OMIT_CONNECTION_ID] < 0x100 && p.values[STATELESS_RESET_TOKEN] == 0
    && forall id :: 0 <= id < KNOWN && id != OMIT_CONNECTION_ID ==> p.values[id] < Pow256(WidthOf(id))
  }

  // Encoding.

  function PutVersions(vs: seq<nat>): (r: seq<byte>)
    requires forall i :: 0 <= i < |vs| ==> vs[i] < 0x1_0000_0000
    ensures |r| == 4 * |vs|
  {
    Powers();
    if vs == [] then [] else PutUint(vs[0], 4) + PutVersions(vs[1..])
  }

  function PutHeader(h: Header): seq<byte>
    requires HeaderFits(h)
  {
    Powers();
    match h
    case ClientHello(v) => PutUint(v, 4)
    case EncryptedExtensions(v, supported) => PutUint(v, 4) + ([(4 * |supported|) as byte] + PutVersions(supported))
    case NewSessionTicket => []
  }

  /** Type, length and value. */
  function PutTlv(id: nat, value: seq<byte>): (r: seq<byte>)
    requires id < 0x1_0000 && |value| < 0x1_0000
    ensures |r| == 4 + |value|
  {
    Powers();
    PutUint(id, 2) + PutUint(|value|, 2) + value
  }

  function ValueBytes(p: Params, id: nat): (r: seq<byte>)
    requires Fits(p) && id < KNOWN
    ensures |r| == WidthOf(id)
  {
    if id == STATELESS_RESET_TOKEN then p.token
    else if id == OMIT_CONNECTION_ID then []
    else PutUint(p.values[id], WidthOf(id))
  }

  predicate Known(ids: seq<nat>) {
    forall i :: 0 <= i < |ids| ==> ids[i] < KNOWN
  }

  function PutAll(p: Params, ids: seq<nat>): seq<byte>
    requires Fits(p) && Known(ids)
  {
    if ids == [] then []
    else (if Present(p, ids[0]) then PutTlv(ids[0], ValueBytes(p, ids[0])) else []) + PutAll(p, ids[1..])
  }

  lemma {:induction false} PutAllLen(p: Params, ids: seq<nat>)
    requires Fits(p) && Known(ids)
    ensures |PutAll(p, ids)| <= 20 * |ids|
  {
    if ids != [] {
      PutAllLen(p, ids[1..]);
    }
  }

  /** A block of parameters behind its length. */
  function PutBlock(h: Header, body: seq<byte>): seq<byte>
    requires HeaderFits(h) && |body| < 0x1_0000
  {
    Powers();
    PutHeader(h) + (PutUint(|body|, 2) + body)
  }

  function Encode(p: Params): seq<byte>
    requires Fits(p)
  {
    OrderKnown();
    PutAllLen(p, ORDER);
    PutBlock(p.header, PutAll(p, ORDER))
  }

  // Decoding.

  datatype Error = Malformed | Required

  datatype Result<T> = Ok(value: T) | Err(error: Error)

  /** What the decoder has collected: the destination so far and the parameters seen. */
  datatype Found = Found(values: seq<nat>, token: seq<byte>, seen: set<nat>)

  /** Stream ids must be of the peer's kind, and the exponent is bounded. */
  predicate Acceptable(kind: Kind, id: nat, n: nat) {
    && (id == INITIAL_MAX_STREAM_ID_BIDI ==> n % 4 == if kind.Hello? then 1 else 0)
    && (id == INITIAL_MAX_STREAM_ID_UNI ==> n % 4 == if kind.Hello? then 3 else 2)
    && (id == ACK_DELAY_EXPONENT ==> n <= 20)
    && (id == STATELESS_RESET_TOKEN ==> !kind.Hello?)
  }

  /** The integer that a value stands for; the omit flag has no bytes and stands for 1. */
  function NumberOf(id: nat, value: seq<byte>): nat {
    if id == OMIT_CONNECTION_ID then 1 else if id == STATELESS_RESET_TOKEN then 0 else GetUint(value)
  }

  function Store(st: Found, id: nat, value: seq<byte>): (r: Found)
    requires |st.values| == KNOWN && id < KNOWN
    ensures |r.values| == KNOWN
  {
    Found(st.values[id := NumberOf(id, value)], if id == STATELESS_RESET_TOKEN then value else st.token, st.seen + {id})
  }

  predicate Admits(kind: Kind, id: nat, value: seq<byte>) {
    id < KNOWN ==> |value| == WidthOf(id) && Acceptable(kind, id, NumberOf(id, value))
  }

  /** Unknown parameters are passed over. */
  function Absorb(st: Found, id: nat, value: seq<byte>): (r: Found)
    requires |st.values| == KNOWN
    ensures |r.values| == KNOWN
  {
    if id < KNOWN then Store(st, id, value) else st
  }

  /** Type, length and value at the front. */
  function TakeTlv(s: seq<byte>): (r: Option<Read<(nat, seq<byte>)>>)
    ensures r.Some? ==> |r.value.rest| < |s|
  {
    var id :- TakeUint(s, 2);
    var n :- TakeUint(id.rest, 2);
    var value :- TakeBytes(n.rest, n.value);
    Some(Read((id.value, value.value), value.rest))
  }

  function Collect(kind: Kind, s: seq<byte>, st: Found): (r: Result<Found>)
    requires |st.values| == KNOWN
    ensures r.Ok? ==> |r.value.values| == KNOWN
    decreases |s|
  {
    if s == [] then Ok(st)
    else match TakeTlv(s)
      case None => Err(Malformed)
      case Some(t) =>
        if Admits(kind, t.value.0, t.value.1) then Collect(kind, t.rest, Absorb(st, t.value.0, t.value.1))
        else Err(Malformed)
  }

  function TakeVersions(s: seq<byte>, n: nat): Option<Read<seq<nat>>> {
    if n == 0 then Some(Read([], s)) else
    var v :- TakeUint(s, 4);
    var vs :- TakeVersions(v.rest, n - 1);
    Some(Read([v.value] + vs.value, vs.rest))
  }

  function TakeHeader(kind: Kind, s: seq<byte>): Option<Read<Header>> {
    match kind
    case Hello =>
      var v :- TakeUint(s, 4);
      Some(Read(ClientHello(v.value), v.rest))
    case Extensions =>
      var v :- TakeUint(s, 4);
      if v.rest == [] || v.rest[0] % 4 != 0 then None else
      var vs :- TakeVersions(v.rest[1..], v.rest[0] as nat / 4);
      Some(Read(EncryptedExtensions(v.value, vs.value), vs.rest))
    case Ticket => Some(Read(NewSessionTicket, s))
  }

  /** Missing parameters: an error for the required ones, a default for some, and for the others the
      destination keeps what it held. */
  function Finish(h: Header, st: Found): Result<Params>
    requires |st.values| == KNOWN
  {
    if !({0, 1, 3} <= st.seen) || (!h.ClientHello? && STATELESS_RESET_TOKEN !in st.seen) then Err(Required)
    else Ok(Params(h, WithDefaults(st), st.token))
  }

  function WithDefaults(st: Found): (r: seq<nat>)
    requires |st.values| == KNOWN
    ensures |r| == KNOWN
    ensures forall i :: 0 <= i < KNOWN ==> r[i] == if i in st.seen then st.values[i] else Default(i, st.values[i])
  {
    seq(KNOWN, i requires 0 <= i < KNOWN => if i in st.seen then st.values[i] else Default(i, st.values[i]))
  }

  function Default(id: nat, held: nat): nat {
    if id == INITIAL_MAX_STREAM_ID_BIDI || id == INITIAL_MAX_STREAM_ID_UNI || id == OMIT_CONNECTION_ID then 0
    else if id == MAX_PACKET_SIZE then MAX_PKT_SIZE
    else if id == ACK_DELAY_EXPONENT then DEFAULT_ACK_DELAY_EXPONENT
    else held
  }

  function DecodeBody(h: Header, body: seq<byte>, values: seq<nat>, token: seq<byte>): Result<Params>
    requires |values| == KNOWN
  {
    match Collect(KindOf(h), body, Found(values, token, {}))
    case Err(e) => Err(e)
    case Ok(st) => Finish(h, st)
  }

  /** Decodes a block into a destination that holds `values` and `token`. */
  function Decode(kind: Kind, s: seq<byte>, values: seq<nat>, token: seq<byte>): Result<Params>
    requires |values| == KNOWN
  {
    match TakeHeader(kind, s)
    case None => Err(Malformed)
    case Some(h) =>
      match TakeUint(h.rest, 2)
      case None => Err(Malformed)
      case Some(n) =>
        if n.value != |n.rest| then Err(Malformed) else DecodeBody(h.value, n.rest, values, token)
  }

  // Round trip.

  lemma TakeTlvPut(id: nat, value: seq<byte>, rest: seq<byte>)
    requires id < 0x1_0000 && |value| < 0x1_0000
    ensures TakeTlv(PutTlv(id, value) + rest) == Some(Read((id, value), rest))
  {
    Powers();
    var a, b := PutUint(id, 2), PutUint(|value|, 2);
    assert PutTlv(id, value) + rest == a + (b + (value + rest));
    TakeUintPut(id, 2, b + (value + rest));
    TakeUintPut(|value|, 2, value + rest);
    TakeBytesPut(value, rest);
  }

  lemma CollectOne(kind: Kind, id: nat, value: seq<byte>, rest: seq<byte>, st: Found)
    requires |st.values| == KNOWN && id < 0x1_0000 && |value| < 0x1_0000
    ensures Collect(kind, PutTlv(id, value) + rest, st) ==
      if Admits(kind, id, value) then Collect(kind, rest, Absorb(st, id, value)) else Err(Malformed)
  {
    TakeTlvPut(id, value, rest);
  }

  /** What arrives of a parameter that is written: of the omit flag only that it is set. */
  function Carried(p: Params, id: nat): nat
    requires |p.values| == KNOWN && id < KNOWN
  {
    if id == OMIT_CONNECTION_ID then 1 else p.values[id]
  }

  lemma ValueRoundTrip(p: Params, id: nat)
    requires Fits(p) && id < KNOWN && Present(p, id)
    ensures NumberOf(id, ValueBytes(p, id)) == Carried(p, id)
  {
    if id != STATELESS_RESET_TOKEN && id != OMIT_CONNECTION_ID {
      UintRoundTrip(p.values[id], WidthOf(id));
    }
  }

  /** The parameters that are written pass the checks of the decoder. */
  ghost predicate Sound(p: Params, ids: seq<nat>)
    requires |p.values| == KNOWN && Known(ids)
  {
    forall i :: 0 <= i < |ids| && Present(p, ids[i]) ==> Acceptable(KindOf(p.header), ids[i], p.values[ids[i]])
  }

  function StoreAll(p: Params, ids: seq<nat>, st: Found): (r: Found)
    requires Fits(p) && Known(ids) && |st.values| == KNOWN
    ensures |r.values| == KNOWN
    decreases |ids|
  {
    if ids == [] then st
    else StoreAll(p, ids[1..], if Present(p, ids[0]) then Store(st, ids[0], ValueBytes(p, ids[0])) else st)
  }

  lemma {:induction false} CollectAll(p: Params, ids: seq<nat>, st: Found)
    requires Fits(p) && Known(ids) && |st.values| == KNOWN
    ensures Collect(KindOf(p.header), PutAll(p, ids), st) ==
      if Sound(p, ids) then Ok(StoreAll(p, ids, st)) else Err(Malformed)
    decreases |ids|
  {
    if ids != [] {
      var id := ids[0];
      var st' := if Present(p, id) then Store(st, id, ValueBytes(p, id)) else st;
      SoundStep(p, ids);
      CollectAll(p, ids[1..], st');
      if Present(p, id) {
        ValueRoundTrip(p, id);
        CollectOne(KindOf(p.header), id, ValueBytes(p, id), PutAll(p, ids[1..]), st);
      } else {
        assert PutAll(p, ids) == PutAll(p, ids[1..]);
      }
    }
  }

  lemma SoundStep(p: Params, ids: seq<nat>)
    requires |p.values| == KNOWN && Known(ids) && ids != []
    ensures var first := Present(p, ids[0]) ==> Acceptable(KindOf(p.header), ids[0], p.values[ids[0]]);
            Sound(p, ids) == (Sound(p, ids[1..]) && first)
  {
    assert ids == [ids[0]] + ids[1..];
  }

  lemma {:induction false} StoreAllIs(p: Params, ids: seq<nat>, st: Found, k: nat)
    requires Fits(p) && Known(ids) && |st.values| == KNOWN && k < KNOWN
    ensures var r := StoreAll(p, ids, st);
      && r.values[k] == (if k in ids && Present(p, k) then Carried(p, k) else st.values[k])
      && (k in r.seen <==> k in st.seen || (k in ids && Present(p, k)))
      && r.token == if STATELESS_RESET_TOKEN in ids && Present(p, STATELESS_RESET_TOKEN) then p.token else st.token
    decreases |ids|
  {
    if ids != [] {
      var id := ids[0];
      if Present(p, id) {
        ValueRoundTrip(p, id);
      }
      StoreAllIs(p, ids[1..], if Present(p, id) then Store(st, id, ValueBytes(p, id)) else st, k);
      assert ids == [id] + ids[1..];
    }
  }

  lemma {:induction false} VersionsRoundTrip(vs: seq<nat>, rest: seq<byte>)
    requires forall i :: 0 <= i < |vs| ==> vs[i] < 0x1_0000_0000
    ensures TakeVersions(PutVersions(vs) + rest, |vs|) == Some(Read(vs, rest))
  {
    Powers();
    if vs == [] {
      assert PutVersions(vs) + rest == rest;
    } else {
      var a, b := PutUint(vs[0], 4), PutVersions(vs[1..]);
      Assoc(a, b, rest);
      TakeUintPut(vs[0], 4, b + rest);
      VersionsRoundTrip(vs[1..], rest);
      assert [vs[0]] + vs[1..] == vs;
    }
  }

  lemma HeaderRoundTrip(h: Header, rest: seq<byte>)
    requires HeaderFits(h)
    ensures TakeHeader(KindOf(h), PutHeader(h) + rest) == Some(Read(h, rest))
  {
    Powers();
    match h
    case ClientHello(v) => TakeUintPut(v, 4, rest);
    case EncryptedExtensions(v, supported) =>
      var a, n, b := PutUint(v, 4), [(4 * |supported|) as byte], PutVersions(supported);
      Assoc(a, n + b, rest);
      Assoc(n, b, rest);
      TakeUintPut(v, 4, n + (b + rest));
      assert (n + (b + rest))[1..] == b + rest;
      VersionsRoundTrip(supported, rest);
    case NewSessionTicket => assert PutHeader(h) + rest == rest;
  }

  lemma DecodeBlock(h: Header, body: seq<byte>, values: seq<nat>, token: seq<byte>)
    requires HeaderFits(h) && |body| < 0x1_0000 && |values| == KNOWN
    ensures Decode(KindOf(h), PutBlock(h, body), values, token) == DecodeBody(h, body, values, token)
  {
    Powers();
    HeaderRoundTrip(h, PutUint(|body|, 2) + body);
    TakeUintPut(|body|, 2, body);
  }

  lemma OrderKnown()
    ensures Known(ORDER) && forall k :: 0 <= k < KNOWN ==> k in ORDER
  {
    assert ORDER[0] == 0 && ORDER[1] == 1 && ORDER[4] == 2 && ORDER[2] == 3 && ORDER[6] == 4 && ORDER[7] == 5;
    assert ORDER[3] == 6 && ORDER[17] == 7 && ORDER[5] == 8 && ORDER[8] == 9 && ORDER[9] == 10 && ORDER[10] == 11;
    assert ORDER[11] == 12 && ORDER[12] == 13 && ORDER[13] == 14;
    assert ORDER[14] == 15 && ORDER[15] == 16 && ORDER[16] == 17;
  }

  predicate Complete(ids: seq<nat>) {
    Known(ids) && forall k :: 0 <= k < KNOWN ==> k in ids
  }

  /** The decoded parameters: those that were written, defaults for some of the others, and for the
      rest what the destination held. */
  function Merged(p: Params, values: seq<nat>, token: seq<byte>): (r: Params)
    requires |p.values| == KNOWN && |values| == KNOWN
    ensures |r.values| == KNOWN
  {
    Params(p.header,
           seq(KNOWN, i requires 0 <= i < KNOWN => if Present(p, i) then Carried(p, i) else Default(i, values[i])),
           if p.header.ClientHello? then token else p.token)
  }

  /** The decoder has found exactly what was written. */
  ghost predicate FoundAll(p: Params, r: Found, values: seq<nat>)
    requires |p.values| == KNOWN && |values| == KNOWN
  {
    && |r.values| == KNOWN
    && (forall k :: 0 <= k < KNOWN ==> (k in r.seen <==> Present(p, k)))
    && (forall k :: 0 <= k < KNOWN ==> r.values[k] == if Present(p, k) then Carried(p, k) else values[k])
  }

  lemma FinishFound(p: Params, r: Found, values: seq<nat>, token: seq<byte>)
    requires |p.values| == KNOWN && |values| == KNOWN && FoundAll(p, r, values)
    requires r.token == if p.header.ClientHello? then token else p.token
    ensures Finish(p.header, r) == Ok(Merged(p, values, token))
  {
    assert 0 in r.seen && 1 in r.seen && 3 in r.seen;
    assert !p.header.ClientHello? ==> STATELESS_RESET_TOKEN in r.seen;
    assert WithDefaults(r) == Merged(p, values, token).values;
  }

  lemma FinishMerged(p: Params, ids: seq<nat>, values: seq<nat>, token: seq<byte>)
    requires Fits(p) && Complete(ids) && |values| == KNOWN
    ensures Finish(p.header, StoreAll(p, ids, Found(values, token, {}))) == Ok(Merged(p, values, token))
  {
    var st := Found(values, token, {});
    var r := StoreAll(p, ids, st);
    forall k | 0 <= k < KNOWN
      ensures k in r.seen <==> Present(p, k)
      ensures r.values[k] == if Present(p, k) then Carried(p, k) else values[k]
    {
      StoreAllIs(p, ids, st, k);
    }
    StoreAllIs(p, ids, st, 0);
    FinishFound(p, r, values, token);
  }

  lemma DecodeWritten(p: Params, ids: seq<nat>, values: seq<nat>, token: seq<byte>)
    requires Fits(p) && Complete(ids) && |values| == KNOWN
    ensures DecodeBody(p.header, PutAll(p, ids), values, token) ==
      if Sound(p, ids) then Ok(Merged(p, values, token)) else Err(Malformed)
  {
    CollectAll(p, ids, Found(values, token, {}));
    FinishMerged(p, ids, values, token);
  }

  /** The stream ids are of the peer's kind and the exponent is at most 20. */
  predicate Lawful(p: Params)
    requires |p.values| == KNOWN
  {
    var hello := p.header.ClientHello?;
    var bidi, uni := p.values[INITIAL_MAX_STREAM_ID_BIDI], p.values[INITIAL_MAX_STREAM_ID_UNI];
    && (bidi == 0 || bidi % 4 == if hello then 1 else 0)
    && (uni == 0 || uni % 4 == if hello then 3 else 2)
    && p.values[ACK_DELAY_EXPONENT] <= 20
  }

  lemma SoundIsLawful(p: Params, ids: seq<nat>)
    requires Fits(p) && Complete(ids)
    ensures Sound(p, ids) <==> Lawful(p)
  {
    assert INITIAL_MAX_STREAM_ID_BIDI in ids && INITIAL_MAX_STREAM_ID_UNI in ids && ACK_DELAY_EXPONENT in ids;
    var i :| 0 <= i < |ids| && ids[i] == INITIAL_MAX_STREAM_ID_BIDI;
    var j :| 0 <= j < |ids| && ids[j] == INITIAL_MAX_STREAM_ID_UNI;
    var k :| 0 <= k < |ids| && ids[k] == ACK_DELAY_EXPONENT;
  }

  /** Decoding an encoded block succeeds exactly for lawful parameters, and then gives them back up to
      what was not written. */
  lemma ParamsRoundTrip(p: Params, values: seq<nat>, token: seq<byte>)
    requires Fits(p) && |values| == KNOWN
    ensures Decode(KindOf(p.header), Encode(p), values, token) ==
      if Lawful(p) then Ok(Merged(p, values, token)) else Err(Malformed)
  {
    OrderKnown();
    PutAllLen(p, ORDER);
    DecodeBlock(p.header, PutAll(p, ORDER), values, token);
    DecodeWritten(p, ORDER, values, token);
    SoundIsLawful(p, ORDER);
  }

  /** The destination holds nothing where `p` leaves one of Polygon's own parameters out, and in a
      client's message the token, which is not sent; and the omit flag is 0 or 1. */
  predicate Clean(p: Params, values: seq<nat>, token: seq<byte>)
    requires |p.values| == KNOWN && |values| == KNOWN
  {
    && p.values[OMIT_CONNECTION_ID] <= 1
    && (forall i :: SERVER_UNICAST_IP <= i < KNOWN ==> p.values[i] != 0 || values[i] == 0)
    && (p.header.ClientHello? ==> token == p.token && values[STATELESS_RESET_TOKEN] == 0)
  }

  /** The same parameters come back exactly when they are lawful and the destination is clean: absent
      Polygon parameters are not reset, and any other omit flag comes back as 1. */
  lemma ExactRoundTrip(p: Params, values: seq<nat>, token: seq<byte>)
    requires Fits(p) && |values| == KNOWN
    ensures Decode(KindOf(p.header), Encode(p), values, token) == Ok(p) <==> Lawful(p) && Clean(p, values, token)
  {
    ParamsRoundTrip(p, values, token);
    MergedExact(p, values, token);
  }

  lemma MergedAt(p: Params, values: seq<nat>, token: seq<byte>, i: nat)
    requires Fits(p) && |values| == KNOWN && i < KNOWN
    ensures Merged(p, values, token).values[i] == p.values[i] <==>
      (i >= SERVER_UNICAST_IP ==> p.values[i] != 0 || values[i] == 0) &&
      (i == STATELESS_RESET_TOKEN && p.header.ClientHello? ==> values[i] == 0) &&
      (i == OMIT_CONNECTION_ID ==> p.values[i] <= 1)
  {
  }

  lemma MergedExact(p: Params, values: seq<nat>, token: seq<byte>)
    requires Fits(p) && |values| == KNOWN
    ensures Merged(p, values, token) == p <==> Clean(p, values, token)
  {
    var m := Merged(p, values, token);
    forall i | 0 <= i < KNOWN
      ensures m.values[i] == p.values[i] <==>
        (i >= SERVER_UNICAST_IP ==> p.values[i] != 0 || values[i] == 0) &&
        (i == STATELESS_RESET_TOKEN && p.header.ClientHello? ==> values[i] == 0) &&
        (i == OMIT_CONNECTION_ID ==> p.values[i] <= 1)
    {
      MergedAt(p, values, token, i);
    }
    assert m.values == p.values <==> forall i :: 0 <= i < KNOWN ==> m.values[i] == p.values[i];
  }

  // Unknown parameters.

  lemma {:induction false} CollectAppend(kind: Kind, a: seq<byte>, b: seq<byte>, st: Found)
    requires |st.values| == KNOWN && Collect(kind, a, st).Ok?
    ensures Collect(kind, a + b, st) == Collect(kind, b, Collect(kind, a, st).value)
    decreases |a|
  {
    if a == [] {
      assert a + b == b;
    } else {
      var t := TakeTlv(a).value;
      TakeTlvAppend(a, b);
      CollectAppend(kind, t.rest, b, Absorb(st, t.value.0, t.value.1));
    }
  }

  lemma TakeTlvAppend(a: seq<byte>, b: seq<byte>)
    requires TakeTlv(a).Some?
    ensures a + b != [] && TakeTlv(a + b) == Some(Read(TakeTlv(a).value.value, TakeTlv(a).value.rest + b))
  {
    var n := GetUint(a[2..][..2]);
    var s := a + b;
    assert s[..2] == a[..2] && s[2..] == a[2..] + b && s[2..][..2] == a[2..][..2];
    assert s[2..][2..] == a[2..][2..] + b;
    assert s[2..][2..][..n] == a[2..][2..][..n] && s[2..][2..][n..] == a[2..][2..][n..] + b;
  }

  /** A well-formed parameter with an unknown type, put between any two parameters of a block with
      the length adjusted, does not change what is decoded. */
  lemma UnknownIgnored(h: Header, a: seq<byte>, id: nat, value: seq<byte>, b: seq<byte>, values: seq<nat>,
                       token: seq<byte>)
    requires HeaderFits(h) && |values| == KNOWN && |a| + 4 + |value| + |b| < 0x1_0000 && KNOWN <= id < 0x1_0000
    requires Collect(KindOf(h), a, Found(values, token, {})).Ok?
    ensures Decode(KindOf(h), PutBlock(h, a + (PutTlv(id, value) + b)), values, token)
         == Decode(KindOf(h), PutBlock(h, a + b), values, token)
  {
    var u, kind := PutTlv(id, value), KindOf(h);
    var st0 := Found(values, token, {});
    var st := Collect(kind, a, st0).value;
    CollectAppend(kind, a, b, st0);
    CollectAppend(kind, a, u + b, st0);
    CollectOne(kind, id, value, b, st);
    DecodeBlock(h, a + (u + b), values, token);
    DecodeBlock(h, a + b, values, token);
  }

  // The length that the encoder works out before it writes.

  function VersionsLen(h: Header): nat {
    match h
    case ClientHello(_) => 4
    case EncryptedExtensions(_, supported) => 4 + 1 + 4 * |supported|
    case NewSessionTicket => 0
  }

  function If(b: bool, n: nat): nat {
    if b then n else 0
  }

  function EncodedLen(p: Params): nat
    requires |p.values| == KNOWN
  {
    2 + VersionsLen(p.header) + CommonLen(p) + OptionsLen(p) + RequestLen(p)
  }

  function CommonLen(p: Params): nat
    requires |p.values| == KNOWN
  {
    8 + 8 + 6 + If(!p.header.ClientHello?, 20) + If(p.values[2] != 0, 8) + If(p.values[8] != 0, 8)
  }

  function OptionsLen(p: Params): nat
    requires |p.values| == KNOWN
  {
    If(p.values[4] != 0, 4) + If(p.values[5] != MAX_PKT_SIZE, 6) + If(p.values[9] != 0, 8)
    + If(p.values[10] != 0, 8) + If(p.values[11] != 0, 8) + If(p.values[12] != 0, 8)
  }

  function RequestLen(p: Params): nat
    requires |p.values| == KNOWN
  {
    If(p.values[13] != 0, 8) + If(p.values[14] != 0, 8) + If(p.values[15] != 0, 12) + If(p.values[16] != 0, 12)
    + If(p.values[17] != 0, 12) + If(p.values[7] != DEFAULT_ACK_DELAY_EXPONENT, 5)
  }

  function LenAt(p: Params, id: nat): nat
    requires |p.values| == KNOWN && id < KNOWN
  {
    If(Present(p, id), 4 + WidthOf(id))
  }

  function SumLen(p: Params, ids: seq<nat>): nat
    requires |p.values| == KNOWN && Known(ids)
  {
    if ids == [] then 0 else LenAt(p, ids[0]) + SumLen(p, ids[1..])
  }

  lemma {:induction false} SumLenIs(p: Params, ids: seq<nat>)
    requires Fits(p) && Known(ids)
    ensures |PutAll(p, ids)| == SumLen(p, ids)
  {
    if ids != [] {
      SumLenIs(p, ids[1..]);
    }
  }

  lemma SumSix(p: Params, ids: seq<nat>, a: nat, b: nat, c: nat, d: nat, e: nat, f: nat, rest: seq<nat>)
    requires |p.values| == KNOWN && Known(ids) && ids == [a, b, c, d, e, f] + rest
    ensures Known(rest) && a < KNOWN && b < KNOWN && c < KNOWN && d < KNOWN && e < KNOWN && f < KNOWN
    ensures SumLen(p, ids) ==
      LenAt(p, a) + LenAt(p, b) + LenAt(p, c) + LenAt(p, d) + LenAt(p, e) + LenAt(p, f) + SumLen(p, rest)
  {
    assert ids[0] == a && ids[1] == b && ids[2] == c && ids[3] == d && ids[4] == e && ids[5] == f && ids[6..] == rest;
    assert forall i :: 0 <= i < |rest| ==> rest[i] == ids[6 + i];
    assert ids[1..][1..] == ids[2..] && ids[2..][1..] == ids[3..] && ids[3..][1..] == ids[4..];
    assert ids[4..][1..] == ids[5..] && ids[5..][1..] == ids[6..];
    assert SumLen(p, ids[5..]) == LenAt(p, f) + SumLen(p, rest);
    assert SumLen(p, ids[4..]) == LenAt(p, e) + SumLen(p, ids[5..]);
    assert SumLen(p, ids[3..]) == LenAt(p, d) + SumLen(p, ids[4..]);
    assert SumLen(p, ids[2..]) == LenAt(p, c) + SumLen(p, ids[3..]);
    assert SumLen(p, ids[1..]) == LenAt(p, b) + SumLen(p, ids[2..]);
  }

  lemma CommonLenIs(p: Params)
    requires |p.values| == KNOWN
    ensures LenAt(p, 0) + LenAt(p, 1) + LenAt(p, 3) + LenAt(p, 6) + LenAt(p, 2) + LenAt(p, 8) == CommonLen(p)
  {
  }

  lemma OptionsLenIs(p: Params)
    requires |p.values| == KNOWN
    ensures LenAt(p, 4) + LenAt(p, 5) + LenAt(p, 9) + LenAt(p, 10) + LenAt(p, 11) + LenAt(p, 12) == OptionsLen(p)
  {
  }

  lemma RequestLenIs(p: Params)
    requires |p.values| == KNOWN
    ensures LenAt(p, 13) + LenAt(p, 14) + LenAt(p, 15) + LenAt(p, 16) + LenAt(p, 17) + LenAt(p, 7) == RequestLen(p)
  {
  }

  lemma SumOrder(p: Params, ids: seq<nat>, t1: seq<nat>, t2: seq<nat>)
    requires |p.values| == KNOWN && Known(ids)
    requires ids == [0, 1, 3, 6, 2, 8] + t1 && t1 == [4, 5, 9, 10, 11, 12] + t2 && t2 == [13, 14, 15, 16, 17, 7] + []
    ensures SumLen(p, ids) == CommonLen(p) + OptionsLen(p) + RequestLen(p)
  {
    SumSix(p, ids, 0, 1, 3, 6, 2, 8, t1);
    SumSix(p, t1, 4, 5, 9, 10, 11, 12, t2);
    SumSix(p, t2, 13, 14, 15, 16, 17, 7, []);
    CommonLenIs(p);
    OptionsLenIs(p);
    RequestLenIs(p);
  }

  /** The encoder writes exactly the number of bytes it worked out. */
  lemma EncodedLenIs(p: Params)
    requires Fits(p)
    ensures |Encode(p)| == EncodedLen(p)
  {
    OrderKnown();
    WrittenLen(p, ORDER, [4, 5, 9, 10, 11, 12, 13, 14, 15, 16, 17, 7], [13, 14, 15, 16, 17, 7]);
    PutAllLen(p, ORDER);
    BlockLen(p.header, PutAll(p, ORDER));
  }

  lemma WrittenLen(p: Params, ids: seq<nat>, t1: seq<nat>, t2: seq<nat>)
    requires Fits(p) && Known(ids)
    requires ids == [0, 1, 3, 6, 2, 8] + t1 && t1 == [4, 5, 9, 10, 11, 12] + t2 && t2 == [13, 14, 15, 16, 17, 7] + []
    ensures |PutAll(p, ids)| == CommonLen(p) + OptionsLen(p) + RequestLen(p)
  {
    SumLenIs(p, ids);
    SumOrder(p, ids, t1, t2);
  }

  lemma BlockLen(h: Header, body: seq<byte>)
    requires HeaderFits(h) && |body| < 0x1_0000
    ensures |PutBlock(h, body)| == 2 + VersionsLen(h) + |body|
  {
  }

  // The decoder.

  method ReadVersions(s: seq<byte>, n: nat) returns (r: Option<Read<seq<nat>>>)
    ensures r == TakeVersions(s, n)
  {
    if |s| < 4 * n {
      VersionsNeed(s, n);
      return None;
    }
    var vs: seq<nat>, t := [], s;
    var left: nat := n;
    WholeStart(s, n);
    while left > 0
      invariant 4 * left <= |t| && TakeVersions(s, n) == WholeVersions(vs, t, left)
    {
      WholeStep(vs, t, left);
      vs, t := vs + [GetUint(t[..4])], t[4..];
      left := left - 1;
    }
    assert vs + [] == vs;
    return Some(Read(vs, t));
  }

  ghost function WholeVersions(done: seq<nat>, t: seq<byte>, n: nat): Option<Read<seq<nat>>> {
    var r :- TakeVersions(t, n);
    Some(Read(done + r.value, r.rest))
  }

  lemma WholeStart(s: seq<byte>, n: nat)
    ensures WholeVersions([], s, n) == TakeVersions(s, n)
  {
    if TakeVersions(s, n).Some? {
      assert [] + TakeVersions(s, n).value.value == TakeVersions(s, n).value.value;
    }
  }

  lemma WholeStep(done: seq<nat>, t: seq<byte>, n: nat)
    requires n > 0 && |t| >= 4
    ensures WholeVersions(done, t, n) == WholeVersions(done + [GetUint(t[..4])], t[4..], n - 1)
  {
    if TakeVersions(t[4..], n - 1).Some? {
      var vs := TakeVersions(t[4..], n - 1).value.value;
      assert done + ([GetUint(t[..4])] + vs) == done + [GetUint(t[..4])] + vs;
    }
  }

  lemma {:induction false} VersionsNeed(s: seq<byte>, n: nat)
    requires |s| < 4 * n
    ensures TakeVersions(s, n).None?
  {
    if |s| >= 4 {
      VersionsNeed(s[4..], n - 1);
    }
  }

  method ReadHeader(kind: Kind, s: seq<byte>) returns (r: Option<Read<Header>>)
    ensures r == TakeHeader(kind, s)
  {
    r := None;
    match kind
    case Hello =>
      if |s| >= 4 {
        r := Some(Read(ClientHello(GetUint(s[..4])), s[4..]));
      }
    case Extensions =>
      if |s| >= 5 && s[4] % 4 == 0 {
        assert s[4..][0] == s[4] && s[4..][1..] == s[5..];
        var vs := ReadVersions(s[5..], s[4] as nat / 4);
        if vs.Some? {
          r := Some(Read(EncryptedExtensions(GetUint(s[..4]), vs.value.value), vs.value.rest));
        }
      }
    case Ticket =>
      r := Some(Read(NewSessionTicket, s));
  }

  /** Fills the destination parameter by parameter; the flags of those seen decide at the end. */
  method ReadBody(h: Header, body: seq<byte>, values: seq<nat>, token: seq<byte>) returns (r: Result<Params>)
    requires |values| == KNOWN
    ensures r == DecodeBody(h, body, values, token)
  {
    var st, s := Found(values, token, {}), body;
    var kind := KindOf(h);
    ghost var total := Collect(kind, body, st);
    while s != []
      invariant |st.values| == KNOWN && total == Collect(kind, s, st)
      decreases |s|
    {
      var t := TakeTlv(s);
      if t.None? || !Admits(kind, t.value.value.0, t.value.value.1) {
        return Err(Malformed);
      }
      st, s := Absorb(st, t.value.value.0, t.value.value.1), t.value.rest;
    }
    r := Finish(h, st);
  }

  method DecodeParams(kind: Kind, data: seq<byte>, values: seq<nat>, token: seq<byte>) returns (r: Result<Params>)
    requires |values| == KNOWN
    ensures r == Decode(kind, data, values, token)
  {
    var h := ReadHeader(kind, data);
    if h.None? || |h.value.rest| < 2 {
      return Err(Malformed);
    }
    var n, body := GetUint(h.value.rest[..2]), h.value.rest[2..];
    if n != |body| {
      return Err(Malformed);
    }
    r := ReadBody(h.value.value, body, values, token);
  }
}
