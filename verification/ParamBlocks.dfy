/** The bytes of transport parameter blocks, and what a receiver makes of any list of parameters
    (Polygon/lib/ngtcp2_crypto.c). */
module ParamBlocks {
  import opened Basics
  import opened Numbers
  import opened Wire
  import opened TransportParams

  /** A parameter as it is sent: its type and the bytes of its value, whose length stands between them. */
  datatype Tlv = Tlv(id: nat, value: seq<byte>)

  predicate AllFit(ts: seq<Tlv>) {
    forall i :: 0 <= i < |ts| ==> ts[i].id < 0x1_0000 && |ts[i].value| < 0x1_0000
  }

  function TlvBytes(ts: seq<Tlv>): seq<byte>
    requires AllFit(ts)
  {
    Powers();
    if ts == [] then []
    else PutUint(ts[0].id, 2) + PutUint(|ts[0].value|, 2) + ts[0].value + TlvBytes(ts[1..])
  }

  /** The version field in front of the parameters. */
  function VersionBytes(h: Header): seq<byte>
    requires HeaderFits(h)
  {
    Powers();
    match h
    case ClientHello(v) => PutUint(v, 4)
    case EncryptedExtensions(v, supported) => PutUint(v, 4) + ([(4 * |supported|) as byte] + ListBytes(supported))
    case NewSessionTicket => []
  }

  function ListBytes(vs: seq<nat>): seq<byte>
    requires forall i :: 0 <= i < |vs| ==> vs[i] < 0x1_0000_0000
  {
    Powers();
    if vs == [] then [] else ListBytes(vs[..|vs| - 1]) + PutUint(vs[|vs| - 1], 4)
  }

  lemma {:induction false} ListIs(vs: seq<nat>)
    requires forall i :: 0 <= i < |vs| ==> vs[i] < 0x1_0000_0000
    ensures PutVersions(vs) == ListBytes(vs)
    decreases |vs|
  {
    if vs != [] {
      var n := |vs| - 1;
      ListIs(vs[..n]);
      VersionsLast(vs[..n], vs[n]);
      assert vs[..n] + [vs[n]] == vs;
    }
  }

  lemma {:induction false} VersionsLast(vs: seq<nat>, v: nat)
    requires (forall i :: 0 <= i < |vs| ==> vs[i] < 0x1_0000_0000) && v < 0x1_0000_0000
    ensures Pow256(4) == 0x1_0000_0000 && PutVersions(vs + [v]) == PutVersions(vs) + PutUint(v, 4)
    decreases |vs|
  {
    Powers();
    if vs == [] {
      assert vs + [v] == [v] && [v][1..] == [];
    } else {
      VersionsLast(vs[1..], v);
      assert (vs + [v])[1..] == vs[1..] + [v];
      Assoc(PutUint(vs[0], 4), PutVersions(vs[1..]), PutUint(v, 4));
    }
  }

  /** A whole message: version, length and parameters. */
  function Block(h: Header, ts: seq<Tlv>): seq<byte>
    requires HeaderFits(h) && AllFit(ts) && |TlvBytes(ts)| < 0x1_0000
  {
    Powers();
    VersionBytes(h) + (PutUint(|TlvBytes(ts)|, 2) + TlvBytes(ts))
  }

  lemma BlockIs(h: Header, ts: seq<Tlv>)
    requires HeaderFits(h) && AllFit(ts) && |TlvBytes(ts)| < 0x1_0000
    ensures Block(h, ts) == PutBlock(h, TlvBytes(ts))
  {
    VersionIs(h);
  }

  lemma VersionIs(h: Header)
    requires HeaderFits(h)
    ensures PutHeader(h) == VersionBytes(h)
  {
    if h.EncryptedExtensions? {
      ListIs(h.supported);
    }
  }

  // ---------- what is written ----------

  function Opt(present: bool, id: nat, value: seq<byte>): seq<Tlv> {
    if present then [Tlv(id, value)] else []
  }

  function Common(p: Params): seq<Tlv>
    requires Fits(p)
  {
    Powers();
    [Tlv(0, PutUint(p.values[0], 4)), Tlv(1, PutUint(p.values[1], 4)), Tlv(3, PutUint(p.values[3], 2))]
    + Opt(!p.header.ClientHello?, 6, p.token)
    + Opt(p.values[2] != 0, 2, PutUint(p.values[2], 4)) + Opt(p.values[8] != 0, 8, PutUint(p.values[8], 4))
  }

  function Options(p: Params): seq<Tlv>
    requires Fits(p)
  {
    Powers();
    Opt(p.values[4] != 0, 4, []) + Opt(p.values[5] != 65527, 5, PutUint(p.values[5], 2))
    + Opt(p.values[9] != 0, 9, PutUint(p.values[9], 4)) + Opt(p.values[10] != 0, 10, PutUint(p.values[10], 4))
    + Opt(p.values[11] != 0, 11, PutUint(p.values[11], 4)) + Opt(p.values[12] != 0, 12, PutUint(p.values[12], 4))
  }

  function Request(p: Params): seq<Tlv>
    requires Fits(p)
  {
    Powers();
    Opt(p.values[13] != 0, 13, PutUint(p.values[13], 4)) + Opt(p.values[14] != 0, 14, PutUint(p.values[14], 4))
    + Opt(p.values[15] != 0, 15, PutUint(p.values[15], 8)) + Opt(p.values[16] != 0, 16, PutUint(p.values[16], 8))
    + Opt(p.values[17] != 0, 17, PutUint(p.values[17], 8)) + Opt(p.values[7] != 3, 7, PutUint(p.values[7], 1))
  }

  /** One parameter, if it is written. */
  function Single(p: Params, id: nat): seq<Tlv>
    requires Fits(p) && id < KNOWN
  {
    Opt(Present(p, id), id, ValueBytes(p, id))
  }

  function Listed(p: Params, ids: seq<nat>): seq<Tlv>
    requires Fits(p) && Known(ids)
  {
    if ids == [] then [] else Single(p, ids[0]) + Listed(p, ids[1..])
  }

  lemma TlvCons(t: Tlv, ts: seq<Tlv>)
    requires AllFit(ts) && t.id < 0x1_0000 && |t.value| < 0x1_0000
    ensures AllFit([t] + ts) && TlvBytes([t] + ts) == PutTlv(t.id, t.value) + TlvBytes(ts)
  {
    assert ([t] + ts)[1..] == ts;
  }

  lemma {:induction false} ListedBytes(p: Params, ids: seq<nat>)
    requires Fits(p) && Known(ids)
    ensures AllFit(Listed(p, ids)) && TlvBytes(Listed(p, ids)) == PutAll(p, ids)
  {
    if ids != [] {
      ListedBytes(p, ids[1..]);
      var more := Listed(p, ids[1..]);
      if Present(p, ids[0]) {
        TlvCons(Tlv(ids[0], ValueBytes(p, ids[0])), more);
      } else {
        assert Single(p, ids[0]) + more == more;
      }
    }
  }

  lemma ListedThree(p: Params, ids: seq<nat>, a: nat, b: nat, c: nat, rest: seq<nat>)
    requires Fits(p) && Known(ids) && ids == [a, b, c] + rest
    ensures Known(rest) && a < KNOWN && b < KNOWN && c < KNOWN
    ensures Listed(p, ids) == Single(p, a) + (Single(p, b) + (Single(p, c) + Listed(p, rest)))
  {
    assert ids[0] == a && ids[1] == b && ids[2] == c && ids[3..] == rest;
    assert forall i :: 0 <= i < |rest| ==> rest[i] == ids[3 + i];
    assert ids[1..][1..] == ids[2..] && ids[2..][1..] == ids[3..];
    assert Listed(p, ids[2..]) == Single(p, c) + Listed(p, rest);
    assert Listed(p, ids[1..]) == Single(p, b) + Listed(p, ids[2..]);
  }

  lemma ListedSix(p: Params, ids: seq<nat>, a: nat, b: nat, c: nat, d: nat, e: nat, f: nat, rest: seq<nat>)
    requires Fits(p) && Known(ids) && ids == [a, b, c, d, e, f] + rest
    ensures Known(rest) && a < KNOWN && b < KNOWN && c < KNOWN && d < KNOWN && e < KNOWN && f < KNOWN
    ensures Listed(p, ids) ==
      Single(p, a) + (Single(p, b) + (Single(p, c) +
        (Single(p, d) + (Single(p, e) + (Single(p, f) + Listed(p, rest))))))
  {
    var tail := [d, e, f] + rest;
    assert ids == [a, b, c] + tail;
    ListedThree(p, ids, a, b, c, tail);
    ListedThree(p, tail, d, e, f, rest);
  }

  lemma AssocSix(a: seq<Tlv>, b: seq<Tlv>, c: seq<Tlv>, d: seq<Tlv>, e: seq<Tlv>, f: seq<Tlv>, rest: seq<Tlv>)
    ensures a + (b + (c + (d + (e + (f + rest))))) == a + b + c + d + e + f + rest
  {
    Assoc(a, b, c + (d + (e + (f + rest))));
    Assoc(a + b, c, d + (e + (f + rest)));
    Assoc(a + b + c, d, e + (f + rest));
    Assoc(a + b + c + d, e, f + rest);
    Assoc(a + b + c + d + e, f, rest);
  }

  lemma CommonIs(p: Params)
    requires Fits(p)
    ensures Single(p, 0) + Single(p, 1) + Single(p, 3) + Single(p, 6) + Single(p, 2) + Single(p, 8) == Common(p)
  {
    Powers();
    assert Single(p, 0) + Single(p, 1) + Single(p, 3) == Common(p)[..3];
  }

  lemma OptionsIs(p: Params)
    requires Fits(p)
    ensures Single(p, 4) + Single(p, 5) + Single(p, 9) + Single(p, 10) + Single(p, 11) + Single(p, 12) == Options(p)
  {
    Powers();
  }

  lemma FourBytes(p: Params, id: nat)
    requires Fits(p) && 9 <= id <= 14
    ensures Pow256(4) == 0x1_0000_0000 && Single(p, id) == Opt(p.values[id] != 0, id, PutUint(p.values[id], 4))
  {
    Powers();
  }

  lemma EightBytes(p: Params, id: nat)
    requires Fits(p) && 15 <= id <= 17
    ensures Pow256(8) == 0x1_0000_0000_0000_0000
    ensures Single(p, id) == Opt(p.values[id] != 0, id, PutUint(p.values[id], 8))
  {
    Powers();
  }

  lemma RequestIs(p: Params)
    requires Fits(p)
    ensures Single(p, 13) + Single(p, 14) + Single(p, 15) + Single(p, 16) + Single(p, 17) + Single(p, 7) == Request(p)
  {
    FourBytes(p, 13);
    FourBytes(p, 14);
    EightBytes(p, 15);
    EightBytes(p, 16);
    EightBytes(p, 17);
    assert Single(p, 7) == Opt(p.values[7] != 3, 7, PutUint(p.values[7], 1));
  }

  lemma ListedOrder(p: Params, ids: seq<nat>, t1: seq<nat>, t2: seq<nat>)
    requires Fits(p) && Known(ids)
    requires ids == [0, 1, 3, 6, 2, 8] + t1 && t1 == [4, 5, 9, 10, 11, 12] + t2 && t2 == [13, 14, 15, 16, 17, 7] + []
    ensures Listed(p, ids) == Common(p) + (Options(p) + Request(p))
  {
    ListedSix(p, ids, 0, 1, 3, 6, 2, 8, t1);
    ListedSix(p, t1, 4, 5, 9, 10, 11, 12, t2);
    ListedSix(p, t2, 13, 14, 15, 16, 17, 7, []);
    AssocSix(Single(p, 0), Single(p, 1), Single(p, 3), Single(p, 6), Single(p, 2), Single(p, 8), Listed(p, t1));
    AssocSix(Single(p, 4), Single(p, 5), Single(p, 9), Single(p, 10), Single(p, 11), Single(p, 12), Listed(p, t2));
    AssocSix(Single(p, 13), Single(p, 14), Single(p, 15), Single(p, 16), Single(p, 17), Single(p, 7), []);
    CommonIs(p);
    OptionsIs(p);
    RequestIs(p);
    assert Request(p) + [] == Request(p);
  }

  lemma ListedBlock(p: Params, ids: seq<nat>, t1: seq<nat>, t2: seq<nat>)
    requires Fits(p) && Known(ids) && |PutAll(p, ids)| < 0x1_0000
    requires ids == [0, 1, 3, 6, 2, 8] + t1 && t1 == [4, 5, 9, 10, 11, 12] + t2 && t2 == [13, 14, 15, 16, 17, 7] + []
    ensures var ts := Common(p) + (Options(p) + Request(p));
            && AllFit(ts) && |TlvBytes(ts)| < 0x1_0000 && PutBlock(p.header, PutAll(p, ids)) == Block(p.header, ts)
  {
    ListedBytes(p, ids);
    ListedOrder(p, ids, t1, t2);
    BlockIs(p.header, Listed(p, ids));
  }

  lemma OrderParts()
    ensures ORDER == [0, 1, 3, 6, 2, 8] + ORDER[6..]
    ensures ORDER[6..] == [4, 5, 9, 10, 11, 12] + ORDER[12..]
    ensures ORDER[12..] == [13, 14, 15, 16, 17, 7] + []
  {
  }

  /** The encoder writes the required parameters, the token unless the client sends it, and the others when
      they differ from their defaults, each with its type, its length and its value. */
  lemma EncodedAs(p: Params)
    requires Fits(p)
    ensures var ts := Common(p) + (Options(p) + Request(p));
            AllFit(ts) && |TlvBytes(ts)| < 0x1_0000 && Encode(p) == Block(p.header, ts)
  {
    OrderKnown();
    PutAllLen(p, ORDER);
    OrderParts();
    ListedBlock(p, ORDER, ORDER[6..], ORDER[12..]);
  }

  // ---------- what is read ----------

  /** The number of bytes of each known parameter. */
  const LENGTHS: seq<nat> := [4, 4, 4, 2, 0, 2, 16, 1, 4, 4, 4, 4, 4, 4, 4, 8, 8, 8]

  /** A parameter that is refused: of the wrong length, or with a value that this message cannot have. */
  predicate Bad(kind: Kind, t: Tlv) {
    t.id < 18 &&
    (|| |t.value| != LENGTHS[t.id]
     || (t.id == 2 && GetUint(t.value) % 4 != if kind.Hello? then 1 else 0)
     || (t.id == 8 && GetUint(t.value) % 4 != if kind.Hello? then 3 else 2)
     || (t.id == 7 && GetUint(t.value) > 20)
     || (t.id == 6 && kind.Hello?))
  }

  lemma AdmitsIs(kind: Kind, t: Tlv)
    ensures Admits(kind, t.id, t.value) <==> !Bad(kind, t)
  {
  }

  ghost predicate AnyBad(kind: Kind, ts: seq<Tlv>) {
    exists i :: 0 <= i < |ts| && Bad(kind, ts[i])
  }

  /** The last value of a parameter. */
  function Last(ts: seq<Tlv>, id: nat): Option<seq<byte>> {
    if ts == [] then None
    else if ts[|ts| - 1].id == id then Some(ts[|ts| - 1].value)
    else Last(ts[..|ts| - 1], id)
  }

  lemma {:induction false} LastFirst(t: Tlv, ts: seq<Tlv>, id: nat)
    ensures Last([t] + ts, id) ==
      if Last(ts, id).Some? then Last(ts, id) else if t.id == id then Some(t.value) else None
    decreases |ts|
  {
    var all := [t] + ts;
    if ts == [] {
      assert all == [t] && [t][..0] == [];
    } else {
      assert all[..|all| - 1] == [t] + ts[..|ts| - 1];
      LastFirst(t, ts[..|ts| - 1], id);
    }
  }

  /** The decoder has stored the last value of everything in the list. */
  ghost predicate Stored(ts: seq<Tlv>, st: Found, r: Found)
    requires |st.values| == KNOWN
  {
    && |r.values| == KNOWN
    && r.token == (if Last(ts, 6).Some? then Last(ts, 6).value else st.token)
    && forall k :: 0 <= k < KNOWN ==>
         && (k in r.seen <==> k in st.seen || Last(ts, k).Some?)
         && r.values[k] == if Last(ts, k).Some? then NumberOf(k, Last(ts, k).value) else st.values[k]
  }

  lemma {:induction false} CollectList(kind: Kind, ts: seq<Tlv>, st: Found)
    requires AllFit(ts) && |st.values| == KNOWN
    ensures AnyBad(kind, ts) ==> Collect(kind, TlvBytes(ts), st) == Err(Malformed)
    ensures !AnyBad(kind, ts) ==>
      Collect(kind, TlvBytes(ts), st).Ok? && Stored(ts, st, Collect(kind, TlvBytes(ts), st).value)
    decreases |ts|
  {
    if ts != [] {
      var t, more := ts[0], ts[1..];
      assert ts == [t] + more;
      TlvStep(kind, ts, st);
      BadFirst(kind, t, more);
      if !Bad(kind, t) {
        var st' := Absorb(st, t.id, t.value);
        CollectList(kind, more, st');
        if !AnyBad(kind, more) {
          StoredFirst(t, more, st, Collect(kind, TlvBytes(more), st').value);
        }
      }
    }
  }

  lemma TlvStep(kind: Kind, ts: seq<Tlv>, st: Found)
    requires AllFit(ts) && ts != [] && |st.values| == KNOWN
    ensures Collect(kind, TlvBytes(ts), st) ==
      if Bad(kind, ts[0]) then Err(Malformed)
      else Collect(kind, TlvBytes(ts[1..]), Absorb(st, ts[0].id, ts[0].value))
  {
    AdmitsIs(kind, ts[0]);
    CollectOne(kind, ts[0].id, ts[0].value, TlvBytes(ts[1..]), st);
  }

  lemma BadFirst(kind: Kind, t: Tlv, ts: seq<Tlv>)
    ensures AnyBad(kind, [t] + ts) <==> Bad(kind, t) || AnyBad(kind, ts)
  {
    var all := [t] + ts;
    if Bad(kind, t) {
      assert Bad(kind, all[0]);
    }
    if AnyBad(kind, ts) {
      var i :| 0 <= i < |ts| && Bad(kind, ts[i]);
      assert Bad(kind, all[i + 1]);
    }
  }

  lemma StoredFirst(t: Tlv, ts: seq<Tlv>, st: Found, r: Found)
    requires |st.values| == KNOWN && Stored(ts, Absorb(st, t.id, t.value), r)
    ensures Stored([t] + ts, st, r)
  {
    forall k | 0 <= k < KNOWN
      ensures k in r.seen <==> k in st.seen || Last([t] + ts, k).Some?
      ensures r.values[k] ==
        if Last([t] + ts, k).Some? then NumberOf(k, Last([t] + ts, k).value) else st.values[k]
    {
      LastFirst(t, ts, k);
    }
    LastFirst(t, ts, 6);
  }

  /** A required parameter is missing. */
  predicate Lacking(kind: Kind, ts: seq<Tlv>) {
    || Last(ts, 0).None? || Last(ts, 1).None? || Last(ts, 3).None?
    || (!kind.Hello? && Last(ts, 6).None?)
  }

  /** What the destination holds in the end. */
  function Held(ts: seq<Tlv>, k: nat, held: nat): nat {
    match Last(ts, k)
    case Some(value) => if k == 4 then 1 else if k == 6 then 0 else GetUint(value)
    case None => if k == 2 || k == 4 || k == 8 then 0 else if k == 5 then 65527 else if k == 7 then 3 else held
  }

  lemma FinishStored(h: Header, ts: seq<Tlv>, values: seq<nat>, token: seq<byte>, r: Found)
    requires |values| == KNOWN && Stored(ts, Found(values, token, {}), r)
    ensures Finish(h, r) == if Lacking(KindOf(h), ts) then Err(Required) else Ok(Params(h, WithDefaults(r), r.token))
    ensures |WithDefaults(r)| == 18 && r.token == if Last(ts, 6).Some? then Last(ts, 6).value else token
    ensures forall k :: 0 <= k < 18 ==> WithDefaults(r)[k] == Held(ts, k, values[k])
  {
    SeenStored(h, ts, values, token, r);
    forall k | 0 <= k < 18
      ensures WithDefaults(r)[k] == Held(ts, k, values[k])
    {
      HeldStored(ts, values, token, r, k);
    }
  }

  lemma SeenStored(h: Header, ts: seq<Tlv>, values: seq<nat>, token: seq<byte>, r: Found)
    requires |values| == KNOWN && Stored(ts, Found(values, token, {}), r)
    ensures Finish(h, r) == if Lacking(KindOf(h), ts) then Err(Required) else Ok(Params(h, WithDefaults(r), r.token))
  {
    assert {0, 1, 3} <= r.seen <==> 0 in r.seen && 1 in r.seen && 3 in r.seen;
  }

  lemma HeldStored(ts: seq<Tlv>, values: seq<nat>, token: seq<byte>, r: Found, k: nat)
    requires |values| == KNOWN && Stored(ts, Found(values, token, {}), r) && k < 18
    ensures WithDefaults(r)[k] == Held(ts, k, values[k])
  {
  }

  /** A block with any list of parameters: the decoder refuses it if one of them is bad or a required one
      is missing, and otherwise takes the last value of each and the defaults of those that are missing. */
  lemma BlockDecoded(h: Header, ts: seq<Tlv>, values: seq<nat>, token: seq<byte>)
    requires HeaderFits(h) && AllFit(ts) && |TlvBytes(ts)| < 0x1_0000 && |values| == KNOWN
    ensures var r := Decode(KindOf(h), Block(h, ts), values, token);
            && (r == Err(Malformed) <==> AnyBad(KindOf(h), ts))
            && (r == Err(Required) <==> !AnyBad(KindOf(h), ts) && Lacking(KindOf(h), ts))
            && (r.Ok? ==>
                  && r.value.header == h && |r.value.values| == 18
                  && r.value.token == (if Last(ts, 6).Some? then Last(ts, 6).value else token)
                  && forall k :: 0 <= k < 18 ==> r.value.values[k] == Held(ts, k, values[k]))
  {
    BlockIs(h, ts);
    DecodeBlock(h, TlvBytes(ts), values, token);
    var kind, st := KindOf(h), Found(values, token, {});
    CollectList(kind, ts, st);
    if !AnyBad(kind, ts) {
      FinishStored(h, ts, values, token, Collect(kind, TlvBytes(ts), st).value);
    }
  }

  /** A length field that does not tell the number of bytes that follow is refused. */
  lemma LengthRefused(h: Header, n: nat, body: seq<byte>, values: seq<nat>, token: seq<byte>)
    requires HeaderFits(h) && n < 0x1_0000 && n != |body| && |values| == KNOWN
    ensures Pow256(2) == 0x1_0000
    ensures Decode(KindOf(h), VersionBytes(h) + (PutUint(n, 2) + body), values, token) == Err(Malformed)
  {
    Powers();
    VersionIs(h);
    HeaderRoundTrip(h, PutUint(n, 2) + body);
    TakeUintPut(n, 2, body);
  }
}
