/** The fields that frames are made of (Polygon/lib/ngtcp2_pkt.c): how each kind of field is written
    and read, and the round trip of any sequence of fields. */
module Fields {
  import opened Basics
  import opened Ranges
  import opened Numbers
  import opened Wire

  predicate IsVarint(n: nat) {
    n <= MAX_VARINT
  }

  function Zeros(n: nat): (r: seq<byte>)
    ensures |r| == n && forall i :: 0 <= i < n ==> r[i] == 0
  {
    seq(n, _ => 0)
  }

  datatype Kind =
    | Varint
    | Uint(width: nat)
    | Text            // a string after its length
    | ShortText       // a string after its length in one byte
    | Raw(size: nat)  // a string of known length
    | Run             // zero bytes

  datatype Field = Number(n: nat) | Bytes(s: seq<byte>)

  predicate Shape(v: Field, k: Kind) {
    match k
    case Varint => v.Number? && IsVarint(v.n)
    case Uint(w) => v.Number? && v.n < Pow256(w)
    case Text => v.Bytes? && IsVarint(|v.s|)
    case ShortText => v.Bytes?
    case Raw(size) => v.Bytes? && |v.s| == size
    case Run => v.Number?
  }

  ghost predicate Shaped(vs: seq<Field>, ks: seq<Kind>) {
    |vs| == |ks| && forall i :: 0 <= i < |vs| ==> Shape(vs[i], ks[i])
  }

  function PutText(s: seq<byte>): seq<byte>
    requires IsVarint(|s|)
  {
    PutVarint(|s|) + s
  }

  /** The length byte keeps only the low bits of the length. */
  function PutShortText(s: seq<byte>): seq<byte> {
    [(|s| % 256) as byte] + s
  }

  function PutField(v: Field, k: Kind): seq<byte>
    requires Shape(v, k)
  {
    match k
    case Varint => PutVarint(v.n)
    case Uint(w) => PutUint(v.n, w)
    case Text => PutText(v.s)
    case ShortText => PutShortText(v.s)
    case Raw(_) => v.s
    case Run => Zeros(v.n)
  }

  function PutFields(vs: seq<Field>, ks: seq<Kind>): seq<byte>
    requires Shaped(vs, ks)
  {
    if vs == [] then [] else PutField(vs[0], ks[0]) + PutFields(vs[1..], ks[1..])
  }

  function TakeText(s: seq<byte>): Option<Read<seq<byte>>> {
    var n :- TakeVarint(s);
    TakeBytes(n.rest, n.value)
  }

  function TakeShortText(s: seq<byte>): Option<Read<seq<byte>>> {
    if s == [] then None else TakeBytes(s[1..], s[0] as nat)
  }

  function ZeroRun(s: seq<byte>): (n: nat)
    ensures n <= |s|
  {
    if s == [] || s[0] != 0 then 0 else 1 + ZeroRun(s[1..])
  }

  function AsNumber(r: Option<Read<nat>>): Option<Read<Field>> {
    var x :- r;
    Some(Read(Number(x.value), x.rest))
  }

  function AsBytes(r: Option<Read<seq<byte>>>): Option<Read<Field>> {
    var x :- r;
    Some(Read(Bytes(x.value), x.rest))
  }

  function TakeField(s: seq<byte>, k: Kind): Option<Read<Field>> {
    match k
    case Varint => AsNumber(TakeVarint(s))
    case Uint(w) => AsNumber(TakeUint(s, w))
    case Text => AsBytes(TakeText(s))
    case ShortText => AsBytes(TakeShortText(s))
    case Raw(size) => AsBytes(TakeBytes(s, size))
    case Run => AsNumber(Some(Read(ZeroRun(s), s[ZeroRun(s)..])))
  }

  function TakeFields(s: seq<byte>, ks: seq<Kind>): Option<Read<seq<Field>>>
    decreases |ks|
  {
    if ks == [] then Some(Read([], s)) else
    var v :- TakeField(s, ks[0]);
    var vs :- TakeFields(v.rest, ks[1..]);
    Some(Read([v.value] + vs.value, vs.rest))
  }

  /** Fields that end by themselves and whose length is not cut. */
  predicate Sendable(v: Field, k: Kind) {
    Shape(v, k) && !k.Run? && (k.ShortText? ==> |v.s| < 256)
  }

  lemma TakeTextPut(s: seq<byte>, rest: seq<byte>)
    requires IsVarint(|s|)
    ensures TakeText(PutText(s) + rest) == Some(Read(s, rest))
  {
    Assoc(PutVarint(|s|), s, rest);
    TakeVarintPut(|s|, s + rest);
    TakeBytesPut(s, rest);
  }

  lemma TakeShortTextPut(s: seq<byte>, rest: seq<byte>)
    ensures TakeShortText(PutShortText(s) + rest) == Some(Read(s, rest)) <==> |s| < 256
  {
    assert (PutShortText(s) + rest)[1..] == s + rest;
    TakeBytesPut(s, rest);
  }

  lemma FieldRoundTrip(v: Field, k: Kind, rest: seq<byte>)
    requires Sendable(v, k)
    ensures TakeField(PutField(v, k) + rest, k) == Some(Read(v, rest))
  {
    match k
    case Varint => TakeVarintPut(v.n, rest);
    case Uint(w) => TakeUintPut(v.n, w, rest);
    case Text => TakeTextPut(v.s, rest);
    case ShortText => TakeShortTextPut(v.s, rest);
    case Raw(_) => TakeBytesPut(v.s, rest);
  }

  lemma {:induction false} FieldsRoundTrip(vs: seq<Field>, ks: seq<Kind>, rest: seq<byte>)
    requires Shaped(vs, ks) && forall i :: 0 <= i < |vs| ==> Sendable(vs[i], ks[i])
    ensures TakeFields(PutFields(vs, ks) + rest, ks) == Some(Read(vs, rest))
  {
    if vs == [] {
      assert PutFields(vs, ks) + rest == rest;
    } else {
      var a, b := PutField(vs[0], ks[0]), PutFields(vs[1..], ks[1..]);
      Assoc(a, b, rest);
      FieldRoundTrip(vs[0], ks[0], b + rest);
      FieldsRoundTrip(vs[1..], ks[1..], rest);
      assert [vs[0]] + vs[1..] == vs;
    }
  }

  // Reading only takes bytes off the front and returns fields in range.

  lemma TakeTextSound(s: seq<byte>)
    requires TakeText(s).Some?
    ensures Suffix(TakeText(s).value.rest, s) && IsVarint(|TakeText(s).value.value|)
    ensures |TakeText(s).value.value| <= |s|
  {
    TakeVarintRange(s);
    var n := TakeVarint(s).value;
    SuffixTrans(n.rest[n.value..], n.rest, s);
  }

  /** Strings are not longer than the input or than their length field allows. */
  predicate Small(v: Field, k: Kind, n: nat) {
    match v
    case Number(_) => true
    case Bytes(s) => |s| <= n && (k.ShortText? ==> |s| < 256)
  }

  lemma TakeFieldSound(s: seq<byte>, k: Kind)
    requires TakeField(s, k).Some?
    ensures Suffix(TakeField(s, k).value.rest, s) && Shape(TakeField(s, k).value.value, k)
    ensures Small(TakeField(s, k).value.value, k, |s|)
  {
    match k
    case Varint => TakeVarintRange(s);
    case Text => TakeTextSound(s);
    case _ =>
  }

  ghost predicate AllSmall(vs: seq<Field>, ks: seq<Kind>, n: nat) {
    |vs| == |ks| && forall i :: 0 <= i < |ks| ==> Small(vs[i], ks[i], n)
  }

  lemma PrependField(v: Field, vs: seq<Field>, ks: seq<Kind>, m: nat, n: nat)
    requires ks != [] && Shape(v, ks[0]) && Shaped(vs, ks[1..])
    requires m <= n && Small(v, ks[0], n) && AllSmall(vs, ks[1..], m)
    ensures Shaped([v] + vs, ks) && AllSmall([v] + vs, ks, n)
  {
  }

  lemma TakeFieldsStep(s: seq<byte>, ks: seq<Kind>)
    requires ks != [] && TakeFields(s, ks).Some?
    ensures var v := TakeField(s, ks[0]);
            && v.Some? && TakeFields(v.value.rest, ks[1..]).Some?
            && var vs := TakeFields(v.value.rest, ks[1..]).value;
               TakeFields(s, ks).value == Read([v.value.value] + vs.value, vs.rest)
  {
  }

  lemma {:induction false} TakeFieldsSound(s: seq<byte>, ks: seq<Kind>)
    requires TakeFields(s, ks).Some?
    ensures Suffix(TakeFields(s, ks).value.rest, s) && Shaped(TakeFields(s, ks).value.value, ks)
    ensures AllSmall(TakeFields(s, ks).value.value, ks, |s|)
    decreases |ks|
  {
    if ks != [] {
      TakeFieldsStep(s, ks);
      TakeFieldSound(s, ks[0]);
      var v := TakeField(s, ks[0]).value;
      TakeFieldsSound(v.rest, ks[1..]);
      var vs := TakeFields(v.rest, ks[1..]).value;
      SuffixTrans(vs.rest, v.rest, s);
      PrependField(v.value, vs.value, ks, |v.rest|, |s|);
    }
  }
}
