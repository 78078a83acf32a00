/** Integers on the wire (Polygon/lib/ngtcp2_conv.c): numbers of fixed width and the variable-length
    integers of section 16 of RFC 9000. A reader takes a value off the front of the
    input and returns it with the bytes that follow, or None when the input is too short. */
module Wire {
  import opened Basics
  import opened Ranges
  import opened Numbers

  /** The length of a stateless reset token. */
  const TOKEN_LEN: nat := 16

  datatype Read<T> = Read(value: T, rest: seq<byte>)

  function TakeUint(s: seq<byte>, k: nat): Option<Read<nat>> {
    if |s| < k then None else Some(Read(GetUint(s[..k]), s[k..]))
  }

  function TakeBytes(s: seq<byte>, k: nat): Option<Read<seq<byte>>> {
    if |s| < k then None else Some(Read(s[..k], s[k..]))
  }

  lemma TakeUintPut(n: nat, k: nat, rest: seq<byte>)
    requires n < Pow256(k)
    ensures TakeUint(PutUint(n, k) + rest, k) == Some(Read(n, rest))
  {
    UintRoundTrip(n, k);
    TakeBytesPut(PutUint(n, k), rest);
  }

  lemma TakeBytesPut(s: seq<byte>, rest: seq<byte>)
    ensures (s + rest)[..|s|] == s && (s + rest)[|s|..] == rest
    ensures TakeBytes(s + rest, |s|) == Some(Read(s, rest))
  {
  }

  /** Which of the four widths a number needs: 1, 2, 4 or 8 bytes. */
  function Tag(n: nat): nat
  {
    if n < 64 then 0 else if n < 16384 then 1 else if n < 1073741824 then 2 else 3
  }

  function Width(tag: nat): nat
  {
    if tag == 0 then 1 else if tag == 1 then 2 else if tag == 2 then 4 else 8
  }

  function VarintLen(n: nat): nat {
    Width(Tag(n))
  }

  /** The number fits its width with the two top bits to spare. */
  lemma FitsWidth(n: nat)
    requires n <= MAX_VARINT
    ensures n < 64 * Pow256(VarintLen(n) - 1) && n < Pow256(VarintLen(n))
    ensures PutUint(n, VarintLen(n))[0] < 64
  {
    Powers();
    var k := VarintLen(n);
    var p := Pow256(k - 1);
    QuotientBelow(n, p, 64);
    assert PutUint(n, k)[0] == Digit(n, p);
  }

  /** The two top bits of the first byte are clear, so setting them adds the width tag. */
  function PutVarint(n: nat): (r: seq<byte>)
    requires n <= MAX_VARINT
    ensures |r| == VarintLen(n)
  {
    FitsWidth(n);
    var b := PutUint(n, VarintLen(n));
    [b[0] + 64 * Tag(n) as byte] + b[1..]
  }

  function TakeVarint(s: seq<byte>): (r: Option<Read<nat>>)
  {
    if s == [] then None else
    var k := Width(s[0] as nat / 64);
    if |s| < k then None else Some(Read(GetUint([s[0] % 64] + s[1..k]), s[k..]))
  }

  lemma TakeVarintPut(n: nat, rest: seq<byte>)
    requires n <= MAX_VARINT
    ensures TakeVarint(PutVarint(n) + rest) == Some(Read(n, rest))
  {
    FitsWidth(n);
    var k := VarintLen(n);
    var b := PutUint(n, k);
    var s := PutVarint(n);
    UintRoundTrip(n, k);
    assert (s[0] as nat) / 64 == Tag(n) && s[0] % 64 == b[0];
    TakeBytesPut(s, rest);
    assert [s[0] % 64] + (s + rest)[1..k] == b;
  }

  /** A varint that is read is in range, and at least its first byte is used up. */
  lemma TakeVarintRange(s: seq<byte>)
    requires TakeVarint(s).Some?
    ensures TakeVarint(s).value.value <= MAX_VARINT
    ensures Suffix(TakeVarint(s).value.rest, s) && |TakeVarint(s).value.rest| < |s|
  {
    var k := Width(s[0] as nat / 64);
    var t := [s[0] % 64] + s[1..k];
    Powers();
    assert t[1..] == s[1..k];
    Monotone(Pow256(k - 1), t[0] as nat, 63);
  }

  /** The encoding of section 16 of RFC 9000: the two top bits of the first byte are the exponent of the
      length, the other bits are the number, and the next shorter form could not hold it. */
  lemma VarintFormat(n: nat)
    requires n <= MAX_VARINT
    ensures var s := PutVarint(n);
            var e := s[0] as nat / 64;
            && |s| == Pow2(e) && GetUint(s) == e * (64 * Pow256(|s| - 1)) + n
            && (e > 0 ==> 64 * Pow256(Pow2(e - 1) - 1) <= n)
  {
    FitsWidth(n);
    var k := VarintLen(n);
    var b, s := PutUint(n, k), PutVarint(n);
    UintRoundTrip(n, k);
    assert s[1..] == b[1..] && s[0] as nat == b[0] as nat + 64 * Tag(n);
    assert s[0] as nat / 64 == Tag(n);
    AddTop(b[0] as nat, Tag(n), Pow256(k - 1));
    Powers();
    Exponents();
  }

  lemma AddTop(a: nat, e: nat, p: nat)
    ensures (a + 64 * e) * p == a * p + e * (64 * p)
  {
  }

  lemma Exponents()
    ensures Pow2(0) == 1 && Pow2(1) == 2 && Pow2(2) == 4 && Pow2(3) == 8
  {
  }

  /** What is read from any bytes: nothing if there are fewer than announced, otherwise the number that
      the bits behind the exponent stand for. */
  lemma VarintRead(s: seq<byte>)
    ensures TakeVarint(s).None? <==> s == [] || |s| < Pow2(s[0] as nat / 64)
    ensures TakeVarint(s).Some? ==>
              var e := s[0] as nat / 64;
              && TakeVarint(s).value.rest == s[Pow2(e)..]
              && TakeVarint(s).value.value + e * (64 * Pow256(Pow2(e) - 1)) == GetUint(s[..Pow2(e)])
  {
    Exponents();
    if TakeVarint(s).Some? {
      var e := s[0] as nat / 64;
      var k := Pow2(e);
      var t := [s[0] % 64] + s[1..k];
      assert t[1..] == s[..k][1..];
      AddTop((s[0] % 64) as nat, e, Pow256(k - 1));
    }
  }

  predicate Suffix(rest: seq<byte>, s: seq<byte>) {
    |rest| <= |s| && rest == s[|s| - |rest|..]
  }

  lemma SuffixTrans(a: seq<byte>, b: seq<byte>, c: seq<byte>)
    requires Suffix(a, b) && Suffix(b, c)
    ensures Suffix(a, c)
  {
  }

  /** `n` values off the front, each taken by `d`. */
  function Many<T>(d: seq<byte> -> Option<Read<T>>, s: seq<byte>, n: nat): Option<Read<seq<T>>>
    decreases n
  {
    if n == 0 then Some(Read([], s)) else
    var x :- d(s);
    var xs :- Many(d, x.rest, n - 1);
    Some(Read([x.value] + xs.value, xs.rest))
  }

  /** Taking several values leaves a suffix when taking one does. */
  lemma {:induction false} ManySuffix<T>(d: seq<byte> -> Option<Read<T>>, s: seq<byte>, n: nat)
    requires Many(d, s, n).Some? && forall t: seq<byte> :: d(t).Some? ==> Suffix(d(t).value.rest, t)
    ensures Suffix(Many(d, s, n).value.rest, s) && |Many(d, s, n).value.value| == n
    decreases n
  {
    if n > 0 {
      var x := d(s).value;
      ManySuffix(d, x.rest, n - 1);
      SuffixTrans(Many(d, x.rest, n - 1).value.rest, x.rest, s);
    }
  }

  /** What holds of every value taken holds of all of them. */
  lemma {:induction false} ManyAll<T>(d: seq<byte> -> Option<Read<T>>, ok: T -> bool, s: seq<byte>, n: nat)
    requires Many(d, s, n).Some? && forall t: seq<byte> :: d(t).Some? ==> ok(d(t).value.value)
    ensures forall i :: 0 <= i < |Many(d, s, n).value.value| ==> ok(Many(d, s, n).value.value[i])
    decreases n
  {
    if n > 0 {
      ManyAll(d, ok, d(s).value.rest, n - 1);
    }
  }
}
