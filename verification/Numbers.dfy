/** Numbers of fixed width, most significant byte first (Polygon/lib/ngtcp2_conv.c). */
module Numbers {
  import opened Basics

  function Pow256(k: nat): (r: nat)
    ensures r > 0
  {
    if k == 0 then 1 else 256 * Pow256(k - 1)
  }

  /** The `k` bytes of `n`, most significant first. */
  function PutUint(n: nat, k: nat): (r: seq<byte>)
    requires n < Pow256(k)
    ensures |r| == k
  {
    if k == 0 then [] else [Digit(n, Pow256(k - 1))] + PutUint(n % Pow256(k - 1), k - 1)
  }

  function Digit(n: nat, p: nat): (r: byte)
    requires 0 < p && n < 256 * p
  {
    QuotientBelow(n, p, 256);
    (n / p) as byte
  }

  lemma QuotientBelow(n: nat, p: nat, c: nat)
    requires 0 < p && n < c * p
    ensures n / p < c
  {
    assert n == p * (n / p) + n % p;
  }

  lemma Monotone(p: nat, a: nat, b: nat)
    requires a <= b
    ensures p * a <= p * b
  {
  }

  function GetUint(s: seq<byte>): (r: nat)
    ensures r < Pow256(|s|)
  {
    if s == [] then 0
    else
      var lower := GetUint(s[1..]);
      Monotone(Pow256(|s| - 1), s[0] as nat, 255);
      s[0] as nat * Pow256(|s| - 1) + lower
  }

  lemma {:induction false} UintRoundTrip(n: nat, k: nat)
    requires n < Pow256(k)
    ensures GetUint(PutUint(n, k)) == n
  {
    if k > 0 {
      var p := Pow256(k - 1);
      var q, r := Digit(n, p), n % p;
      UintRoundTrip(r, k - 1);
      PutUintCons(n, k);
      GetUintCons(q, PutUint(r, k - 1));
      Recompose(n, p);
    }
  }

  lemma PutUintCons(n: nat, k: nat)
    requires k > 0 && n < Pow256(k)
    ensures var p := Pow256(k - 1); PutUint(n, k) == [Digit(n, p)] + PutUint(n % p, k - 1)
  {
  }

  lemma GetUintCons(b: byte, s: seq<byte>)
    ensures GetUint([b] + s) == b as nat * Pow256(|s|) + GetUint(s)
  {
    assert ([b] + s)[1..] == s;
  }

  lemma Recompose(n: nat, p: nat)
    requires 0 < p
    ensures n / p * p + n % p == n
  {
  }

  /** The other way round: the bytes are recovered from the number they stand for. */
  lemma {:induction false} UintUnique(s: seq<byte>)
    ensures PutUint(GetUint(s), |s|) == s
  {
    if s != [] {
      var p, lower := Pow256(|s| - 1), GetUint(s[1..]);
      UintUnique(s[1..]);
      DivUnique(s[0] as nat, lower, p);
      assert s == [s[0]] + s[1..];
    }
  }

  lemma DivUnique(q: nat, r: nat, p: nat)
    requires r < p
    ensures (q * p + r) / p == q && (q * p + r) % p == r
  {
    var n := q * p + r;
    assert n == p * (n / p) + n % p;
    if n / p > q {
      Monotone(p, q + 1, n / p);
    } else if n / p < q {
      Monotone(p, n / p + 1, q);
    }
  }

  /** The most significant byte comes first: one more byte behind multiplies by 256. */
  lemma {:induction false} BigEndian(s: seq<byte>, b: byte)
    ensures GetUint([]) == 0 && GetUint(s + [b]) == 256 * GetUint(s) + b as nat
  {
    if s == [] {
      assert (s + [b])[1..] == [];
    } else {
      BigEndian(s[1..], b);
      assert (s + [b])[1..] == s[1..] + [b];
      Scale(s[0] as nat, Pow256(|s| - 1));
    }
  }

  lemma Scale(a: nat, p: nat)
    ensures a * (256 * p) == 256 * (a * p)
  {
  }

  lemma Powers()
    ensures Pow256(0) == 1 && Pow256(1) == 0x100 && Pow256(2) == 0x1_0000 && Pow256(3) == 0x100_0000
    ensures Pow256(4) == 0x1_0000_0000 && Pow256(7) == 0x100_0000_0000_0000
    ensures Pow256(8) == 0x1_0000_0000_0000_0000
  {
    assert Pow256(5) == 256 * Pow256(4);
    assert Pow256(6) == 256 * Pow256(5);
  }
}
