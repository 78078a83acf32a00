/** White space and numbers of the JSON reader and writer (Polygon/examples/cJSON.c). A text
    is a sequence of bytes, held in chars; it ends where it ends or at a NUL. */
module JsonText {

  /** A value taken off the front of a text, and the text behind it. */
  datatype Got<T> = Got(value: T, rest: string)

  predicate StartsWith(s: string, c: char) {
    s != [] && s[0] == c
  }

  /** White space is anything up to the blank, except the terminator. */
  predicate IsSpace(c: char) {
    '\0' < c <= ' '
  }

  function Skip(s: string): (r: string)
    ensures |r| <= |s| && (r == [] || !IsSpace(r[0]))
  {
    if s == [] || !IsSpace(s[0]) then s else Skip(s[1..])
  }

  /** What is skipped: bytes from 1 to 32, up to the first other one, which may be a NUL. */
  lemma {:induction false} SkipExact(s: string)
    ensures var t := Skip(s);
            && t == s[|s| - |t|..] && (forall i :: 0 <= i < |s| - |t| ==> 1 <= s[i] as int <= 32)
            && (t != [] ==> t[0] as int == 0 || t[0] as int > 32)
  {
    if s != [] && IsSpace(s[0]) {
      SkipExact(s[1..]);
    }
  }

  lemma SkipNothing(s: string)
    requires s == [] || !IsSpace(s[0])
    ensures Skip(s) == s
  {
  }

  predicate Spaces(s: string) {
    forall i :: 0 <= i < |s| ==> IsSpace(s[i])
  }

  lemma {:induction false} SkipSpaces(s: string, rest: string)
    requires Spaces(s) && (rest == [] || !IsSpace(rest[0]))
    ensures Skip(s + rest) == rest
  {
    if s == [] {
      assert s + rest == rest;
    } else {
      assert (s + rest)[1..] == s[1..] + rest;
      SkipSpaces(s[1..], rest);
    }
  }

  // Numbers.

  predicate IsDigit(c: char) {
    '0' <= c <= '9'
  }

  function DigitValue(c: char): (d: nat)
    requires IsDigit(c)
    ensures d < 10
  {
    (c as int) - ('0' as int)
  }

  function DigitChar(d: nat): (c: char)
    requires d < 10
    ensures IsDigit(c) && DigitValue(c) == d
  {
    (d + '0' as int) as char
  }

  /** A number as it is printed: no leading zeros. */
  function Digits(n: nat): (r: string)
    ensures |r| > 0
  {
    if n < 10 then [DigitChar(n)] else Digits(n / 10) + [DigitChar(n % 10)]
  }

  /** Takes digits off the text and appends them to the number `acc`. */
  function TakeDigits(acc: nat, s: string): (r: Got<nat>)
    ensures |r.rest| <= |s|
    decreases |s|
  {
    if s != [] && IsDigit(s[0]) then TakeDigits(10 * acc + DigitValue(s[0]), s[1..]) else Got(acc, s)
  }

  predicate AllDigits(s: string) {
    forall i :: 0 <= i < |s| ==> IsDigit(s[i])
  }

  function Fold(acc: nat, s: string): nat
    requires AllDigits(s)
    decreases |s|
  {
    if s == [] then acc else Fold(10 * acc + DigitValue(s[0]), s[1..])
  }

  predicate NoDigit(s: string) {
    s == [] || !IsDigit(s[0])
  }

  lemma {:induction false} TakeDigitsFold(acc: nat, s: string, rest: string)
    requires AllDigits(s) && NoDigit(rest)
    ensures TakeDigits(acc, s + rest) == Got(Fold(acc, s), rest)
    decreases |s|
  {
    if s == [] {
      assert s + rest == rest;
    } else {
      assert (s + rest)[1..] == s[1..] + rest;
      TakeDigitsFold(10 * acc + DigitValue(s[0]), s[1..], rest);
    }
  }

  lemma {:induction false} FoldLast(acc: nat, s: string, c: char)
    requires AllDigits(s) && IsDigit(c)
    ensures AllDigits(s + [c]) && Fold(acc, s + [c]) == 10 * Fold(acc, s) + DigitValue(c)
    decreases |s|
  {
    if s == [] {
      assert s + [c] == [c];
    } else {
      assert (s + [c])[1..] == s[1..] + [c];
      FoldLast(10 * acc + DigitValue(s[0]), s[1..], c);
    }
  }

  lemma {:induction false} FoldDigits(n: nat)
    ensures AllDigits(Digits(n)) && Fold(0, Digits(n)) == n
    ensures Digits(n)[0] == '0' <==> n == 0
    ensures n == 0 ==> |Digits(n)| == 1
  {
    if n >= 10 {
      FoldDigits(n / 10);
      FoldLast(0, Digits(n / 10), DigitChar(n % 10));
    }
  }

  /** A number: its digits without the point, the power of ten that belongs to it, whether it was
      written without fraction and exponent (or with exponent 0), and whether it had a sign. */
  datatype Number = Number(n: int, exponent: int, integral: bool, signed: bool)

  /** A leading zero stands alone unless a digit from 1 to 9 follows. */
  function TakeInteger(s: string): (r: Got<nat>)
    ensures |r.rest| <= |s| && (s != [] && IsDigit(s[0]) ==> |r.rest| < |s|)
  {
    var t := if StartsWith(s, '0') then s[1..] else s;
    if t != [] && '1' <= t[0] <= '9' then TakeDigits(DigitValue(t[0]), t[1..]) else Got(0, t)
  }

  /** A point counts only if a digit follows it. */
  function TakeFraction(n: nat, s: string): (r: Got<nat>)
    ensures |r.rest| <= |s|
  {
    if |s| > 1 && s[0] == '.' && IsDigit(s[1]) then TakeDigits(n, s[1..]) else Got(n, s)
  }

  function TakeExponent(s: string): (r: Got<int>)
    ensures |r.rest| <= |s|
  {
    if !StartsWith(s, 'e') && !StartsWith(s, 'E') then Got(0, s)
    else
      var t := s[1..];
      var minus := StartsWith(t, '-');
      var d := TakeDigits(0, if StartsWith(t, '+') || minus then t[1..] else t);
      var e: int := d.value;
      Got(if minus then -e else e, d.rest)
  }

  predicate StartsNumber(s: string) {
    s != [] && (s[0] == '-' || IsDigit(s[0]))
  }

  function TakeNumber(s: string): (r: Got<Number>)
    requires StartsNumber(s)
    ensures |r.rest| < |s|
  {
    var signed := s[0] == '-';
    var i := TakeInteger(if signed then s[1..] else s);
    var f := TakeFraction(i.value, i.rest);
    var e := TakeExponent(f.rest);
    var places := if |f.rest| < |i.rest| then |i.rest| - |f.rest| - 1 else 0;
    var n: int := f.value;
    Got(Number(if signed then -n else n, e.value - places, places == 0 && e.value == 0, signed), e.rest)
  }

  /** A whole number as it is printed. A number that is not marked as signed is printed as the
      unsigned 64-bit number with the same bits. */
  function PrintInt(n: int, signed: bool): string {
    if n >= 0 then Digits(n)
    else if signed then "-" + Digits(-n)
    else Digits(n % 0x1_0000_0000_0000_0000)
  }

  /** Nothing follows that could belong to a number. */
  predicate EndsNumber(s: string) {
    s == [] || (!IsDigit(s[0]) && s[0] !in {'.', 'e', 'E'})
  }

  lemma TakeIntegerPrinted(n: nat, rest: string)
    requires NoDigit(rest)
    ensures TakeInteger(Digits(n) + rest) == Got(n, rest)
  {
    FoldDigits(n);
    var d := Digits(n);
    if n == 0 {
      assert (d + rest)[1..] == rest;
    } else {
      TakeDigitsFold(0, d, rest);
    }
  }

  lemma TakeUnsigned(n: nat, rest: string)
    requires EndsNumber(rest)
    ensures StartsNumber(Digits(n) + rest)
    ensures TakeNumber(Digits(n) + rest) == Got(Number(n, 0, true, false), rest)
  {
    FoldDigits(n);
    TakeIntegerPrinted(n, rest);
  }

  lemma DropSign(s: string, rest: string)
    ensures ("-" + s + rest)[0] == '-' && ("-" + s + rest)[1..] == s + rest
  {
  }

  lemma TakeNegative(n: int, rest: string)
    requires n >= 0 && EndsNumber(rest)
    ensures TakeNumber("-" + Digits(n) + rest) == Got(Number(-n, 0, true, true), rest)
  {
    TakeIntegerPrinted(n, rest);
    DropSign(Digits(n), rest);
  }

  /** The digits before the point: none, or without a zero in front of another one. */
  predicate WholeDigits(i: string) {
    AllDigits(i) && (|i| > 1 && i[0] == '0' ==> i[1] != '0')
  }

  lemma TakeIntegerIs(i: string, rest: string)
    requires WholeDigits(i) && NoDigit(rest)
    ensures TakeInteger(i + rest) == Got(Fold(0, i), rest)
  {
    if i == [] {
      assert i + rest == rest;
    } else if i[0] == '0' {
      var t := i[1..];
      assert (i + rest)[1..] == t + rest;
      if t == [] {
        assert t + rest == rest;
      } else {
        TakeDigitsFold(0, t, rest);
      }
    } else {
      TakeDigitsFold(0, i, rest);
    }
  }

  lemma TakeFractionIs(n: nat, f: string, rest: string)
    requires AllDigits(f) && NoDigit(rest) && (f == [] ==> !StartsWith(rest, '.'))
    ensures TakeFraction(n, (if f == [] then [] else "." + f) + rest) == Got(Fold(n, f), rest)
  {
    if f == [] {
      assert [] + rest == rest;
    } else {
      assert ("." + f + rest)[1..] == f + rest;
      TakeDigitsFold(n, f, rest);
    }
  }

  function Signed(neg: bool, n: int): int {
    if neg then -n else n
  }

  /** A mark, a sign that may be missing, and digits. */
  predicate ExponentText(x: string, sign: string, e: string) {
    && sign in ["", "+", "-"] && AllDigits(e)
    && (x == "e" + sign + e || x == "E" + sign + e)
  }

  lemma TakeExponentIs(x: string, sign: string, e: string, rest: string)
    requires ExponentText(x, sign, e) && NoDigit(rest)
    requires sign == "" && e == [] ==> !StartsWith(rest, '+') && !StartsWith(rest, '-')
    ensures TakeExponent(x + rest) == Got(Signed(sign == "-", Fold(0, e)), rest)
  {
    assert (x + rest)[1..] == sign + (e + rest);
    if sign == "" {
      assert sign + (e + rest) == e + rest;
    } else {
      assert (sign + (e + rest))[1..] == e + rest;
    }
    TakeDigitsFold(0, e, rest);
  }

  lemma {:induction false} FoldConcat(acc: nat, a: string, b: string)
    requires AllDigits(a) && AllDigits(b)
    ensures AllDigits(a + b) && Fold(acc, a + b) == Fold(Fold(acc, a), b)
    decreases |a|
  {
    if a == [] {
      assert a + b == b;
    } else {
      assert (a + b)[1..] == a[1..] + b;
      FoldConcat(10 * acc + DigitValue(a[0]), a[1..], b);
    }
  }

  /** A number as it may be written: a sign, digits, a point with digits, and an exponent, of which `x` is
      the whole text. It stands for its digits without the point, times ten to the exponent less the
      number of digits behind the point, and is whole if there are none and the exponent is 0. */
  lemma NumberText(neg: bool, i: string, f: string, x: string, sign: string, e: string, rest: string)
    requires WholeDigits(i) && AllDigits(f) && (neg || i != []) && EndsNumber(rest)
    requires (x == [] && e == []) || ExponentText(x, sign, e)
    requires x != [] && sign == "" && e == [] ==> !StartsWith(rest, '+') && !StartsWith(rest, '-')
    ensures var s := (if neg then "-" else []) + (i + ((if f == [] then [] else "." + f) + (x + rest)));
            var power := Signed(x != [] && sign == "-", Fold(0, e));
            && StartsNumber(s)
            && TakeNumber(s) ==
               Got(Number(Signed(neg, Fold(0, i + f)), power - |f|, f == [] && power == 0, neg), rest)
  {
    var point := if f == [] then [] else "." + f;
    var tail := x + rest;
    var body := i + (point + tail);
    FoldConcat(0, i, f);
    TailStarts(x, sign, e, rest);
    TakeIntegerIs(i, point + tail);
    TakeFractionIs(Fold(0, i), f, tail);
    SignedBody(neg, i, body, point + tail);
    assert |point + tail| - |tail| == |point|;
  }

  /** The exponent, if there is one, and how it starts. */
  lemma TailStarts(x: string, sign: string, e: string, rest: string)
    requires EndsNumber(rest) && ((x == [] && e == []) || ExponentText(x, sign, e))
    requires x != [] && sign == "" && e == [] ==> !StartsWith(rest, '+') && !StartsWith(rest, '-')
    ensures NoDigit(x + rest) && !StartsWith(x + rest, '.')
    ensures TakeExponent(x + rest) == Got(Signed(x != [] && sign == "-", Fold(0, e)), rest)
  {
    if x == [] {
      assert x + rest == rest;
    } else {
      TakeExponentIs(x, sign, e, rest);
    }
  }

  lemma SignedBody(neg: bool, i: string, body: string, tail: string)
    requires body == i + tail && (neg || i != []) && AllDigits(i)
    ensures var s := (if neg then "-" else []) + body;
            StartsNumber(s) && (s[0] == '-' <==> neg) && (if neg then s[1..] else s) == body
  {
    if neg {
      assert ("-" + body)[1..] == body;
    } else {
      assert [] + body == body && body[0] == i[0];
    }
  }

  /** A printed number is read back as it was exactly when its sign mark says whether it is negative. */
  lemma IntRoundTrip(n: int, signed: bool, rest: string)
    requires EndsNumber(rest) && -0x8000_0000_0000_0000 < n < 0x8000_0000_0000_0000
    ensures StartsNumber(PrintInt(n, signed) + rest)
    ensures TakeNumber(PrintInt(n, signed) + rest) == Got(Number(n, 0, true, signed), rest) <==> (signed <==> n < 0)
  {
    if n < 0 && signed {
      TakeNegative(-n, rest);
    } else {
      TakeUnsigned(if n >= 0 then n else n % 0x1_0000_0000_0000_0000, rest);
    }
  }
}
