/** Escapes and UTF-8 in the JSON reader and writer (Polygon/examples/cJSON.c; section 3 of RFC 3629 and
    section 7 of RFC 8259). */
module JsonUnicode {
  import opened Basics
  import opened JsonText
  import opened JsonStrings

  // ---------- UTF-8 ----------

  /** Bytes that each carry six bits, put behind the number `acc`. */
  function Sixes(acc: nat, s: string): nat
    requires forall i :: 0 <= i < |s| ==> 0x80 <= s[i] as int < 0xC0
    decreases |s|
  {
    if s == [] then acc else Sixes(64 * acc + (s[0] as int - 0x80), s[1..])
  }

  /** A character in UTF-8: the first byte tells how many there are, the others are continuation bytes,
      and the bits put together give the number, which a shorter form could not hold. */
  ghost predicate IsUtf8(s: string, u: nat) {
    && 1 <= |s| <= 4
    && (forall i :: 1 <= i < |s| ==> 0x80 <= s[i] as int < 0xC0)
    && match |s|
       case 1 => s[0] as int < 0x80 && u == s[0] as int
       case 2 => 0xC0 <= s[0] as int < 0xE0 && u == Sixes(s[0] as int - 0xC0, s[1..]) && u >= 0x80
       case 3 => 0xE0 <= s[0] as int < 0xF0 && u == Sixes(s[0] as int - 0xE0, s[1..]) && u >= 0x800
       case _ => 0xF0 <= s[0] as int < 0xF8 && u == Sixes(s[0] as int - 0xF0, s[1..]) && u >= 0x1_0000
  }

  lemma SixesOne(acc: nat, a: char)
    requires 0x80 <= a as int < 0xC0
    ensures Sixes(acc, [a]) == 64 * acc + (a as int - 0x80)
  {
    assert [a][1..] == [];
  }

  lemma SixesTwo(acc: nat, a: char, b: char)
    requires 0x80 <= a as int < 0xC0 && 0x80 <= b as int < 0xC0
    ensures Sixes(acc, [a, b]) == 4096 * acc + 64 * (a as int - 0x80) + (b as int - 0x80)
  {
    assert [a, b][1..] == [b];
    SixesOne(64 * acc + (a as int - 0x80), b);
  }

  lemma SixesThree(acc: nat, a: char, b: char, c: char)
    requires 0x80 <= a as int < 0xC0 && 0x80 <= b as int < 0xC0 && 0x80 <= c as int < 0xC0
    ensures Sixes(acc, [a, b, c]) ==
      262144 * acc + 4096 * (a as int - 0x80) + 64 * (b as int - 0x80) + (c as int - 0x80)
  {
    assert [a, b, c][1..] == [b, c];
    SixesTwo(64 * acc + (a as int - 0x80), b, c);
  }

  lemma Utf8Two(u: nat)
    requires 0x80 <= u < 0x800
    ensures IsUtf8(Utf8(u), u)
  {
    var s := Utf8(u);
    assert s[1..] == [s[1]];
    SixesOne(u / 64, s[1]);
  }

  lemma Utf8Three(u: nat)
    requires 0x800 <= u < 0x1_0000
    ensures IsUtf8(Utf8(u), u)
  {
    var s := Utf8(u);
    assert s[1..] == [s[1], s[2]];
    assert u / 64 == 64 * (u / 4096) + u / 64 % 64;
    SixesTwo(u / 4096, s[1], s[2]);
  }

  lemma Utf8Four(u: nat)
    requires 0x1_0000 <= u <= 0x10_FFFF
    ensures IsUtf8(Utf8(u), u)
  {
    var s := Utf8(u);
    var a, b, c, d := u / 262144, u / 4096 % 64, u / 64 % 64, u % 64;
    FourParts(u);
    assert s == [(0xF0 + a) as char, (0x80 + b) as char, (0x80 + c) as char, (0x80 + d) as char];
    assert s[1..] == [s[1], s[2], s[3]];
    SixesThree(a, s[1], s[2], s[3]);
  }

  lemma FourParts(u: nat)
    requires u <= 0x10_FFFF
    ensures u / 262144 <= 4 && u / 262144 % 16 == u / 262144
    ensures u == 262144 * (u / 262144) + 4096 * (u / 4096 % 64) + 64 * (u / 64 % 64) + u % 64
  {
    assert u / 64 == 64 * (u / 4096) + u / 64 % 64;
    assert u / 4096 == 64 * (u / 262144) + u / 4096 % 64;
  }

  /** All characters are written in UTF-8. */
  lemma Utf8Exact(u: nat)
    requires u <= 0x10_FFFF
    ensures IsUtf8(Utf8(u), u)
  {
    if 0x80 <= u < 0x800 {
      Utf8Two(u);
    } else if 0x800 <= u < 0x1_0000 {
      Utf8Three(u);
    } else if u >= 0x1_0000 {
      Utf8Four(u);
    }
  }

  /** So no two characters are written alike. */
  lemma Utf8Injective(u: nat, v: nat)
    requires u <= 0x10_FFFF && v <= 0x10_FFFF && Utf8(u) == Utf8(v)
    ensures u == v
  {
    Utf8Exact(u);
    Utf8Exact(v);
  }

  // ---------- hexadecimal digits ----------

  /** The digits of both cases, and nothing else. */
  lemma HexDigits(c: char)
    ensures HexValue('0') == Some(0) && HexValue('1') == Some(1) && HexValue('2') == Some(2) && HexValue('3') == Some(3)
    ensures HexValue('4') == Some(4) && HexValue('5') == Some(5) && HexValue('6') == Some(6) && HexValue('7') == Some(7)
    ensures HexValue('8') == Some(8) && HexValue('9') == Some(9)
    ensures HexValue('a') == HexValue('A') == Some(10) && HexValue('b') == HexValue('B') == Some(11)
    ensures HexValue('c') == HexValue('C') == Some(12) && HexValue('d') == HexValue('D') == Some(13)
    ensures HexValue('e') == HexValue('E') == Some(14) && HexValue('f') == HexValue('F') == Some(15)
    ensures c < '0' || '9' < c < 'A' || 'F' < c < 'a' || 'f' < c ==> HexValue(c).None?
  {
  }

  /** Four digits, the most significant first. */
  lemma HexExact(h: string)
    ensures TakeHex(h).Some? <==> |h| >= 4 && forall i :: 0 <= i < 4 ==> HexValue(h[i]).Some?
    ensures TakeHex(h).Some? ==>
      var a, b, c, d := HexValue(h[0]).value, HexValue(h[1]).value, HexValue(h[2]).value, HexValue(h[3]).value;
      TakeHex(h).value == 16 * (16 * (16 * a + b) + c) + d
  {
    if |h| >= 4 && forall i :: 0 <= i < 4 ==> HexValue(h[i]).Some? {
      assert HexValue(h[0]).Some? && HexValue(h[1]).Some? && HexValue(h[2]).Some? && HexValue(h[3]).Some?;
    }
  }

  // ---------- reading ----------

  /** Four digits. */
  predicate FourHex(h: string) {
    |h| == 4 && TakeHex(h).Some?
  }

  lemma ScanFour(scan: Scanner, h: string, rest: string)
    requires Honest(scan) && FourHex(h)
    ensures scan(h + rest) == TakeHex(h).value
  {
    assert (h + rest)[..4] == h;
    assert TakeHex(h + rest) == TakeHex(h);
  }

  lemma EscapeParts(h: string, rest: string)
    requires |h| == 4
    ensures var s := "\\u" + (h + rest);
            |s| >= 6 && s[0] == '\\' && s[1] == 'u' && s[2..] == h + rest && s[6..] == rest
  {
    var s := "\\u" + (h + rest);
    assert s[2..] == h + rest && s[6..] == rest;
  }

  /** A `u` escape of four digits outside the halves is read as the character in UTF-8; for NUL and for a
      low half nothing is written. */
  lemma EscapeRead(scan: Scanner, h: string, rest: string)
    requires Honest(scan) && FourHex(h) && !(0xD800 <= TakeHex(h).value <= 0xDBFF)
    ensures var u := TakeHex(h).value;
            var c := TakeOne(scan, "\\u" + (h + rest));
            && c.Some? && c.value.rest == rest
            && (if u == 0 || 0xDC00 <= u <= 0xDFFF then c.value.value == [] else IsUtf8(c.value.value, u))
  {
    EscapeParts(h, rest);
    ScanFour(scan, h, rest);
    Utf8Exact(TakeHex(h).value);
  }

  /** A high half and a low half are read as the one character they stand for if and only if bit 6 of the
      first is clear. */
  lemma PairRead(scan: Scanner, h: string, l: string, rest: string)
    requires Honest(scan) && FourHex(h) && FourHex(l)
    requires 0xD800 <= TakeHex(h).value <= 0xDBFF && 0xDC00 <= TakeHex(l).value <= 0xDFFF
    ensures var u, v := TakeHex(h).value, TakeHex(l).value;
            var c := TakeOne(scan, "\\u" + (h + ("\\u" + (l + rest))));
            && c.Some? && c.value.rest == rest
            && (IsUtf8(c.value.value, 0x1_0000 + (u - 0xD800) * 0x400 + (v - 0xDC00)) <==> (u - 0xD800) / 64 % 2 == 0)
  {
    PairTaken(scan, h, l, rest);
    PairUtf8(TakeHex(h).value, TakeHex(l).value);
  }

  lemma PairTaken(scan: Scanner, h: string, l: string, rest: string)
    requires Honest(scan) && FourHex(h) && FourHex(l) && HighHalf(TakeHex(h).value) && LowHalf(TakeHex(l).value)
    ensures TakeOne(scan, "\\u" + (h + ("\\u" + (l + rest)))) ==
      Some(Got(Utf8(Combine(TakeHex(h).value, TakeHex(l).value)), rest))
  {
    var t := "\\u" + (l + rest);
    EscapeParts(h, t);
    EscapeParts(l, rest);
    ScanFour(scan, h, t);
    ScanFour(scan, l, rest);
  }

  lemma PairUtf8(u: nat, v: nat)
    requires HighHalf(u) && LowHalf(v)
    ensures IsUtf8(Utf8(Combine(u, v)), 0x1_0000 + (u - 0xD800) * 0x400 + (v - 0xDC00)) <==>
            (u - 0xD800) / 64 % 2 == 0
  {
    PairExact(u, v);
    Utf8Exact(Combine(u, v));
  }

  /** A high half that no escape follows is passed over. */
  lemma HalfRead(scan: Scanner, h: string, rest: string)
    requires Honest(scan) && FourHex(h) && 0xD800 <= TakeHex(h).value <= 0xDBFF
    requires |rest| < 2 || rest[0] != '\\' || rest[1] != 'u'
    ensures TakeOne(scan, "\\u" + (h + rest)) == Some(Got([], rest))
  {
    EscapeParts(h, rest);
    ScanFour(scan, h, rest);
  }

  /** With an escape behind it that is not a low half, both are passed over. */
  lemma WrongPair(scan: Scanner, h: string, l: string, rest: string)
    requires Honest(scan) && FourHex(h) && FourHex(l)
    requires 0xD800 <= TakeHex(h).value <= 0xDBFF && !(0xDC00 <= TakeHex(l).value <= 0xDFFF)
    ensures TakeOne(scan, "\\u" + (h + ("\\u" + (l + rest)))) == Some(Got([], rest))
  {
    var t := "\\u" + (l + rest);
    EscapeParts(h, t);
    EscapeParts(l, rest);
    ScanFour(scan, h, t);
    ScanFour(scan, l, rest);
  }

  // ---------- letters ----------

  /** `e` is read as `c`, and `c` is written as `e`. */
  ghost predicate Escapes(scan: Scanner, e: string, c: char, rest: string) {
    !AtEnd(e + rest) && TakeOne(scan, e + rest) == Some(Got([c], rest)) && Escape(c) == e
  }

  /** The escapes by a letter. */
  lemma Letters(scan: Scanner, rest: string)
    ensures Escapes(scan, "\\b", 8 as char, rest) && Escapes(scan, "\\t", 9 as char, rest)
    ensures Escapes(scan, "\\n", 10 as char, rest) && Escapes(scan, "\\f", 12 as char, rest)
    ensures Escapes(scan, "\\r", 13 as char, rest) && Escapes(scan, "\\\"", '\"', rest)
    ensures Escapes(scan, "\\\\", '\\', rest)
  {
    LetterEscapes(scan, "\\b", 8 as char, rest);
    LetterEscapes(scan, "\\t", 9 as char, rest);
    LetterEscapes(scan, "\\n", 10 as char, rest);
    LetterEscapes(scan, "\\f", 12 as char, rest);
    LetterEscapes(scan, "\\r", 13 as char, rest);
    LetterEscapes(scan, "\\\"", '\"', rest);
    LetterEscapes(scan, "\\\\", '\\', rest);
  }

  lemma LetterEscapes(scan: Scanner, e: string, c: char, rest: string)
    requires |e| == 2 && e[0] == '\\' && e[1] != 'u' && Unescape(e[1]) == c && Escape(c) == e
    ensures Escapes(scan, e, c, rest)
  {
    TwoChars(e, rest);
  }

  /** Behind a backslash any other character but `u` stands for itself. */
  lemma OtherLetter(scan: Scanner, c: char, rest: string)
    requires c !in {'b', 'f', 'n', 'r', 't', 'u'}
    ensures TakeOne(scan, ['\\', c] + rest) == Some(Got([c], rest))
  {
    TwoChars(['\\', c], rest);
  }

  lemma TwoChars(e: string, rest: string)
    requires |e| == 2
    ensures (e + rest)[0] == e[0] && (e + rest)[1] == e[1] && (e + rest)[2..] == rest
  {
  }

  /** Every other byte below the blank is written as four hexadecimal digits, and the rest as they are. */
  lemma EscapeExact(c: char)
    requires !HasLetter(c) && c as int < 0x100
    ensures c as int >= 32 ==> Escape(c) == [c]
    ensures c as int < 32 ==>
      && |Escape(c)| == 6 && Escape(c)[..2] == "\\u"
      && FourHex(Escape(c)[2..]) && TakeHex(Escape(c)[2..]).value == c as int
  {
    if c as int < 32 {
      assert Escape(c)[2..] == "00" + [HexChar(c as int / 16), HexChar(c as int % 16)];
      HexBack(c as int / 16);
      HexBack(c as int % 16);
    }
  }

  lemma HexBack(d: nat)
    requires d < 16
    ensures HexValue(HexChar(d)) == Some(d)
  {
  }
}
