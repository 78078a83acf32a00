/** Strings of the JSON reader and writer (Polygon/examples/cJSON.c), with the escapes of section 7 of
    RFC 8259. The reader passes over a string twice: it counts bytes to set memory aside, and then
    unescapes into that memory. The two passes do not always agree where the string ends. */
module JsonStrings {
  import opened Basics
  import opened JsonText

  const BACKSPACE := 8 as char
  const FORM_FEED := 12 as char
  const UNIT_SEPARATOR := 31 as char

  /** The bytes that are escaped by a letter. */
  predicate HasLetter(c: char) {
    c in ['\"', '\\', BACKSPACE, FORM_FEED, '\n', '\r', '\t']
  }

  function Letter(c: char): char
    requires HasLetter(c)
  {
    if c == BACKSPACE then 'b'
    else if c == FORM_FEED then 'f'
    else if c == '\n' then 'n'
    else if c == '\r' then 'r'
    else if c == '\t' then 't'
    else c
  }

  /** Any other letter stands for itself. */
  function Unescape(letter: char): char {
    if letter == 'b' then BACKSPACE
    else if letter == 'f' then FORM_FEED
    else if letter == 'n' then '\n'
    else if letter == 'r' then '\r'
    else if letter == 't' then '\t'
    else letter
  }

  function HexChar(d: nat): char
    requires d < 16
  {
    if d < 10 then DigitChar(d) else (d - 10 + 'a' as int) as char
  }

  function HexValue(c: char): (r: Option<nat>)
    ensures r.Some? ==> r.value < 16
  {
    if IsDigit(c) then Some(DigitValue(c))
    else if 'a' <= c <= 'f' then Some(c as int - 'a' as int + 10)
    else if 'A' <= c <= 'F' then Some(c as int - 'A' as int + 10)
    else None
  }

  /** How one byte is written inside quotes. */
  function Escape(c: char): string {
    if HasLetter(c) then ['\\', Letter(c)]
    else if c <= UNIT_SEPARATOR then "\\u00" + [HexChar(c as int / 16), HexChar(c as int % 16)]
    else [c]
  }

  /** The room that is set aside for it. */
  function EscapedLen(c: char): nat {
    1 + if HasLetter(c) then 1 else if c <= UNIT_SEPARATOR then 5 else 0
  }

  function EscapeAll(s: string): string {
    if s == [] || s[0] == '\0' then [] else Escape(s[0]) + EscapeAll(s[1..])
  }

  function EscapedLens(s: string): nat {
    if s == [] || s[0] == '\0' then 0 else EscapedLen(s[0]) + EscapedLens(s[1..])
  }

  function PrintString(s: string): string {
    "\"" + EscapeAll(s) + "\""
  }

  /** The text in quotes takes exactly the room that was set aside: one byte more for each quote. */
  lemma {:induction false} PrintStringLen(s: string)
    ensures |EscapeAll(s)| == EscapedLens(s) && |PrintString(s)| == EscapedLens(s) + 2
  {
    if s != [] && s[0] != '\0' {
      PrintStringLen(s[1..]);
    }
  }

  // Reading.

  /** What scanning four characters for a hexadecimal number leaves in the variable. When fewer than four
      digits are there it may be anything, so the scanner may depend on all of the text ahead. */
  type Scanner = string -> nat

  /** Four hexadecimal digits. */
  function TakeHex(s: string): (r: Option<nat>)
    ensures r.Some? ==> |s| >= 4 && r.value < 0x1_0000
  {
    if |s| < 4 then None else
    var a :- HexValue(s[0]);
    var b :- HexValue(s[1]);
    var c :- HexValue(s[2]);
    var d :- HexValue(s[3]);
    Some(4096 * a + 256 * b + 16 * c + d)
  }

  /** Four digits are scanned as the number they stand for. */
  ghost predicate Honest(scan: Scanner) {
    forall t: string :: TakeHex(t).Some? ==> scan(t) == TakeHex(t).value
  }

  /** UTF-8 with as many bytes as the number calls for. */
  function Utf8(u: nat): (r: string)
    ensures |r| <= 4
  {
    if u < 0x80 then [u as char]
    else if u < 0x800 then [(0xC0 + u / 64) as char, (0x80 + u % 64) as char]
    else if u < 0x1_0000 then [(0xE0 + u / 4096) as char, (0x80 + u / 64 % 64) as char, (0x80 + u % 64) as char]
    else [(0xF0 + u / 262144 % 16) as char, (0x80 + u / 4096 % 64) as char,
          (0x80 + u / 64 % 64) as char, (0x80 + u % 64) as char]
  }

  predicate HighHalf(u: nat) {
    0xD800 <= u <= 0xDBFF
  }

  predicate LowHalf(u: nat) {
    0xDC00 <= u <= 0xDFFF
  }

  function PairBits(u: nat, v: nat): nat
    requires HighHalf(u) && LowHalf(v)
  {
    (u - 0xD800) * 1024 + (v - 0xDC00)
  }

  /** The two halves of a pair put together: bit 16 is set instead of 0x10000 being added. */
  function Combine(u: nat, v: nat): nat
    requires HighHalf(u) && LowHalf(v)
  {
    var x := PairBits(u, v);
    if x / 0x1_0000 % 2 == 1 then x else x + 0x1_0000
  }

  /** A pair is put together right exactly when bit 6 of its first half is clear. */
  lemma PairExact(u: nat, v: nat)
    requires HighHalf(u) && LowHalf(v)
    ensures Combine(u, v) == 0x1_0000 + PairBits(u, v) <==> (u - 0xD800) / 64 % 2 == 0
  {
    var h := u - 0xD800;
    assert PairBits(u, v) / 0x1_0000 == h / 64;
  }

  predicate AtEnd(s: string) {
    s == [] || s[0] == '\0' || s[0] == '\"'
  }

  /** A `u` escape, whose four characters are skipped whatever they are: what it stands for and what
      follows. Nothing is written for 0, for a low half, and for a high half without a low half. */
  function TakeUnicode(scan: Scanner, s: string): (r: Option<Got<string>>)
    requires |s| >= 2
    ensures r.Some? ==> |r.value.rest| < |s| && |r.value.value| <= 4
  {
    if |s| < 6 then None
    else
      var u, t := scan(s[2..]), s[6..];
      if u == 0 || LowHalf(u) then Some(Got([], t))
      else if !HighHalf(u) then Some(Got(Utf8(u), t))
      else if |t| < 2 || t[0] != '\\' || t[1] != 'u' then Some(Got([], t))
      else if |t| < 6 then None
      else
        var v := scan(t[2..]);
        Some(Got(if LowHalf(v) then Utf8(Combine(u, v)) else [], t[6..]))
  }

  /** What the byte or escape at the front stands for, and what follows; None when the code reads past
      the text. */
  function TakeOne(scan: Scanner, s: string): (r: Option<Got<string>>)
    requires !AtEnd(s)
    ensures r.Some? ==> |r.value.rest| < |s|
  {
    if s[0] != '\\' then Some(Got([s[0]], s[1..]))
    else if |s| == 1 then None
    else if s[1] == 'u' then TakeUnicode(scan, s)
    else Some(Got([Unescape(s[1])], s[2..]))
  }

  /** The second pass: everything up to the closing quote, or to the end when there is none. */
  function TakeChars(scan: Scanner, s: string): (r: Option<Got<string>>)
    ensures r.Some? ==> |r.value.rest| <= |s|
    decreases |s|
  {
    if AtEnd(s) then Some(Got([], s)) else
    var c :- TakeOne(scan, s);
    var r :- TakeChars(scan, c.rest);
    Some(Got(c.value + r.value, r.rest))
  }

  /** One step of the first pass: a backslash and what follows count once. */
  function Step(s: string): (r: Option<string>)
    requires !AtEnd(s)
    ensures r.Some? ==> |r.value| < |s|
  {
    if s[0] != '\\' then Some(s[1..]) else if |s| == 1 then None else Some(s[2..])
  }

  /** The first pass: how many bytes are set aside for the text, and where it is taken to end. */
  function Count(s: string): (r: Option<Got<nat>>)
    decreases |s|
  {
    if AtEnd(s) then Some(Got(0, s)) else
    var t :- Step(s);
    var r :- Count(t);
    Some(Got(1 + r.value, r.rest))
  }

  /** A string in quotes. There is no result when it does not start with a quote, and no defined one when
      a pass reads past the text or the second one writes past the memory set aside. */
  function TakeString(scan: Scanner, s: string): (r: Option<Got<string>>)
    ensures r.Some? ==> |r.value.rest| < |s|
  {
    if !StartsWith(s, '\"') then None else
    var n :- Count(s[1..]);
    var r :- TakeChars(scan, s[1..]);
    if n.value < |r.value| then None
    else Some(Got(r.value, if StartsWith(r.rest, '\"') then r.rest[1..] else r.rest))
  }

  /** The second pass writes more than the first one has set aside. */
  predicate Overruns(scan: Scanner, s: string) {
    Count(s).Some? && TakeChars(scan, s).Some? && Count(s).value.value < |TakeChars(scan, s).value.value|
  }

  // When the memory is enough.

  /** In how many steps the first pass gets to exactly the last `m` bytes, if it does. */
  function Walk(s: string, m: nat): (k: Option<nat>)
    ensures k.Some? ==> m <= |s| && k.value <= |s| - m
    decreases |s|
  {
    if |s| <= m then (if |s| == m then Some(0) else None)
    else if AtEnd(s) then None
    else
      var t :- Step(s);
      var k :- Walk(t, m);
      Some(k + 1)
  }

  /** The four characters of a `u` escape do no harm: the first pass gets over exactly these, in three
      steps at least. Four hexadecimal digits are an example. */
  predicate Harmless(t: string) {
    |t| >= 4 && Walk(t, |t| - 4).Some? && Walk(t, |t| - 4).value >= 3
  }

  /** Four bytes without quote, backslash and terminator do no harm. */
  lemma PlainHarmless(b: string, rest: string)
    requires |b| == 4 && Plain(b)
    ensures Harmless(b + rest)
  {
    PlainWalk(b, rest);
  }

  lemma {:induction false} PlainWalk(b: string, rest: string)
    requires Plain(b)
    ensures Walk(b + rest, |rest|) == Some(|b|)
    decreases |b|
  {
    if b == [] {
      assert b + rest == rest;
    } else {
      assert (b + rest)[1..] == b[1..] + rest;
      PlainWalk(b[1..], rest);
    }
  }

  /** No escape of the string does harm. */
  predicate AllHarmless(s: string)
    decreases |s|
  {
    if AtEnd(s) then true
    else if s[0] != '\\' then AllHarmless(s[1..])
    else if |s| == 1 || s[1] == '\0' then false
    else if s[1] == 'u' then Harmless(s[2..]) && AllHarmless(s[6..])
    else AllHarmless(s[2..])
  }

  function Plus(k: nat, r: Option<Got<nat>>): Option<Got<nat>> {
    var x :- r;
    Some(Got(k + x.value, x.rest))
  }

  /** Walking over a part counts its steps. */
  lemma {:induction false} WalkCount(s: string, m: nat)
    requires Walk(s, m).Some?
    ensures Count(s) == Plus(Walk(s, m).value, Count(s[|s| - m..]))
    decreases |s|
  {
    if |s| == m {
      assert s[0..] == s;
    } else {
      var t := Step(s).value;
      WalkCount(t, m);
      SameTail(s, t, m);
    }
  }

  lemma SameTail(s: string, t: string, m: nat)
    requires !AtEnd(s) && Step(s) == Some(t) && m <= |t|
    ensures t[|t| - m..] == s[|s| - m..]
  {
    DropTwice(s, |s| - |t|, |s| - m);
  }

  lemma DropTwice(s: string, m: nat, n: nat)
    requires m <= n <= |s|
    ensures s[m..][n - m..] == s[n..]
  {
  }

  lemma CountStep(s: string, t: string, k: nat, r: Option<Got<nat>>)
    requires !AtEnd(s) && Step(s) == Some(t) && Count(t) == Plus(k, r)
    ensures Count(s) == Plus(1 + k, r)
  {
  }

  /** A `u` escape has a byte set aside for every step over its four characters, and one more. */
  lemma EscapeCount(s: string, t: string, k: nat)
    requires |s| >= 6 && s[0] == '\\' && s[1] == 'u' && t == s[2..] && Walk(t, |t| - 4) == Some(k)
    ensures Count(s) == Plus(1 + k, Count(s[6..]))
  {
    DropTwice(s, 2, 6);
    WalkCount(t, |t| - 4);
    CountStep(s, t, k, Count(s[6..]));
  }

  /** The bytes `c` fit into what is set aside for them in front of `rest`. */
  ghost predicate FitsBefore(s: string, c: string, rest: string) {
    Count(rest).Some? ==>
      Count(s).Some? && Count(s).value.rest == Count(rest).value.rest &&
      |c| + Count(rest).value.value <= Count(s).value.value
  }

  lemma FitsBy(s: string, c: string, rest: string, k: nat)
    requires Count(s) == Plus(k, Count(rest)) && |c| <= k
    ensures FitsBefore(s, c, rest)
  {
  }

  /** Up to four bytes fit in front of what follows one harmless escape. */
  lemma EscapeFits(s: string, c: string)
    requires |s| >= 2 && s[0] == '\\' && s[1] == 'u' && Harmless(s[2..]) && |c| <= 4
    ensures |s| >= 6 && FitsBefore(s, c, s[6..])
  {
    var k := Walk(s[2..], |s| - 6).value;
    EscapeCount(s, s[2..], k);
    FitsBy(s, c, s[6..], 1 + k);
  }

  /** And in front of what follows two. */
  lemma PairFits(s: string, t: string, c: string)
    requires |s| >= 6 && s[0] == '\\' && s[1] == 'u' && Harmless(s[2..]) && |c| <= 4
    requires t == s[6..] && |t| >= 2 && t[0] == '\\' && t[1] == 'u' && Harmless(t[2..])
    ensures |t| >= 6 && FitsBefore(s, c, t[6..])
  {
    EscapeFits(s, []);
    EscapeFits(t, c);
  }

  predicate IsUnicode(s: string) {
    |s| >= 2 && s[0] == '\\' && s[1] == 'u'
  }

  lemma HarmlessNext(s: string)
    requires IsUnicode(s) && AllHarmless(s)
    ensures |s| >= 6 && Harmless(s[2..]) && AllHarmless(s[6..])
  {
  }

  /** Behind a `u` escape, reading goes on after it, or after a second one. */
  lemma UnicodeRest(scan: Scanner, s: string, t: string)
    requires |s| >= 6 && t == s[6..] && (IsUnicode(t) ==> |t| >= 6)
    ensures TakeUnicode(scan, s).Some?
    ensures var rest := TakeUnicode(scan, s).value.rest; rest == t || (IsUnicode(t) && rest == t[6..])
  {
  }

  lemma UnicodeFits(scan: Scanner, s: string)
    requires IsUnicode(s) && AllHarmless(s)
    ensures TakeUnicode(scan, s).Some? && AllHarmless(TakeUnicode(scan, s).value.rest)
    ensures FitsBefore(s, TakeUnicode(scan, s).value.value, TakeUnicode(scan, s).value.rest)
  {
    HarmlessNext(s);
    var t := s[6..];
    if IsUnicode(t) {
      HarmlessNext(t);
    }
    UnicodeRest(scan, s, t);
    var c := TakeUnicode(scan, s).value;
    if c.rest == t {
      EscapeFits(s, c.value);
    } else {
      PairFits(s, t, c.value);
    }
  }

  lemma OneFits(scan: Scanner, s: string)
    requires !AtEnd(s) && AllHarmless(s)
    ensures TakeOne(scan, s).Some? && AllHarmless(TakeOne(scan, s).value.rest)
    ensures FitsBefore(s, TakeOne(scan, s).value.value, TakeOne(scan, s).value.rest)
  {
    if s[0] == '\\' && s[1] == 'u' {
      UnicodeFits(scan, s);
    }
  }

  /** Whatever is scanned, a string without harmful escapes is unescaped within the memory set aside, and
      both passes end at the same place. */
  lemma {:induction false} UnescapedFits(scan: Scanner, s: string)
    requires AllHarmless(s)
    ensures Count(s).Some? && TakeChars(scan, s).Some?
    ensures |TakeChars(scan, s).value.value| <= Count(s).value.value
    ensures TakeChars(scan, s).value.rest == Count(s).value.rest
    decreases |s|
  {
    if !AtEnd(s) {
      OneFits(scan, s);
      UnescapedFits(scan, TakeOne(scan, s).value.rest);
    }
  }

  // When it is not.

  /** Real input: the escape has one digit, so the first pass stops at the quote behind it and counts 2,
      while the second one jumps over that quote and goes on, whatever is scanned. */
  lemma QuoteSkipped(scan: Scanner)
    ensures var s := "\\u1\",aaaa\"";
            && Count(s) == Some(Got(2, "\",aaaa\"")) && Overruns(scan, s)
            && (scan("1\",aaaa\"") == 1 ==> TakeChars(scan, s) == Some(Got([1 as char] + "aaa", "\"")))
  {
    var s := "\\u1\",aaaa\"";
    assert s[2..] == "1\",aaaa\"" && s[2..][1..] == "\",aaaa\"";
    assert Count(s[2..]) == Some(Got(1, "\",aaaa\""));
    assert s[6..] == "aaa" + "\"";
    PlainChars(scan, "aaa", "\"");
    assert TakeOne(scan, s) == TakeUnicode(scan, s) && TakeUnicode(scan, s).value.rest == s[6..];
  }

  predicate Plain(s: string) {
    forall i :: 0 <= i < |s| ==> !AtEnd([s[i]]) && s[i] != '\\'
  }

  lemma {:induction false} PlainChars(scan: Scanner, s: string, rest: string)
    requires Plain(s) && AtEnd(rest)
    ensures TakeChars(scan, s + rest) == Some(Got(s, rest)) && AllHarmless(s + rest)
  {
    if s == [] {
      assert s + rest == rest;
    } else {
      assert (s + rest)[1..] == s[1..] + rest && [s[0]] + s[1..] == s;
      PlainChars(scan, s[1..], rest);
    }
  }

  /** A text that goes on behind a quote which only the second pass sees as escaped. */
  const TRAP: string := "\\\"" + "aaaaaa"

  lemma TrapChars(scan: Scanner)
    ensures AllHarmless(TRAP) && TakeChars(scan, TRAP) == Some(Got("\"" + "aaaaaa", []))
  {
    var tail := "aaaaaa";
    assert TRAP[2..] == tail && tail + [] == tail;
    PlainChars(scan, tail, []);
  }

  /** If the first pass does not get over exactly these bytes, it ends soon: at a quote or terminator
      within them, or at the quote of the trap, because it takes the last byte for a backslash. */
  lemma {:induction false} TrapCount(b: string)
    requires Walk(b, 0).None?
    ensures Count(b + TRAP).Some? && Count(b + TRAP).value.value <= |b|
    decreases |b|
  {
    var s := b + TRAP;
    assert b != [] && s[0] == b[0];
    if !AtEnd(b) {
      if b[0] != '\\' {
        assert s[1..] == b[1..] + TRAP;
        TrapCount(b[1..]);
      } else if |b| == 1 {
        assert s[2..] == TRAP[1..] && AtEnd(TRAP[1..]);
      } else {
        assert s[2..] == b[2..] + TRAP;
        TrapCount(b[2..]);
      }
    }
  }

  function UnicodeText(b: string, rest: string): string {
    "\\u" + b + rest
  }

  lemma UnicodeTail(b: string, rest: string)
    requires |b| == 4
    ensures var s := UnicodeText(b, rest);
            |s| >= 6 && s[0] == '\\' && s[1] == 'u' && s[2..] == b + rest && s[6..] == rest
  {
  }

  lemma {:induction false} WalkPrefix(b: string, rest: string)
    ensures Walk(b + rest, |rest|) == Walk(b, 0)
    decreases |b|
  {
    if b != [] && !AtEnd(b) {
      if b[0] != '\\' {
        assert (b + rest)[1..] == b[1..] + rest;
        WalkPrefix(b[1..], rest);
      } else if |b| > 1 {
        assert (b + rest)[2..] == b[2..] + rest;
        WalkPrefix(b[2..], rest);
      }
    }
  }

  /** Four bytes that are not harmless: some text behind them, and something scanned, make the second
      pass write past the memory set aside. */
  lemma HarmfulOverruns(b: string) returns (rest: string, scan: Scanner)
    requires |b| == 4 && !Harmless(b)
    ensures AllHarmless(rest) && Overruns(scan, UnicodeText(b, rest))
  {
    if Walk(b, 0).None? {
      rest, scan := TRAP, (_: string) => 1;
      TrapChars(scan);
      TrapCount(b);
      UnicodeTail(b, rest);
      OneMore(scan, b, rest);
    } else {
      rest, scan := [], (_: string) => 0x1_0000;
      UnicodeTail(b, rest);
      OneMore(scan, b, rest);
      assert b + rest == b && b[4..] == [];
      WalkCount(b, 0);
    }
  }

  /** With a plain character scanned, the escape adds its bytes to what follows, and one to the count. */
  lemma OneMore(scan: Scanner, b: string, rest: string)
    requires |b| == 4 && TakeChars(scan, rest).Some?
    requires var u := scan(b + rest); u != 0 && !LowHalf(u) && !HighHalf(u)
    ensures var s := UnicodeText(b, rest);
            && Count(s) == Plus(1, Count(b + rest)) && TakeChars(scan, s).Some?
            && |TakeChars(scan, s).value.value| == |Utf8(scan(b + rest))| + |TakeChars(scan, rest).value.value|
  {
    UnicodeTail(b, rest);
  }

  /** Exactly the harmless escapes are safe: those for which the memory is enough whatever is scanned and
      whatever follows, as long as that has no harmful escape itself. */
  lemma EscapeSafe(b: string)
    requires |b| == 4
    ensures Harmless(b) <==>
            forall scan: Scanner, rest: string :: AllHarmless(rest) ==> !Overruns(scan, UnicodeText(b, rest))
  {
    if Harmless(b) {
      forall scan: Scanner, rest: string | AllHarmless(rest)
        ensures !Overruns(scan, UnicodeText(b, rest))
      {
        UnicodeTail(b, rest);
        WalkPrefix(b, rest);
        UnescapedFits(scan, UnicodeText(b, rest));
      }
    } else {
      var rest, scan := HarmfulOverruns(b);
    }
  }

  // Round trip.

  predicate NoNul(s: string) {
    forall i :: 0 <= i < |s| ==> s[i] != '\0'
  }

  lemma DropPrefix(a: string, b: string)
    ensures (a + b)[|a|..] == b
  {
  }

  lemma TakeControl(c: char, s: string)
    requires '\0' < c <= UNIT_SEPARATOR && |s| >= 4
    requires s[0] == '0' && s[1] == '0' && s[2] == HexChar(c as int / 16) && s[3] == HexChar(c as int % 16)
    ensures TakeHex(s) == Some(c as nat) && Utf8(c as nat) == [c] && Harmless(s)
  {
    assert s[1..][0] == '0' && s[2..][0] == s[2] && s[3..][0] == s[3];
    assert s[1..][1..] == s[2..] && s[2..][1..] == s[3..];
    var m := |s| - 4;
    assert Walk(s[3..], m) == Some(1) by { assert s[3..][1..] == s[4..]; }
    assert Walk(s[2..], m) == Some(2);
    assert Walk(s[1..], m) == Some(3);
  }

  /** An escaped byte is read back, and does no harm. */
  lemma TakeEscaped(scan: Scanner, c: char, s: string)
    requires Honest(scan) && c != '\0'
    ensures var e := Escape(c) + s;
            && !AtEnd(e) && TakeOne(scan, e) == Some(Got([c], s)) && (AllHarmless(s) ==> AllHarmless(e))
  {
    var e := Escape(c) + s;
    DropPrefix(Escape(c), s);
    if HasLetter(c) {
      assert Unescape(Letter(c)) == c && Letter(c) != 'u';
    } else if c <= UNIT_SEPARATOR {
      TakeControl(c, e[2..]);
    }
  }

  lemma {:induction false} CharsRoundTrip(scan: Scanner, s: string, rest: string)
    requires Honest(scan) && NoNul(s) && StartsWith(rest, '\"')
    ensures TakeChars(scan, EscapeAll(s) + rest) == Some(Got(s, rest)) && AllHarmless(EscapeAll(s) + rest)
  {
    if s == [] {
      assert EscapeAll(s) + rest == rest;
    } else {
      var tail := EscapeAll(s[1..]) + rest;
      CharsRoundTrip(scan, s[1..], rest);
      TakeEscaped(scan, s[0], tail);
      EscapeAllCons(s, rest);
      Uncons(s);
      TakeCharsCons(scan, Escape(s[0]) + tail, [s[0]], tail);
    }
  }

  lemma EscapeAllCons(s: string, rest: string)
    requires s != [] && s[0] != '\0'
    ensures EscapeAll(s) + rest == Escape(s[0]) + (EscapeAll(s[1..]) + rest)
  {
    Assoc(Escape(s[0]), EscapeAll(s[1..]), rest);
  }

  lemma TakeCharsCons(scan: Scanner, e: string, c: string, t: string)
    requires !AtEnd(e) && TakeOne(scan, e) == Some(Got(c, t)) && TakeChars(scan, t).Some?
    ensures TakeChars(scan, e) == Some(Got(c + TakeChars(scan, t).value.value, TakeChars(scan, t).value.rest))
  {
  }

  /** Every string without NUL is read back from its printed form. */
  lemma StringRoundTrip(scan: Scanner, s: string, rest: string)
    requires Honest(scan) && NoNul(s)
    ensures TakeString(scan, PrintString(s) + rest) == Some(Got(s, rest))
  {
    var t := EscapeAll(s) + ("\"" + rest);
    CharsRoundTrip(scan, s, "\"" + rest);
    UnescapedFits(scan, t);
    Quoted(EscapeAll(s), rest);
    TakeQuoted(scan, PrintString(s) + rest, t);
  }

  lemma Quoted(e: string, rest: string)
    ensures var q := "\"" + e + "\"" + rest; q[0] == '\"' && q[1..] == e + ("\"" + rest) && ("\"" + rest)[1..] == rest
  {
  }

  lemma TakeQuoted(scan: Scanner, q: string, t: string)
    requires StartsWith(q, '\"') && q[1..] == t && Count(t).Some? && TakeChars(scan, t).Some?
    requires |TakeChars(scan, t).value.value| <= Count(t).value.value && StartsWith(TakeChars(scan, t).value.rest, '\"')
    ensures TakeString(scan, q) == Some(Got(TakeChars(scan, t).value.value, TakeChars(scan, t).value.rest[1..]))
  {
  }
}
