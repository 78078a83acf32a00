/** The procedures of the JSON reader and writer (Polygon/examples/cJSON.c): loops that walk a text,
    buffers whose size is worked out first, and lists of children that grow at their end. */
module JsonCodec {
  import opened Basics
  import opened JsonText
  import opened JsonStrings
  import opened Json

  method SkipSpace(s: string) returns (t: string)
    ensures t == Skip(s)
  {
    t := s;
    while t != [] && IsSpace(t[0])
      invariant Skip(t) == Skip(s)
      decreases |t|
    {
      t := t[1..];
    }
  }

  // Strings.

  /** Puts text at position `p` of a buffer. */
  method PutText(out: array<char>, p: nat, text: string) returns (q: nat)
    requires p + |text| <= out.Length
    modifies out
    ensures q == p + |text| && out[..q] == old(out[..p]) + text
  {
    var i: nat := 0;
    while i < |text|
      invariant i <= |text|
      invariant forall j :: 0 <= j < p ==> out[j] == old(out[j])
      invariant forall j :: 0 <= j < i ==> out[p + j] == text[j]
    {
      out[p + i] := text[i];
      i := i + 1;
    }
    q := p + |text|;
    assert forall j :: p <= j < q ==> out[j] == text[j - p];
  }

  /** The room for a string: every byte is counted with its escape. */
  method CountEscaped(s: string) returns (len: nat)
    ensures len == EscapedLens(s)
  {
    len := 0;
    var t := s;
    while t != [] && t[0] != '\0'
      invariant len + EscapedLens(t) == EscapedLens(s)
      decreases |t|
    {
      len := len + EscapedLen(t[0]);
      t := t[1..];
    }
  }

  /** Writes a string in quotes, with a terminator, into a buffer of exactly the counted size. */
  method WriteString(s: string) returns (out: array<char>)
    ensures out[..] == PrintString(s) + "\0"
  {
    var len := CountEscaped(s);
    PrintStringLen(s);
    out := new char[len + 3](_ => '\0');
    var p: nat := PutText(out, 0, "\"");
    var t := s;
    ghost var todo := EscapeAll(s);
    while t != [] && t[0] != '\0'
      invariant todo == EscapeAll(t) && p <= out.Length && out[..p] + todo == "\"" + EscapeAll(s)
      decreases |t|
    {
      ghost var done, todo' := out[..p], EscapeAll(t[1..]);
      Assoc(done, Escape(t[0]), todo');
      EscapeFits(done, Escape(t[0]), todo', |EscapeAll(s)| + 1);
      p := PutText(out, p, Escape(t[0]));
      t, todo := t[1..], todo';
    }
    assert out[..p] + [] == out[..p];
    p := PutText(out, p, "\"");
    p := PutText(out, p, "\0");
  }

  lemma EscapeFits(done: string, e: string, todo: string, n: nat)
    requires |done + (e + todo)| == n
    ensures |done| + |e| <= n
  {
  }

  /** The first pass over a string: the memory it needs; none when the pass runs past the text. */
  method CountBytes(s: string) returns (len: Option<nat>)
    ensures len == if Count(s).Some? then Some(Count(s).value.value) else None
  {
    var n: nat, t := 0, s;
    len := Some(0);
    while !AtEnd(t) && len.Some?
      invariant Count(s) == if len.Some? then Plus(n, Count(t)) else None
      decreases |t|, len.Some?
    {
      CountNext(t, n);
      if t[0] == '\\' && |t| == 1 {
        len := None;
      } else {
        n := n + 1;
        t := if t[0] != '\\' then t[1..] else t[2..];
      }
    }
    if len.Some? {
      len := Some(n);
    }
  }

  lemma CountNext(t: string, n: nat)
    requires !AtEnd(t)
    ensures Step(t).None? ==> Plus(n, Count(t)).None?
    ensures Step(t).Some? ==> Plus(n, Count(t)) == Plus(n + 1, Count(Step(t).value))
  {
    if Step(t).Some? {
      CountCons(t, Step(t).value);
      PlusOne(n, Count(Step(t).value));
    }
  }

  lemma CountCons(t: string, u: string)
    requires !AtEnd(t) && Step(t) == Some(u)
    ensures Count(t) == Plus(1, Count(u))
  {
  }

  lemma PlusOne(n: nat, r: Option<Got<nat>>)
    ensures Plus(n, Plus(1, r)) == Plus(n + 1, r)
  {
  }

  /** The text `done` and what is still to be read from `t`. */
  ghost function Whole(scan: Scanner, done: string, t: string): Option<Got<string>> {
    var r :- TakeChars(scan, t);
    Some(Got(done + r.value, r.rest))
  }

  lemma WholeStep(scan: Scanner, done: string, t: string)
    requires !AtEnd(t)
    ensures TakeOne(scan, t).None? ==> Whole(scan, done, t).None?
    ensures TakeOne(scan, t).Some? ==>
      Whole(scan, done, t) == Whole(scan, done + TakeOne(scan, t).value.value, TakeOne(scan, t).value.rest)
  {
    if TakeOne(scan, t).Some? {
      var c := TakeOne(scan, t).value;
      if TakeChars(scan, c.rest).Some? {
        var r := TakeChars(scan, c.rest).value.value;
        assert done + (c.value + r) == done + c.value + r;
      }
    }
  }

  /** Reads a string in quotes into memory of the counted size. It gives up where the code runs past the
      text or would write past that memory. */
  method ReadString(scan: Scanner, s: string) returns (r: Option<Got<string>>)
    ensures r == TakeString(scan, s)
  {
    if !StartsWith(s, '\"') {
      return None;
    }
    var len := CountBytes(s[1..]);
    if len.None? {
      return None;
    }
    var out := new char[len.value + 1](_ => '\0');
    var p: nat := 0;
    var t, ok := s[1..], true;
    WholeStart(scan, s[1..]);
    assert out[..p] == [];
    while ok && !AtEnd(t)
      invariant p <= len.value
      invariant if ok then TakeChars(scan, s[1..]) == Whole(scan, out[..p], t) else TakeString(scan, s).None?
      decreases ok, |t|
    {
      WholeStep(scan, out[..p], t);
      match TakeOne(scan, t)
      case None =>
        ok := false;
      case Some(c) =>
        if p + |c.value| > len.value {
          ok := false;
        } else {
          p := PutText(out, p, c.value);
          t := c.rest;
        }
    }
    if !ok {
      return None;
    }
    WholeEnd(scan, out[..p], t);
    return Some(Got(out[..p], if StartsWith(t, '\"') then t[1..] else t));
  }

  lemma WholeStart(scan: Scanner, t: string)
    ensures Whole(scan, [], t) == TakeChars(scan, t)
  {
    if TakeChars(scan, t).Some? {
      assert [] + TakeChars(scan, t).value.value == TakeChars(scan, t).value.value;
    }
  }

  lemma WholeEnd(scan: Scanner, done: string, t: string)
    requires AtEnd(t)
    ensures Whole(scan, done, t) == Some(Got(done, t))
  {
    assert done + [] == done;
  }

  // Reading values. Children are appended to the list of their parent.

  function Chain(done: seq<Value>, items: Items): Items {
    if done == [] then items else Item(done[0], Chain(done[1..], items))
  }

  lemma {:induction false} ChainLast(done: seq<Value>, v: Value, items: Items)
    ensures Chain(done + [v], items) == Chain(done, Item(v, items))
  {
    if done == [] {
      assert done + [v] == [v];
    } else {
      ChainLast(done[1..], v, items);
      assert (done + [v])[1..] == done[1..] + [v];
    }
  }

  /** The items `done` and those still to be read from `s`. */
  ghost function AllItems(scan: Scanner, done: seq<Value>, s: string): Option<Got<Items>> {
    var r :- ParseItems(scan, s);
    Some(Got(Chain(done, r.value), r.rest))
  }

  /** What reading one item says about reading them all. */
  lemma ItemStep(scan: Scanner, done: seq<Value>, s: string)
    ensures Parse(scan, Skip(s)).None? ==> AllItems(scan, done, s).None?
    ensures Parse(scan, Skip(s)).Some? ==>
      var v := Parse(scan, Skip(s)).value;
      var t := Skip(v.rest);
      AllItems(scan, done, s) ==
        if StartsWith(t, ',') then AllItems(scan, done + [v.value], t[1..])
        else if StartsWith(t, ']') then Some(Got(Chain(done + [v.value], NoItem), t[1..]))
        else None
  {
    if Parse(scan, Skip(s)).Some? {
      var v := Parse(scan, Skip(s)).value;
      var t := Skip(v.rest);
      ChainLast(done, v.value, NoItem);
      if StartsWith(t, ',') && ParseItems(scan, t[1..]).Some? {
        ChainLast(done, v.value, ParseItems(scan, t[1..]).value.value);
      }
    }
  }

  method ReadItems(scan: Scanner, s: string) returns (r: Option<Got<Items>>)
    ensures r == ParseItems(scan, s)
    decreases |s|, 1
  {
    var done: seq<Value> := [];
    var u, more := s, true;
    r := None;
    while more
      invariant ParseItems(scan, s) == if more then AllItems(scan, done, u) else r
      invariant |u| <= |s| && (more ==> r.None?)
      decreases more, |u|
    {
      var t := SkipSpace(u);
      ItemStep(scan, done, u);
      var v := ReadValue(scan, t);
      more := false;
      if v.Some? {
        t := SkipSpace(v.value.rest);
        done := done + [v.value.value];
        if StartsWith(t, ',') {
          u, more := t[1..], true;
        } else if StartsWith(t, ']') {
          r := Some(Got(Chain(done, NoItem), t[1..]));
        }
      }
    }
  }

  function ChainMembers(done: seq<(string, Value)>, members: Members): Members {
    if done == [] then members else Member(done[0].0, done[0].1, ChainMembers(done[1..], members))
  }

  lemma {:induction false} ChainMembersLast(done: seq<(string, Value)>, name: string, v: Value, members: Members)
    ensures ChainMembers(done + [(name, v)], members) == ChainMembers(done, Member(name, v, members))
  {
    if done == [] {
      assert done + [(name, v)] == [(name, v)];
    } else {
      ChainMembersLast(done[1..], name, v, members);
      assert (done + [(name, v)])[1..] == done[1..] + [(name, v)];
    }
  }

  /** The members `done` and those still to be read from `s`. */
  ghost function AllMembers(scan: Scanner, done: seq<(string, Value)>, s: string): Option<Got<Members>> {
    var r :- ParseMembers(scan, s);
    Some(Got(ChainMembers(done, r.value), r.rest))
  }

  /** A name, a colon and a value. */
  function TakeMember(scan: Scanner, s: string): (r: Option<Got<(string, Value)>>)
    ensures r.Some? ==> |r.value.rest| < |s|
  {
    var name :- TakeString(scan, Skip(s));
    var t := Skip(name.rest);
    if !StartsWith(t, ':') then None else
    var v :- Parse(scan, Skip(t[1..]));
    Some(Got((name.value, v.value), v.rest))
  }

  /** What reading one member says about reading them all. */
  lemma MemberStep(scan: Scanner, done: seq<(string, Value)>, s: string)
    ensures TakeMember(scan, s).None? ==> AllMembers(scan, done, s).None?
    ensures TakeMember(scan, s).Some? ==>
      var m := TakeMember(scan, s).value;
      var t := Skip(m.rest);
      AllMembers(scan, done, s) ==
        if StartsWith(t, ',') then AllMembers(scan, done + [m.value], t[1..])
        else if StartsWith(t, '}') then Some(Got(ChainMembers(done + [m.value], NoMember), t[1..]))
        else None
  {
    if TakeMember(scan, s).Some? {
      var m := TakeMember(scan, s).value;
      var t := Skip(m.rest);
      ChainMembersLast(done, m.value.0, m.value.1, NoMember);
      if StartsWith(t, ',') && ParseMembers(scan, t[1..]).Some? {
        ChainMembersLast(done, m.value.0, m.value.1, ParseMembers(scan, t[1..]).value.value);
      }
    }
  }

  method ReadMember(scan: Scanner, s: string) returns (r: Option<Got<(string, Value)>>)
    ensures r == TakeMember(scan, s)
    decreases |s|, 1
  {
    r := None;
    var t := SkipSpace(s);
    var name := ReadString(scan, t);
    if name.Some? {
      t := SkipSpace(name.value.rest);
      if StartsWith(t, ':') {
        t := SkipSpace(t[1..]);
        var v := ReadValue(scan, t);
        if v.Some? {
          r := Some(Got((name.value.value, v.value.value), v.value.rest));
        }
      }
    }
  }

  method ReadMembers(scan: Scanner, s: string) returns (r: Option<Got<Members>>)
    ensures r == ParseMembers(scan, s)
    decreases |s|, 2
  {
    var done: seq<(string, Value)> := [];
    var u, more := s, true;
    r := None;
    while more
      invariant ParseMembers(scan, s) == if more then AllMembers(scan, done, u) else r
      invariant |u| <= |s| && (more ==> r.None?)
      decreases more, |u|
    {
      MemberStep(scan, done, u);
      var m := ReadMember(scan, u);
      more := false;
      if m.Some? {
        var t := SkipSpace(m.value.rest);
        done := done + [m.value.value];
        if StartsWith(t, ',') {
          u, more := t[1..], true;
        } else if StartsWith(t, '}') {
          r := Some(Got(ChainMembers(done, NoMember), t[1..]));
        }
      }
    }
  }

  method ReadArray(scan: Scanner, t: string) returns (r: Option<Got<Value>>)
    ensures r == ParseArray(scan, t)
    decreases |t|, 3
  {
    if StartsWith(t, ']') {
      return Some(Got(Arr(NoItem), t[1..]));
    }
    var items := ReadItems(scan, t);
    r := if items.None? then None else Some(Got(Arr(items.value.value), items.value.rest));
  }

  method ReadObject(scan: Scanner, t: string) returns (r: Option<Got<Value>>)
    ensures r == ParseObject(scan, t)
    decreases |t|, 3
  {
    if StartsWith(t, '}') {
      return Some(Got(Obj(NoMember), t[1..]));
    }
    var members := ReadMembers(scan, t);
    r := if members.None? then None else Some(Got(Obj(members.value.value), members.value.rest));
  }

  /** Reads the value at the front of a text. */
  method ReadValue(scan: Scanner, s: string) returns (r: Option<Got<Value>>)
    ensures r == Parse(scan, s)
    decreases |s|, 0
  {
    if HasPrefix(s, "null") {
      r := Some(Got(Null, s[4..]));
    } else if HasPrefix(s, "false") {
      r := Some(Got(False, s[5..]));
    } else if HasPrefix(s, "true") {
      r := Some(Got(True, s[4..]));
    } else if StartsWith(s, '\"') {
      var str := ReadString(scan, s);
      r := if str.None? then None else Some(Got(Str(str.value.value), str.value.rest));
    } else if StartsNumber(s) {
      var n := ReadNumber(s);
      r := Some(Got(OfNumber(n.value), n.rest));
    } else if StartsWith(s, '[') {
      var t := SkipSpace(s[1..]);
      r := ReadArray(scan, t);
    } else if StartsWith(s, '{') {
      var t := SkipSpace(s[1..]);
      r := ReadObject(scan, t);
    } else {
      r := None;
    }
  }

  // Numbers.

  method ReadDigits(acc: nat, s: string) returns (r: Got<nat>)
    ensures r == TakeDigits(acc, s)
  {
    var n: nat, t := acc, s;
    while t != [] && IsDigit(t[0])
      invariant TakeDigits(n, t) == TakeDigits(acc, s)
      decreases |t|
    {
      n, t := 10 * n + DigitValue(t[0]), t[1..];
    }
    r := Got(n, t);
  }

  method ReadInteger(s: string) returns (r: Got<nat>)
    ensures r == TakeInteger(s)
  {
    var t := s;
    if StartsWith(t, '0') {
      t := t[1..];
    }
    r := Got(0, t);
    if t != [] && '1' <= t[0] <= '9' {
      r := ReadDigits(DigitValue(t[0]), t[1..]);
    }
  }

  method ReadFraction(n: nat, s: string) returns (r: Got<nat>)
    ensures r == TakeFraction(n, s)
  {
    r := Got(n, s);
    if |s| > 1 && s[0] == '.' && IsDigit(s[1]) {
      r := ReadDigits(n, s[1..]);
    }
  }

  method ReadExponent(s: string) returns (r: Got<int>)
    ensures r == TakeExponent(s)
  {
    r := Got(0, s);
    if StartsWith(s, 'e') || StartsWith(s, 'E') {
      var t := s[1..];
      var minus := StartsWith(t, '-');
      if StartsWith(t, '+') || minus {
        t := t[1..];
      }
      var d := ReadDigits(0, t);
      var e: int := d.value;
      r := Got(if minus then -e else e, d.rest);
    }
  }

  /** Sign, digits, fraction and exponent, in one pass. */
  method ReadNumber(s: string) returns (r: Got<Number>)
    requires StartsNumber(s)
    ensures r == TakeNumber(s)
  {
    var signed := s[0] == '-';
    var i := ReadInteger(if signed then s[1..] else s);
    var f := ReadFraction(i.value, i.rest);
    var e := ReadExponent(f.rest);
    var places := if |f.rest| < |i.rest| then |i.rest| - |f.rest| - 1 else 0;
    var n: int := f.value;
    r := Got(Number(if signed then -n else n, e.value - places, places == 0 && e.value == 0, signed), e.rest);
  }

  // Printing arrays and objects: the children are printed first, then the room is worked out, then
  // the text is composed.

  function Entries(items: Items, depth: nat, fmt: bool): seq<string>
    requires NoDoubleItems(items)
  {
    if items.NoItem? then [] else [Print(items.value, depth, fmt)] + Entries(items.next, depth, fmt)
  }

  function Join(entries: seq<string>, fmt: bool): string {
    if entries == [] then []
    else entries[0] + If(|entries| > 1, "," + If(fmt, " ")) + Join(entries[1..], fmt)
  }

  lemma {:induction false} JoinIs(items: Items, depth: nat, fmt: bool)
    requires NoDoubleItems(items)
    ensures Join(Entries(items, depth, fmt), fmt) == PrintItems(items, depth, fmt)
    ensures |Entries(items, depth, fmt)| == CountItems(items)
  {
    if items.Item? {
      JoinIs(items.next, depth, fmt);
    }
  }

  function ArrayRoom(entries: seq<string>, fmt: bool): nat {
    if entries == [] then 0 else |entries[0]| + 2 + (if fmt then 1 else 0) + ArrayRoom(entries[1..], fmt)
  }

  lemma {:induction false} ArrayRoomLast(entries: seq<string>, e: string, fmt: bool)
    ensures ArrayRoom(entries + [e], fmt) == ArrayRoom(entries, fmt) + |e| + 2 + (if fmt then 1 else 0)
  {
    if entries == [] {
      assert entries + [e] == [e];
    } else {
      ArrayRoomLast(entries[1..], e, fmt);
      assert (entries + [e])[1..] == entries[1..] + [e];
    }
  }

  /** Room is made for a separator behind the last entry too, and for a terminator behind every entry. */
  lemma {:induction false} JoinRoom(entries: seq<string>, fmt: bool)
    ensures ArrayRoom(entries, fmt) ==
      if entries == [] then 0 else |Join(entries, fmt)| + |entries| + 1 + if fmt then 1 else 0
  {
    if entries != [] {
      JoinRoom(entries[1..], fmt);
    }
  }

  /** Prints the children of an array and works out the room for the whole. */
  method WriteEntries(items: Items, depth: nat, fmt: bool) returns (entries: seq<string>, len: nat)
    requires NoDoubleItems(items)
    ensures entries == Entries(items, depth, fmt) && len == 5 + ArrayRoom(entries, fmt)
    decreases items, 0
  {
    var child := items;
    ghost var todo := Entries(items, depth, fmt);
    entries, len := [], 5;
    while child.Item?
      invariant NoDoubleItems(child) && (child == items || child < items)
      invariant todo == Entries(child, depth, fmt) && entries + todo == Entries(items, depth, fmt)
      invariant len == 5 + ArrayRoom(entries, fmt)
      decreases child
    {
      var e := WriteValue(child.value, depth, fmt);
      todo := Entries(child.next, depth, fmt);
      MoveOne(entries, e, todo);
      ArrayRoomLast(entries, e, fmt);
      len := len + |e| + 2 + if fmt then 1 else 0;
      entries := entries + [e];
      child := child.next;
    }
    assert entries + [] == entries;
  }

  method Compose(entries: seq<string>, fmt: bool) returns (out: string)
    ensures out == "[" + Join(entries, fmt) + "]"
  {
    out := "[";
    var i: nat := 0;
    ghost var todo := Join(entries, fmt);
    assert entries[0..] == entries;
    while i < |entries|
      invariant i <= |entries| && todo == Join(entries[i..], fmt) && out + todo == "[" + Join(entries, fmt)
    {
      var sep := If(i != |entries| - 1, "," + If(fmt, " "));
      assert entries[i..][1..] == entries[i + 1..];
      todo := Join(entries[i + 1..], fmt);
      JoinText(out, entries[i], sep, todo);
      out := out + entries[i] + sep;
      i := i + 1;
    }
    assert out + [] == out;
    out := out + "]";
  }

  lemma JoinText(out: string, e: string, sep: string, tail: string)
    ensures out + (e + sep + tail) == out + e + sep + tail
  {
  }

  function CountItems(items: Items): nat {
    if items.NoItem? then 0 else 1 + CountItems(items.next)
  }

  /** Prints an array; `len` bytes are set aside for it, which is enough for the text and its
      terminator, with a byte to spare for every item. */
  method WriteArray(items: Items, depth: nat, fmt: bool) returns (out: string, len: nat)
    requires NoDoubleItems(items)
    ensures out == Print(Arr(items), depth, fmt)
    ensures len == |out| + if items.NoItem? then 3 else CountItems(items) + 4 + if fmt then 1 else 0
    decreases items, 1
  {
    var entries: seq<string>;
    entries, len := WriteEntries(items, depth + 1, fmt);
    JoinIs(items, depth + 1, fmt);
    JoinRoom(entries, fmt);
    out := Compose(entries, fmt);
  }

  // Objects: names and values.

  datatype Line = Line(name: string, entry: string)

  function Lines(members: Members, depth: nat, fmt: bool): seq<Line>
    requires NoDoubleMembers(members)
  {
    if members.NoMember? then []
    else [Line(PrintString(members.name), Print(members.value, depth, fmt))] + Lines(members.next, depth, fmt)
  }

  function LineText(line: Line, last: bool, depth: nat, fmt: bool): string {
    If(fmt, Tabs(depth)) + line.name + ":" + If(fmt, "\t") + line.entry + If(!last, ",") + If(fmt, "\n")
  }

  function JoinLines(lines: seq<Line>, depth: nat, fmt: bool): string {
    if lines == [] then [] else LineText(lines[0], |lines| == 1, depth, fmt) + JoinLines(lines[1..], depth, fmt)
  }

  lemma {:induction false} JoinLinesIs(members: Members, depth: nat, fmt: bool)
    requires NoDoubleMembers(members)
    ensures JoinLines(Lines(members, depth, fmt), depth, fmt) == PrintMembers(members, depth, fmt)
    ensures |Lines(members, depth, fmt)| > 0 <==> members.Member?
  {
    if members.Member? {
      JoinLinesIs(members.next, depth, fmt);
    }
  }

  function LineRoom(line: Line, depth: nat, fmt: bool): nat {
    |line.entry| + |line.name| + 2 + if fmt then 2 + depth else 0
  }

  function ObjectRoom(lines: seq<Line>, depth: nat, fmt: bool): nat {
    if lines == [] then 0 else LineRoom(lines[0], depth, fmt) + ObjectRoom(lines[1..], depth, fmt)
  }

  lemma {:induction false} ObjectRoomLast(lines: seq<Line>, line: Line, depth: nat, fmt: bool)
    ensures ObjectRoom(lines + [line], depth, fmt) == ObjectRoom(lines, depth, fmt) + LineRoom(line, depth, fmt)
  {
    if lines == [] {
      assert lines + [line] == [line];
    } else {
      ObjectRoomLast(lines[1..], line, depth, fmt);
      assert (lines + [line])[1..] == lines[1..] + [line];
    }
  }

  lemma {:induction false} JoinLinesRoom(lines: seq<Line>, depth: nat, fmt: bool)
    ensures ObjectRoom(lines, depth, fmt) == |JoinLines(lines, depth, fmt)| + if lines == [] then 0 else 1
  {
    if lines != [] {
      JoinLinesRoom(lines[1..], depth, fmt);
    }
  }

  method WriteLines(members: Members, depth: nat, fmt: bool) returns (lines: seq<Line>, len: nat)
    requires NoDoubleMembers(members)
    ensures lines == Lines(members, depth, fmt)
    ensures len == 7 + (if fmt then depth else 0) + ObjectRoom(lines, depth, fmt)
    decreases members, 0
  {
    var base: nat := 7 + if fmt then depth else 0;
    var child := members;
    ghost var todo := Lines(members, depth, fmt);
    lines, len := [], base;
    while child.Member?
      invariant NoDoubleMembers(child) && (child == members || child < members)
      invariant todo == Lines(child, depth, fmt) && lines + todo == Lines(members, depth, fmt)
      invariant len == base + ObjectRoom(lines, depth, fmt)
      decreases child
    {
      var line := WriteLine(child.name, child.value, depth, fmt);
      todo := Lines(child.next, depth, fmt);
      MoveOne(lines, line, todo);
      ObjectRoomLast(lines, line, depth, fmt);
      len := len + LineRoom(line, depth, fmt);
      lines := lines + [line];
      child := child.next;
    }
    assert lines + [] == lines;
  }

  method WriteLine(name: string, v: Value, depth: nat, fmt: bool) returns (line: Line)
    requires NoDouble(v)
    ensures line == Line(PrintString(name), Print(v, depth, fmt))
    decreases v, 3
  {
    var entry := WriteValue(v, depth, fmt);
    line := Line(PrintString(name), entry);
  }

  lemma MoveOne<T>(done: seq<T>, x: T, todo: seq<T>)
    ensures done + ([x] + todo) == done + [x] + todo
  {
  }

  method ComposeLines(lines: seq<Line>, depth: nat, fmt: bool) returns (out: string)
    ensures out == "{" + If(fmt, "\n") + JoinLines(lines, depth, fmt)
  {
    out := "{" + If(fmt, "\n");
    var i: nat := 0;
    ghost var todo, final := JoinLines(lines, depth, fmt), out + JoinLines(lines, depth, fmt);
    assert lines[0..] == lines;
    while i < |lines|
      invariant i <= |lines| && todo == JoinLines(lines[i..], depth, fmt) && out + todo == final
    {
      var text := LineText(lines[i], i == |lines| - 1, depth, fmt);
      assert lines[i..][1..] == lines[i + 1..];
      todo := JoinLines(lines[i + 1..], depth, fmt);
      Assoc(out, text, todo);
      out := out + text;
      i := i + 1;
    }
    assert out + [] == out;
  }

  /** Prints an object; `len` bytes are set aside for it, which is enough for the text and its
      terminator, with five bytes to spare, or four without members. */
  method WriteObject(members: Members, depth: nat, fmt: bool) returns (out: string, len: nat)
    requires NoDoubleMembers(members)
    ensures out == Print(Obj(members), depth, fmt)
    ensures len == |out| + if members.NoMember? then 5 else 6
    decreases members, 1
  {
    var lines: seq<Line>;
    lines, len := WriteLines(members, depth + 1, fmt);
    JoinLinesIs(members, depth + 1, fmt);
    JoinLinesRoom(lines, depth + 1, fmt);
    out := ComposeLines(lines, depth + 1, fmt);
    out := out + If(fmt, Tabs(depth)) + "}";
  }

  /** Prints a value in compact or formatted layout. */
  method WriteValue(v: Value, depth: nat, fmt: bool) returns (out: string)
    requires NoDouble(v)
    ensures out == Print(v, depth, fmt)
    decreases v, 2
  {
    var len: nat;
    match v
    case Arr(items) => out, len := WriteArray(items, depth, fmt);
    case Obj(members) => out, len := WriteObject(members, depth, fmt);
    case Str(s) =>
      var buffer := WriteString(s);
      out := buffer[..buffer.Length - 1];
    case Null => out := "null";
    case False => out := "false";
    case True => out := "true";
    case Int(n, signed) => out := PrintInt(n, signed);
  }
}
