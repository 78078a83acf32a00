/** JSON trees, their compact and their formatted text, and the reader of both
    (Polygon/examples/cJSON.c). */
module Json {
  import opened Basics
  import opened JsonText
  import opened JsonStrings

  /** The children of an array or an object form a linked list. */
  datatype Value =
    | Null
    | False
    | True
    | Int(n: int, signed: bool)
    | Double(digits: int, exponent: int)
    | Str(s: string)
    | Arr(items: Items)
    | Obj(members: Members)

  datatype Items = NoItem | Item(value: Value, next: Items)

  datatype Members = NoMember | Member(name: string, value: Value, next: Members)

  // Printing.

  function Tabs(n: nat): (r: string)
    ensures |r| == n && Spaces(r)
  {
    seq(n, _ => '\t')
  }

  function If(fmt: bool, s: string): string {
    if fmt then s else []
  }

  /** Trees that the printer is modelled on. */
  predicate NoDouble(v: Value) {
    match v
    case Double(_, _) => false
    case Arr(items) => NoDoubleItems(items)
    case Obj(members) => NoDoubleMembers(members)
    case _ => true
  }

  predicate NoDoubleItems(items: Items) {
    items.Item? ==> NoDouble(items.value) && NoDoubleItems(items.next)
  }

  predicate NoDoubleMembers(members: Members) {
    members.Member? ==> NoDouble(members.value) && NoDoubleMembers(members.next)
  }

  function Print(v: Value, depth: nat, fmt: bool): string
    requires NoDouble(v)
  {
    match v
    case Null => "null"
    case False => "false"
    case True => "true"
    case Int(n, signed) => PrintInt(n, signed)
    case Str(s) => PrintString(s)
    case Arr(items) => "[" + PrintItems(items, depth + 1, fmt) + "]"
    case Obj(members) => "{" + If(fmt, "\n") + PrintMembers(members, depth + 1, fmt) + If(fmt, Tabs(depth)) + "}"
  }

  function PrintItems(items: Items, depth: nat, fmt: bool): string
    requires NoDoubleItems(items)
  {
    if items.NoItem? then []
    else Print(items.value, depth, fmt) + If(items.next.Item?, "," + If(fmt, " ")) + PrintItems(items.next, depth, fmt)
  }

  function PrintMembers(members: Members, depth: nat, fmt: bool): string
    requires NoDoubleMembers(members)
  {
    if members.NoMember? then []
    else
      If(fmt, Tabs(depth)) + PrintString(members.name) + ":" + If(fmt, "\t") + Print(members.value, depth, fmt)
      + If(members.next.Member?, ",") + If(fmt, "\n") + PrintMembers(members.next, depth, fmt)
  }

  // Reading.

  predicate HasPrefix(s: string, word: string) {
    |word| <= |s| && s[..|word|] == word
  }

  function OfNumber(n: Number): Value {
    if n.integral then Int(n.n, n.signed) else Double(n.n, n.exponent)
  }

  function Parse(scan: Scanner, s: string): (r: Option<Got<Value>>)
    ensures r.Some? ==> |r.value.rest| < |s|
    decreases |s|, 0
  {
    if HasPrefix(s, "null") then Some(Got(Null, s[4..]))
    else if HasPrefix(s, "false") then Some(Got(False, s[5..]))
    else if HasPrefix(s, "true") then Some(Got(True, s[4..]))
    else if StartsWith(s, '\"') then
      var r :- TakeString(scan, s);
      Some(Got(Str(r.value), r.rest))
    else if StartsNumber(s) then
      var r := TakeNumber(s);
      Some(Got(OfNumber(r.value), r.rest))
    else if StartsWith(s, '[') then ParseArray(scan, Skip(s[1..]))
    else if StartsWith(s, '{') then ParseObject(scan, Skip(s[1..]))
    else None
  }

  /** What follows an opening bracket. */
  function ParseArray(scan: Scanner, t: string): (r: Option<Got<Value>>)
    ensures r.Some? ==> |r.value.rest| < |t|
    decreases |t|, 2
  {
    if StartsWith(t, ']') then Some(Got(Arr(NoItem), t[1..])) else
    var r :- ParseItems(scan, t);
    Some(Got(Arr(r.value), r.rest))
  }

  /** What follows an opening brace. */
  function ParseObject(scan: Scanner, t: string): (r: Option<Got<Value>>)
    ensures r.Some? ==> |r.value.rest| < |t|
    decreases |t|, 2
  {
    if StartsWith(t, '}') then Some(Got(Obj(NoMember), t[1..])) else
    var r :- ParseMembers(scan, t);
    Some(Got(Obj(r.value), r.rest))
  }

  /** The items of an array up to and with the closing bracket. */
  function ParseItems(scan: Scanner, s: string): (r: Option<Got<Items>>)
    ensures r.Some? ==> |r.value.rest| < |s|
    decreases |s|, 1
  {
    var v :- Parse(scan, Skip(s));
    var t := Skip(v.rest);
    if StartsWith(t, ',') then
      var r :- ParseItems(scan, t[1..]);
      Some(Got(Item(v.value, r.value), r.rest))
    else if StartsWith(t, ']') then Some(Got(Item(v.value, NoItem), t[1..]))
    else None
  }

  /** The members of an object up to and with the closing brace. */
  function ParseMembers(scan: Scanner, s: string): (r: Option<Got<Members>>)
    ensures r.Some? ==> |r.value.rest| < |s|
    decreases |s|, 1
  {
    var name :- TakeString(scan, Skip(s));
    var t := Skip(name.rest);
    if !StartsWith(t, ':') then None else
    var v :- Parse(scan, Skip(t[1..]));
    var u := Skip(v.rest);
    if StartsWith(u, ',') then
      var r :- ParseMembers(scan, u[1..]);
      Some(Got(Member(name.value, v.value, r.value), r.rest))
    else if StartsWith(u, '}') then Some(Got(Member(name.value, v.value, NoMember), u[1..]))
    else None
  }

  // Round trip.

  /** Trees that come back: strings end at a NUL, the sign mark of an integer is set exactly for the
      negative ones, and its magnitude fits in 63 bits. */
  predicate Normal(v: Value) {
    match v
    case Int(n, signed) => -0x8000_0000_0000_0000 < n < 0x8000_0000_0000_0000 && (signed <==> n < 0)
    case Double(_, _) => false
    case Str(s) => NoNul(s)
    case Arr(items) => NormalItems(items)
    case Obj(members) => NormalMembers(members)
    case _ => true
  }

  predicate NormalItems(items: Items) {
    items.Item? ==> Normal(items.value) && NormalItems(items.next)
  }

  predicate NormalMembers(members: Members) {
    members.Member? ==> NoNul(members.name) && Normal(members.value) && NormalMembers(members.next)
  }

  lemma NormalNoDouble(v: Value)
    requires Normal(v)
    ensures NoDouble(v)
  {
    match v
    case Arr(items) => NormalNoDoubleItems(items);
    case Obj(members) => NormalNoDoubleMembers(members);
    case _ =>
  }

  lemma NormalNoDoubleItems(items: Items)
    requires NormalItems(items)
    ensures NoDoubleItems(items)
  {
    if items.Item? {
      NormalNoDouble(items.value);
      NormalNoDoubleItems(items.next);
    }
  }

  lemma NormalNoDoubleMembers(members: Members)
    requires NormalMembers(members)
    ensures NoDoubleMembers(members)
  {
    if members.Member? {
      NormalNoDouble(members.value);
      NormalNoDoubleMembers(members.next);
    }
  }

  /** A printed value starts with a visible character that cannot be taken for the end of a list. */
  predicate Opens(s: string) {
    s != [] && s[0] > ' ' && s[0] != ']' && s[0] != '}'
  }

  lemma PrintOpens(v: Value, depth: nat, fmt: bool)
    requires NoDouble(v)
    ensures Opens(Print(v, depth, fmt))
  {
    if v.Int? {
      FoldDigits(if v.n >= 0 then v.n else if v.signed then -v.n else v.n % 0x1_0000_0000_0000_0000);
    }
  }

  /** What may follow a value: nothing that could belong to a number. */
  predicate Follows(s: string) {
    EndsNumber(s)
  }

  ghost predicate Reads(scan: Scanner, s: string, v: Value, rest: string) {
    Parse(scan, s) == Some(Got(v, rest))
  }

  lemma ReadsInt(scan: Scanner, n: int, signed: bool, rest: string)
    requires Normal(Int(n, signed)) && Follows(rest)
    ensures Reads(scan, PrintInt(n, signed) + rest, Int(n, signed), rest)
  {
    IntRoundTrip(n, signed, rest);
    OpensNumber(scan, PrintInt(n, signed) + rest);
  }

  lemma OpensNumber(scan: Scanner, s: string)
    requires StartsNumber(s)
    ensures Parse(scan, s) == Some(Got(OfNumber(TakeNumber(s).value), TakeNumber(s).rest))
  {
    NotWord(s, "null");
    NotWord(s, "false");
    NotWord(s, "true");
  }

  lemma ReadsStr(scan: Scanner, str: string, rest: string)
    requires Honest(scan) && NoNul(str)
    ensures Reads(scan, PrintString(str) + rest, Str(str), rest)
  {
    StringRoundTrip(scan, str, rest);
  }

  lemma NotWord(s: string, word: string)
    requires s != [] && word != []
    ensures s[0] != word[0] ==> !HasPrefix(s, word)
  {
    if |word| <= |s| {
      assert s[..|word|][0] == s[0];
    }
  }

  lemma ReadsWord(scan: Scanner, v: Value, depth: nat, fmt: bool, rest: string)
    requires v in {Null, False, True}
    ensures Reads(scan, Print(v, depth, fmt) + rest, v, rest)
  {
    var word := Print(v, depth, fmt);
    var s := word + rest;
    assert s[..|word|] == word && s[|word|..] == rest && s[0] == word[0];
    NotWord(s, "null");
    NotWord(s, "false");
  }

  lemma ReadsArr(scan: Scanner, s: string, t: string, items: Items, rest: string)
    requires StartsWith(s, '[') && Skip(s[1..]) == t && Opens(t)
    requires ParseItems(scan, t) == Some(Got(items, rest))
    ensures Reads(scan, s, Arr(items), rest)
  {
    OpensArr(scan, s, t);
  }

  lemma OpensArr(scan: Scanner, s: string, t: string)
    requires StartsWith(s, '[') && Skip(s[1..]) == t
    ensures Parse(scan, s) == ParseArray(scan, t)
  {
    NotWord(s, "null");
    NotWord(s, "false");
    NotWord(s, "true");
  }

  lemma ReadsObj(scan: Scanner, u: string, members: Members, rest: string)
    requires ParseMembers(scan, u) == Some(Got(members, rest))
    ensures Reads(scan, "{" + u, Obj(members), rest)
  {
    Prepend('{', u);
    var t := Skip(u);
    SkipNothing(t);
    assert ParseMembers(scan, t) == ParseMembers(scan, u);
    assert !StartsWith(t, '}');
    OpensObj(scan, "{" + u, t);
  }

  lemma OpensObj(scan: Scanner, s: string, t: string)
    requires StartsWith(s, '{') && Skip(s[1..]) == t
    ensures Parse(scan, s) == ParseObject(scan, t)
  {
    NotWord(s, "null");
    NotWord(s, "false");
    NotWord(s, "true");
  }

  lemma ReadsEmptyArr(scan: Scanner, rest: string)
    ensures Reads(scan, "[]" + rest, Arr(NoItem), rest)
  {
    var s := "[]" + rest;
    assert s[1..] == "]" + rest && s[1..][1..] == rest;
    SkipNothing(s[1..]);
    NotWord(s, "null");
    NotWord(s, "false");
    NotWord(s, "true");
  }

  lemma ReadsEmptyObj(scan: Scanner, space: string, rest: string)
    requires Spaces(space)
    ensures Reads(scan, "{" + space + "}" + rest, Obj(NoMember), rest)
  {
    var t := "}" + rest;
    assert "{" + space + "}" + rest == "{" + (space + t);
    Prepend('{', space + t);
    SkipSpaces(space, t);
    OpensObj(scan, "{" + (space + t), t);
    Prepend('}', rest);
  }

  lemma Prepend(c: char, s: string)
    ensures ([c] + s)[0] == c && ([c] + s)[1..] == s
  {
  }

  // The items of an array.

  lemma LastItem(scan: Scanner, s: string, v: Value, rest: string)
    requires Opens(s) && Reads(scan, s, v, "]" + rest)
    ensures ParseItems(scan, s) == Some(Got(Item(v, NoItem), rest))
  {
    Prepend(']', rest);
    SkipNothing(s);
    SkipNothing("]" + rest);
  }

  lemma NextItem(scan: Scanner, s: string, v: Value, space: string, t: string, items: Items, rest: string)
    requires Opens(s) && Reads(scan, s, v, "," + (space + t))
    requires Spaces(space) && Opens(t) && ParseItems(scan, t) == Some(Got(items, rest))
    ensures ParseItems(scan, s) == Some(Got(Item(v, items), rest))
  {
    Prepend(',', space + t);
    SkipNothing(s);
    SkipNothing("," + (space + t));
    SpacedItems(scan, space, t);
  }

  lemma SpacedItems(scan: Scanner, space: string, t: string)
    requires Spaces(space) && Opens(t)
    ensures ParseItems(scan, space + t) == ParseItems(scan, t)
  {
    SkipSpaces(space, t);
    SkipNothing(t);
  }

  lemma {:induction false} ItemsRoundTrip(scan: Scanner, items: Items, depth: nat, fmt: bool, rest: string)
    requires Honest(scan) && items.Item? && NormalItems(items) && NoDoubleItems(items)
    ensures Opens(PrintItems(items, depth, fmt))
    ensures ParseItems(scan, PrintItems(items, depth, fmt) + ("]" + rest)) == Some(Got(items, rest))
    decreases items, 0
  {
    var first, more := Print(items.value, depth, fmt), PrintItems(items.next, depth, fmt);
    PrintOpens(items.value, depth, fmt);
    if items.next.NoItem? {
      assert PrintItems(items, depth, fmt) == first;
      ValueRoundTrip(scan, items.value, depth, fmt, "]" + rest);
      LastItem(scan, first + ("]" + rest), items.value, rest);
    } else {
      var space, t := If(fmt, " "), more + ("]" + rest);
      ItemsRoundTrip(scan, items.next, depth, fmt, rest);
      ValueRoundTrip(scan, items.value, depth, fmt, "," + (space + t));
      NextItem(scan, first + ("," + (space + t)), items.value, space, t, items.next, rest);
      ItemsText(first, space, more, "]" + rest);
    }
  }

  lemma ItemsText(first: string, space: string, more: string, end: string)
    ensures first + ("," + space) + more + end == first + ("," + (space + (more + end)))
  {
  }

  // The members of an object.

  lemma ReadsName(scan: Scanner, pre: string, name: string, t: string)
    requires Honest(scan) && Spaces(pre) && NoNul(name)
    ensures TakeString(scan, Skip(pre + (PrintString(name) + (":" + t)))) == Some(Got(name, ":" + t))
  {
    SkipSpaces(pre, PrintString(name) + (":" + t));
    StringRoundTrip(scan, name, ":" + t);
  }

  /** A text that starts with a member of an object. */
  function MemberText(pre: string, name: string, sep: string, value: string): string {
    pre + (PrintString(name) + (":" + (sep + value)))
  }

  /** A name, a colon and a value have been read off `s`, and `u` follows. */
  ghost predicate HasMember(scan: Scanner, s: string, name: string, v: Value, u: string) {
    var n := TakeString(scan, Skip(s));
    && n.Some? && n.value.value == name
    && var t := Skip(n.value.rest);
    StartsWith(t, ':') && Parse(scan, Skip(t[1..])) == Some(Got(v, u))
  }

  lemma ReadsMember(scan: Scanner, pre: string, name: string, sep: string, value: string, v: Value, u: string)
    requires Honest(scan) && Spaces(pre) && NoNul(name) && Spaces(sep) && Opens(value) && Reads(scan, value, v, u)
    ensures HasMember(scan, MemberText(pre, name, sep, value), name, v, u)
  {
    ReadsName(scan, pre, name, sep + value);
    Prepend(':', sep + value);
    SkipNothing(":" + (sep + value));
    SkipSpaces(sep, value);
  }

  lemma LastOfMembers(scan: Scanner, s: string, name: string, v: Value, u: string, rest: string)
    requires HasMember(scan, s, name, v, u) && Skip(u) == "}" + rest
    ensures ParseMembers(scan, s) == Some(Got(Member(name, v, NoMember), rest))
  {
    Prepend('}', rest);
  }

  lemma MoreMembers(scan: Scanner, s: string, name: string, v: Value, t: string, members: Members, rest: string)
    requires HasMember(scan, s, name, v, "," + t) && ParseMembers(scan, t) == Some(Got(members, rest))
    ensures ParseMembers(scan, s) == Some(Got(Member(name, v, members), rest))
  {
    Prepend(',', t);
    SkipNothing("," + t);
  }

  lemma LastMember(scan: Scanner, pre: string, name: string, sep: string, value: string, v: Value,
                   space: string, rest: string)
    requires Honest(scan) && Spaces(pre) && NoNul(name) && Spaces(sep) && Opens(value) && Spaces(space)
    requires Reads(scan, value, v, space + ("}" + rest))
    ensures ParseMembers(scan, MemberText(pre, name, sep, value)) == Some(Got(Member(name, v, NoMember), rest))
  {
    ReadsMember(scan, pre, name, sep, value, v, space + ("}" + rest));
    SkipSpaces(space, "}" + rest);
    LastOfMembers(scan, MemberText(pre, name, sep, value), name, v, space + ("}" + rest), rest);
  }

  lemma NextMember(scan: Scanner, pre: string, name: string, sep: string, value: string, v: Value,
                   t: string, members: Members, rest: string)
    requires Honest(scan) && Spaces(pre) && NoNul(name) && Spaces(sep) && Opens(value)
    requires Reads(scan, value, v, "," + t) && ParseMembers(scan, t) == Some(Got(members, rest))
    ensures ParseMembers(scan, MemberText(pre, name, sep, value)) == Some(Got(Member(name, v, members), rest))
  {
    ReadsMember(scan, pre, name, sep, value, v, "," + t);
    MoreMembers(scan, MemberText(pre, name, sep, value), name, v, t, members, rest);
  }

  lemma SpacedMembers(scan: Scanner, space: string, t: string)
    requires Spaces(space) && ParseMembers(scan, t).Some?
    ensures ParseMembers(scan, space + t) == ParseMembers(scan, t)
  {
    SkipTwice(space, t);
  }

  lemma {:induction false} SkipTwice(space: string, t: string)
    requires Spaces(space)
    ensures Skip(space + t) == Skip(t)
  {
    if space == [] {
      assert space + t == t;
    } else {
      assert (space + t)[1..] == space[1..] + t;
      SkipTwice(space[1..], t);
    }
  }

  lemma {:induction false} MembersRoundTrip(scan: Scanner, members: Members, depth: nat, fmt: bool,
                                            space: string, rest: string)
    requires Honest(scan) && members.Member? && NormalMembers(members) && NoDoubleMembers(members) && Spaces(space)
    ensures ParseMembers(scan, PrintMembers(members, depth, fmt) + (space + ("}" + rest))) == Some(Got(members, rest))
    decreases members, 0
  {
    var v, end := members.value, space + ("}" + rest);
    var pre, sep, line := If(fmt, Tabs(depth)), If(fmt, "\t"), If(fmt, "\n");
    var text, more := Print(v, depth, fmt), PrintMembers(members.next, depth, fmt);
    PrintOpens(v, depth, fmt);
    if members.next.NoMember? {
      var tail := line + space + ("}" + rest);
      ValueRoundTrip(scan, v, depth, fmt, tail);
      LastMember(scan, pre, members.name, sep, text + tail, v, line + space, rest);
      LastText(pre, PrintString(members.name), sep, text, line, space, "}" + rest);
    } else {
      var t := line + (more + end);
      MembersRoundTrip(scan, members.next, depth, fmt, space, rest);
      SpacedMembers(scan, line, more + end);
      ValueRoundTrip(scan, v, depth, fmt, "," + t);
      NextMember(scan, pre, members.name, sep, text + ("," + t), v, t, members.next, rest);
      NextText(pre, PrintString(members.name), sep, text, line, more, end);
    }
  }

  lemma LastText(pre: string, name: string, sep: string, text: string, line: string, space: string, end: string)
    ensures pre + name + ":" + sep + text + [] + line + [] + (space + end)
         == pre + (name + (":" + (sep + (text + (line + space + end)))))
  {
  }

  lemma NextText(pre: string, name: string, sep: string, text: string, line: string, more: string, end: string)
    ensures pre + name + ":" + sep + text + "," + line + more + end
         == pre + (name + (":" + (sep + (text + ("," + (line + (more + end)))))))
  {
  }

  // Values.

  /** Reading the text of a tree, compact or formatted, gives the tree back and stops right behind
      the text. */
  lemma {:induction false} ValueRoundTrip(scan: Scanner, v: Value, depth: nat, fmt: bool, rest: string)
    requires Honest(scan) && Normal(v) && NoDouble(v) && Follows(rest)
    ensures Reads(scan, Print(v, depth, fmt) + rest, v, rest)
    decreases v, 0
  {
    match v
    case Int(n, signed) => ReadsInt(scan, n, signed, rest);
    case Str(s) => ReadsStr(scan, s, rest);
    case Arr(items) => ArrRoundTrip(scan, items, depth, fmt, rest);
    case Obj(members) => ObjRoundTrip(scan, members, depth, fmt, rest);
    case _ => ReadsWord(scan, v, depth, fmt, rest);
  }

  lemma ArrText(body: string, rest: string)
    ensures "[" + body + "]" + rest == "[" + (body + ("]" + rest))
  {
  }

  lemma {:induction false} ArrRoundTrip(scan: Scanner, items: Items, depth: nat, fmt: bool, rest: string)
    requires Honest(scan) && NormalItems(items) && NoDoubleItems(items)
    ensures Reads(scan, "[" + PrintItems(items, depth + 1, fmt) + "]" + rest, Arr(items), rest)
    decreases items, 1
  {
    if items.NoItem? {
      ReadsEmptyArr(scan, rest);
    } else {
      var body := PrintItems(items, depth + 1, fmt);
      var t := body + ("]" + rest);
      ItemsRoundTrip(scan, items, depth + 1, fmt, rest);
      ArrText(body, rest);
      Prepend('[', t);
      SkipNothing(t);
      ReadsArr(scan, "[" + t, t, items, rest);
    }
  }

  lemma ObjText(line: string, body: string, space: string, rest: string)
    ensures "{" + line + body + space + "}" + rest == "{" + (line + (body + (space + ("}" + rest))))
  {
  }

  lemma EmptyBraces(scan: Scanner, line: string, space: string, rest: string)
    requires Spaces(line) && Spaces(space)
    ensures Reads(scan, "{" + line + [] + space + "}" + rest, Obj(NoMember), rest)
  {
    ReadsEmptyObj(scan, line + space, rest);
    assert "{" + line + [] + space + "}" + rest == "{" + (line + space) + "}" + rest;
  }

  /** Members behind white space, in braces. */
  lemma BracedMembers(scan: Scanner, members: Members, line: string, body: string, space: string, rest: string)
    requires Spaces(line) && ParseMembers(scan, body + (space + ("}" + rest))) == Some(Got(members, rest))
    ensures Reads(scan, "{" + line + body + space + "}" + rest, Obj(members), rest)
  {
    var t := body + (space + ("}" + rest));
    SpacedMembers(scan, line, t);
    ReadsObj(scan, line + t, members, rest);
    ObjText(line, body, space, rest);
  }

  lemma IndentSpaces(depth: nat, fmt: bool)
    ensures Spaces(If(fmt, "\n")) && Spaces(If(fmt, Tabs(depth)))
  {
  }

  lemma {:induction false} ObjRoundTrip(scan: Scanner, members: Members, depth: nat, fmt: bool, rest: string)
    requires Honest(scan) && NormalMembers(members) && NoDoubleMembers(members)
    ensures Reads(scan, "{" + If(fmt, "\n") + PrintMembers(members, depth + 1, fmt) + If(fmt, Tabs(depth)) + "}" + rest,
                  Obj(members), rest)
    decreases members, 1
  {
    var line, space := If(fmt, "\n"), If(fmt, Tabs(depth));
    var body := PrintMembers(members, depth + 1, fmt);
    IndentSpaces(depth, fmt);
    if members.NoMember? {
      assert body == [];
      EmptyBraces(scan, line, space, rest);
    } else {
      MembersRoundTrip(scan, members, depth + 1, fmt, space, rest);
      BracedMembers(scan, members, line, body, space, rest);
    }
  }

  /** Reading a document: leading white space is skipped. */
  function ParseDocument(scan: Scanner, s: string): Option<Got<Value>> {
    Parse(scan, Skip(s))
  }

  /** The text of a normal tree is read back as the same tree, in either layout, and is used up. */
  lemma DocumentRoundTrip(scan: Scanner, v: Value, fmt: bool)
    requires Honest(scan) && Normal(v)
    ensures NoDouble(v) && ParseDocument(scan, Print(v, 0, fmt)) == Some(Got(v, ""))
  {
    NormalNoDouble(v);
    var s := Print(v, 0, fmt);
    PrintOpens(v, 0, fmt);
    SkipNothing(s);
    ValueRoundTrip(scan, v, 0, fmt, "");
    assert s + "" == s;
  }

  /** So no two normal trees share a text, even across the two layouts. */
  lemma PrintInjective(scan: Scanner, v: Value, w: Value, f: bool, g: bool)
    requires Honest(scan) && Normal(v) && Normal(w) && NoDouble(v) && NoDouble(w)
    ensures Print(v, 0, f) == Print(w, 0, g) ==> v == w
  {
    DocumentRoundTrip(scan, v, f);
    DocumentRoundTrip(scan, w, g);
  }
}
