/** What printed JSON looks like, compact and formatted (Polygon/examples/cJSON.c). */
module JsonLayout {
  import opened Basics
  import opened JsonText
  import opened JsonStrings
  import opened Json

  function Join(texts: seq<string>, sep: string): string {
    if texts == [] then []
    else if |texts| == 1 then texts[0]
    else texts[0] + sep + Join(texts[1..], sep)
  }

  function ItemTexts(items: Items, depth: nat, fmt: bool): seq<string>
    requires NoDoubleItems(items)
  {
    if items.NoItem? then [] else [Print(items.value, depth, fmt)] + ItemTexts(items.next, depth, fmt)
  }

  function MemberTexts(members: Members, depth: nat, fmt: bool): seq<string>
    requires NoDoubleMembers(members)
  {
    if members.NoMember? then []
    else
      var text := PrintString(members.name) + (if fmt then ":\t" else ":") + Print(members.value, depth, fmt);
      [if fmt then seq(depth, _ => '\t') + text else text] + MemberTexts(members.next, depth, fmt)
  }

  /** Items are separated by commas, with a blank behind each in the formatted layout. */
  lemma {:induction false} ItemsText(items: Items, depth: nat, fmt: bool)
    requires NoDoubleItems(items)
    ensures PrintItems(items, depth, fmt) == Join(ItemTexts(items, depth, fmt), if fmt then ", " else ",")
  {
    if items.Item? {
      ItemsText(items.next, depth, fmt);
      var texts := ItemTexts(items, depth, fmt);
      assert texts[1..] == ItemTexts(items.next, depth, fmt);
    }
  }

  /** Members are separated by commas; in the formatted layout each stands on a line of its own, indented
      by tabs. */
  lemma {:induction false} MembersText(members: Members, depth: nat, fmt: bool)
    requires NoDoubleMembers(members)
    ensures PrintMembers(members, depth, fmt) ==
      Join(MemberTexts(members, depth, fmt), if fmt then ",\n" else ",") +
      if fmt && members.Member? then "\n" else []
  {
    if members.Member? {
      MembersText(members.next, depth, fmt);
      var texts, more := MemberTexts(members, depth, fmt), MemberTexts(members.next, depth, fmt);
      assert texts[1..] == more;
      MemberText(members, depth, fmt);
      var end := if fmt && members.next.Member? then "\n" else [];
      if members.next.NoMember? {
        LastLine(texts[0], fmt);
      } else if fmt {
        NextLine(texts[0], ",\n", Join(more, ",\n"), end);
      } else {
        NextLine(texts[0], ",", Join(more, ","), end);
      }
    }
  }

  lemma MemberText(members: Members, depth: nat, fmt: bool)
    requires NoDoubleMembers(members) && members.Member?
    ensures PrintMembers(members, depth, fmt) ==
      MemberTexts(members, depth, fmt)[0]
      + (if members.next.Member? then (if fmt then ",\n" else ",") else if fmt then "\n" else [])
      + PrintMembers(members.next, depth, fmt)
  {
    var name, value := PrintString(members.name), Print(members.value, depth, fmt);
    var more := PrintMembers(members.next, depth, fmt);
    if fmt {
      FormattedLine(Tabs(depth), name, value, If(members.next.Member?, ","), more);
      assert seq(depth, _ => '\t') == Tabs(depth);
    } else {
      CompactLine(name, value, If(members.next.Member?, ","), more);
    }
  }

  lemma FormattedLine(tabs: string, name: string, value: string, comma: string, more: string)
    ensures tabs + name + ":" + "\t" + value + comma + "\n" + more
         == tabs + (name + ":\t" + value) + (comma + "\n") + more
  {
  }

  lemma CompactLine(name: string, value: string, comma: string, more: string)
    ensures [] + name + ":" + [] + value + comma + [] + more == name + ":" + value + comma + more
  {
  }

  lemma LastLine(text: string, fmt: bool)
    ensures text + (if fmt then "\n" else []) + [] == text + if fmt then "\n" else []
  {
  }

  lemma NextLine(text: string, sep: string, more: string, end: string)
    ensures text + sep + (more + end) == text + sep + more + end
  {
  }

  /** A number in the text is read as an integer when it is whole, and otherwise as its digits and the
      power of ten. */
  lemma NumberRead(scan: Scanner, s: string)
    requires StartsNumber(s)
    ensures var n := TakeNumber(s).value;
            Parse(scan, s) ==
            Some(Got(if n.integral then Int(n.n, n.signed) else Double(n.n, n.exponent), TakeNumber(s).rest))
  {
    OpensNumber(scan, s);
  }

  /** The text of each kind of value. */
  lemma ValueText(v: Value, depth: nat, fmt: bool)
    requires NoDouble(v)
    ensures Print(v, depth, fmt) == match v
      case Null => "null"
      case False => "false"
      case True => "true"
      case Int(n, signed) =>
        if 0 <= n then Digits(n) else if signed then "-" + Digits(-n) else Digits(n % 0x1_0000_0000_0000_0000)
      case Str(s) => "\"" + EscapeAll(s) + "\""
      case Arr(items) => "[" + Join(ItemTexts(items, depth + 1, fmt), if fmt then ", " else ",") + "]"
      case Obj(members) =>
        var lines := Join(MemberTexts(members, depth + 1, fmt), if fmt then ",\n" else ",");
        if !fmt then "{" + lines + "}"
        else "{\n" + lines + (if members.Member? then "\n" else []) + seq(depth, _ => '\t') + "}"
  {
    match v
    case Arr(items) => ItemsText(items, depth + 1, fmt);
    case Obj(members) => if fmt { FormattedText(members, depth); } else { CompactText(members, depth); }
    case _ =>
  }

  lemma CompactText(members: Members, depth: nat)
    requires NoDoubleMembers(members)
    ensures Print(Obj(members), depth, false) == "{" + Join(MemberTexts(members, depth + 1, false), ",") + "}"
  {
    MembersText(members, depth + 1, false);
    var lines := Join(MemberTexts(members, depth + 1, false), ",");
    assert "{" + [] + (lines + []) + [] + "}" == "{" + lines + "}";
  }

  lemma FormattedText(members: Members, depth: nat)
    requires NoDoubleMembers(members)
    ensures Print(Obj(members), depth, true) ==
      "{\n" + Join(MemberTexts(members, depth + 1, true), ",\n") + (if members.Member? then "\n" else [])
      + seq(depth, _ => '\t') + "}"
  {
    MembersText(members, depth + 1, true);
    assert seq(depth, _ => '\t') == Tabs(depth);
    Braces(Join(MemberTexts(members, depth + 1, true), ",\n"), if members.Member? then "\n" else [], Tabs(depth));
  }

  lemma Braces(lines: string, end: string, tabs: string)
    ensures "{" + "\n" + (lines + end) + tabs + "}" == "{\n" + lines + end + tabs + "}"
  {
  }
}
