/** Reading JSON with any white space between its parts (Polygon/examples/cJSON.c). */
module JsonSpaces {
  import opened Basics
  import opened JsonText
  import opened JsonStrings
  import opened Json

  /** A text of a tree: the tree with the white space at every place where some may stand. */
  datatype Doc =
    | Leaf(v: Value)
    | List(open: string, docs: Docs)
    | Table(open: string, fields: Fields)

  datatype Docs = NoDoc | Next(before: string, doc: Doc, after: string, more: Docs)

  datatype Fields =
    | NoField
    | Field(before: string, name: string, gap: string, between: string, doc: Doc, after: string, more: Fields)

  /** The tree that is meant. */
  function Tree(d: Doc): Value {
    match d
    case Leaf(v) => v
    case List(_, docs) => Arr(ItemsOf(docs))
    case Table(_, fields) => Obj(MembersOf(fields))
  }

  function ItemsOf(docs: Docs): Items {
    if docs.NoDoc? then NoItem else Item(Tree(docs.doc), ItemsOf(docs.more))
  }

  function MembersOf(fields: Fields): Members {
    if fields.NoField? then NoMember else Member(fields.name, Tree(fields.doc), MembersOf(fields.more))
  }

  /** Only white space is put in, strings hold no NUL, and integers have their sign mark right. */
  predicate Laid(d: Doc) {
    match d
    case Leaf(v) =>
      || v in {Null, False, True} || (v.Str? && NoNul(v.s))
      || (v.Int? && -0x8000_0000_0000_0000 < v.n < 0x8000_0000_0000_0000 && (v.signed <==> v.n < 0))
    case List(open, docs) => Spaces(open) && LaidDocs(docs)
    case Table(open, fields) => Spaces(open) && LaidFields(fields)
  }

  predicate LaidDocs(docs: Docs) {
    docs.Next? ==> Spaces(docs.before) && Laid(docs.doc) && Spaces(docs.after) && LaidDocs(docs.more)
  }

  predicate LaidFields(fields: Fields) {
    fields.Field? ==>
      && Spaces(fields.before) && NoNul(fields.name) && Spaces(fields.gap) && Spaces(fields.between)
      && Laid(fields.doc) && Spaces(fields.after) && LaidFields(fields.more)
  }

  /** These are all the trees that the printer gives back. */
  lemma {:induction false} LaidNormal(d: Doc)
    requires Laid(d)
    ensures Normal(Tree(d))
  {
    match d
    case Leaf(_) =>
    case List(_, docs) => LaidItems(docs);
    case Table(_, fields) => LaidMembers(fields);
  }

  lemma {:induction false} LaidItems(docs: Docs)
    requires LaidDocs(docs)
    ensures NormalItems(ItemsOf(docs))
  {
    if docs.Next? {
      LaidNormal(docs.doc);
      LaidItems(docs.more);
    }
  }

  lemma {:induction false} LaidMembers(fields: Fields)
    requires LaidFields(fields)
    ensures NormalMembers(MembersOf(fields))
  {
    if fields.Field? {
      LaidNormal(fields.doc);
      LaidMembers(fields.more);
    }
  }

  /** The text of a document, and `rest` behind it. */
  function Text(d: Doc, rest: string): string
    requires Laid(d)
  {
    match d
    case Leaf(v) => Print(v, 0, false) + rest
    case List(open, docs) => "[" + if docs.NoDoc? then open + ("]" + rest) else DocsText(docs, rest)
    case Table(open, fields) => "{" + if fields.NoField? then open + ("}" + rest) else FieldsText(fields, rest)
  }

  function DocsText(docs: Docs, rest: string): string
    requires docs.Next? && LaidDocs(docs)
  {
    docs.before + Text(docs.doc, docs.after + if docs.more.NoDoc? then "]" + rest else "," + DocsText(docs.more, rest))
  }

  function FieldsText(fields: Fields, rest: string): string
    requires fields.Field? && LaidFields(fields)
  {
    var tail := if fields.more.NoField? then "}" + rest else "," + FieldsText(fields.more, rest);
    var value := fields.between + Text(fields.doc, fields.after + tail);
    fields.before + (PrintString(fields.name) + (fields.gap + (":" + value)))
  }

  lemma TextOpens(d: Doc, rest: string)
    requires Laid(d)
    ensures Opens(Text(d, rest))
  {
    if d.Leaf? {
      PrintOpens(d.v, 0, false);
    }
  }

  /** White space in front of a separator, and what follows it. */
  lemma SkipTo(space: string, c: char, t: string)
    requires Spaces(space) && !IsSpace(c)
    ensures Skip(space + ([c] + t)) == [c] + t && ([c] + t)[1..] == t
    ensures c in {']', '}', ',', ':'} ==> Follows(space + ([c] + t))
  {
    SkipSpaces(space, [c] + t);
  }

  lemma SkipOpen(space: string, s: string)
    requires Spaces(space) && Opens(s)
    ensures Skip(space + s) == s && Skip(s) == s
  {
    SkipSpaces(space, s);
    SkipNothing(s);
  }

  /** Whatever white space stands between the parts of a text, it is read as the tree that is meant, up to
      the end of its text. */
  lemma {:induction false} SpacedRead(scan: Scanner, d: Doc, rest: string)
    requires Honest(scan) && Laid(d) && Follows(rest)
    ensures Parse(scan, Text(d, rest)) == Some(Got(Tree(d), rest))
    decreases d, 0
  {
    match d
    case Leaf(v) => NormalNoDouble(v); ValueRoundTrip(scan, v, 0, false, rest);
    case List(open, docs) => ListRead(scan, open, docs, rest);
    case Table(open, fields) => TableRead(scan, open, fields, rest);
  }

  lemma {:induction false} ListRead(scan: Scanner, open: string, docs: Docs, rest: string)
    requires Honest(scan) && Spaces(open) && LaidDocs(docs)
    ensures Parse(scan, Text(List(open, docs), rest)) == Some(Got(Arr(ItemsOf(docs)), rest))
    decreases docs, 1
  {
    if docs.NoDoc? {
      Prepend('[', open + ("]" + rest));
      SkipTo(open, ']', rest);
      OpensArr(scan, Text(List(open, docs), rest), "]" + rest);
    } else {
      var t := DocsText(docs, rest);
      Prepend('[', t);
      FirstDoc(docs, rest);
      DocsRead(scan, docs, rest);
      OpensArr(scan, Text(List(open, docs), rest), Skip(t));
    }
  }

  /** Behind the white space the first document starts. */
  lemma FirstDoc(docs: Docs, rest: string)
    requires docs.Next? && LaidDocs(docs)
    ensures var t := Skip(DocsText(docs, rest)); Opens(t) && Skip(t) == t
    ensures var tail := if docs.more.NoDoc? then "]" + rest else "," + DocsText(docs.more, rest);
            Skip(DocsText(docs, rest)) == Text(docs.doc, docs.after + tail)
  {
    var tail := if docs.more.NoDoc? then "]" + rest else "," + DocsText(docs.more, rest);
    TextOpens(docs.doc, docs.after + tail);
    SkipOpen(docs.before, Text(docs.doc, docs.after + tail));
  }

  lemma {:induction false} DocsRead(scan: Scanner, docs: Docs, rest: string)
    requires Honest(scan) && docs.Next? && LaidDocs(docs)
    ensures ParseItems(scan, DocsText(docs, rest)) == Some(Got(ItemsOf(docs), rest))
    ensures ParseItems(scan, Skip(DocsText(docs, rest))) == Some(Got(ItemsOf(docs), rest))
    decreases docs, 0
  {
    FirstDoc(docs, rest);
    if docs.more.NoDoc? {
      SkipTo(docs.after, ']', rest);
      SpacedRead(scan, docs.doc, docs.after + ("]" + rest));
    } else {
      var t := DocsText(docs.more, rest);
      SkipTo(docs.after, ',', t);
      SpacedRead(scan, docs.doc, docs.after + ("," + t));
      DocsRead(scan, docs.more, rest);
    }
  }

  lemma {:induction false} TableRead(scan: Scanner, open: string, fields: Fields, rest: string)
    requires Honest(scan) && Spaces(open) && LaidFields(fields)
    ensures Parse(scan, Text(Table(open, fields), rest)) == Some(Got(Obj(MembersOf(fields)), rest))
    decreases fields, 1
  {
    if fields.NoField? {
      Prepend('{', open + ("}" + rest));
      SkipTo(open, '}', rest);
      OpensObj(scan, Text(Table(open, fields), rest), "}" + rest);
    } else {
      FieldsRead(scan, fields, rest);
      ReadsObj(scan, FieldsText(fields, rest), MembersOf(fields), rest);
    }
  }

  /** A name with white space around it, the colon and what stands behind it. */
  lemma NameRead(scan: Scanner, before: string, name: string, gap: string, between: string, s: string)
    requires Honest(scan) && Spaces(before) && NoNul(name) && Spaces(gap) && Spaces(between) && Opens(s)
    ensures var r := TakeString(scan, Skip(before + (PrintString(name) + (gap + (":" + (between + s))))));
            && r.Some? && r.value.value == name
            && var t := Skip(r.value.rest); StartsWith(t, ':') && Skip(t[1..]) == s
  {
    var t := between + s;
    SkipSpaces(before, PrintString(name) + (gap + (":" + t)));
    StringRoundTrip(scan, name, gap + (":" + t));
    SkipTo(gap, ':', t);
    SkipOpen(between, s);
  }

  lemma {:induction false} FieldsRead(scan: Scanner, fields: Fields, rest: string)
    requires Honest(scan) && fields.Field? && LaidFields(fields)
    ensures ParseMembers(scan, FieldsText(fields, rest)) == Some(Got(MembersOf(fields), rest))
    decreases fields, 0
  {
    var tail := if fields.more.NoField? then "}" + rest else "," + FieldsText(fields.more, rest);
    var s := Text(fields.doc, fields.after + tail);
    TextOpens(fields.doc, fields.after + tail);
    NameRead(scan, fields.before, fields.name, fields.gap, fields.between, s);
    if fields.more.NoField? {
      SkipTo(fields.after, '}', rest);
      SpacedRead(scan, fields.doc, fields.after + tail);
      LastOfMembers(scan, FieldsText(fields, rest), fields.name, Tree(fields.doc), fields.after + tail, rest);
    } else {
      var t := FieldsText(fields.more, rest);
      SkipTo(fields.after, ',', t);
      SpacedRead(scan, fields.doc, fields.after + tail);
      FieldsRead(scan, fields.more, rest);
    }
  }

  /** The text of a whole document, with white space in front. */
  lemma DocumentRead(scan: Scanner, before: string, d: Doc)
    requires Honest(scan) && Spaces(before) && Laid(d)
    ensures ParseDocument(scan, before + Text(d, "")) == Some(Got(Tree(d), ""))
  {
    TextOpens(d, "");
    SkipOpen(before, Text(d, ""));
    SpacedRead(scan, d, "");
  }
}
