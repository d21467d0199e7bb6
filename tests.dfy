/**
 * The scenarios of yaserde's serializer tests: each annotated type as a
 * descriptor-carrying value, and the proof that the document written for it
 * is the expected text after the tests' normalisation.
 */
module SerializerTests {
  import opened Strings
  import opened Xml
  import opened Descriptors
  import opened Serializer
  import opened Normalization

  function Field(name: string, role: Role, m: Multiplicity, items: seq<Value>): FieldValue
  {
    FieldValue(FieldDesc(name, None, role, m), items)
  }

  function Renamed(name: string, rename: string, role: Role, m: Multiplicity, items: seq<Value>): FieldValue
  {
    FieldValue(FieldDesc(name, Some(rename), role, m), items)
  }

  /** An element holding only text. */
  lemma LeafMarkup(name: string, t: string)
    ensures Markup(Element(name, [], [Text(t)])) == "<" + name + ">" + t + "</" + name + ">"
  {
    ElementMarkup(name, [], [Text(t)]);
    OpenTagShape(name, []);
    ConcatSingle(t);
    assert TokensOf([Text(t)]) == [t] + TokensOf([]);
  }

  /** The texts of sibling nodes, one string per node. */
  function Markups(ns: seq<Node>): seq<string>
  {
    if ns == [] then [] else [Markup(ns[0])] + Markups(ns[1..])
  }

  lemma MarkupsCons(n: Node, rest: seq<Node>)
    ensures Markups([n] + rest) == [Markup(n)] + Markups(rest)
  {
    assert ([n] + rest)[1..] == rest;
  }

  lemma {:induction false} MarkupOfIsConcat(ns: seq<Node>)
    ensures MarkupOf(ns) == Concat(Markups(ns))
  {
    if ns != [] {
      MarkupOfIsConcat(ns[1..]);
      ConcatAppend(Tokens(ns[0]), TokensOf(ns[1..]));
      ConcatAppend([Markup(ns[0])], Markups(ns[1..]));
      ConcatSingle(Markup(ns[0]));
    }
  }

  /** An element with children, as the list of its start tag, its children's texts and its end tag. */
  lemma ElementPieces(name: string, attrs: seq<Attr>, children: seq<Node>)
    requires children != []
    ensures Markup(Element(name, attrs, children))
         == Concat([OpenTag(name, attrs) + ">"] + Markups(children) + ["</" + name + ">"])
  {
    ElementMarkup(name, attrs, children);
    MarkupOfIsConcat(children);
    var open, close := OpenTag(name, attrs) + ">", "</" + name + ">";
    ConcatAppend([open] + Markups(children), [close]);
    ConcatAppend([open], Markups(children));
    ConcatSingle(open);
    ConcatSingle(close);
    AppendAssoc(open + MarkupOf(children), "</" + name, ">");
    AppendAssoc(open + MarkupOf(children), "</", name);
  }

  /** A document whose root has children, as a list of pieces. */
  lemma DocumentPieces(root: Value)
    requires root.Record? && RecordBody(root.fields) != []
    ensures var n := RootNode(root);
      Document(root) == Concat([Declaration, OpenTag(n.name, n.attrs) + ">"] + Markups(n.children) + ["</" + n.name + ">"])
  {
    var n := RootNode(root);
    ElementPieces(n.name, n.attrs, n.children);
    PrependPiece(Declaration, OpenTag(n.name, n.attrs) + ">", Markups(n.children), "</" + n.name + ">");
  }

  lemma PrependPiece(first: string, open: string, middle: seq<string>, close: string)
    ensures Concat([first, open] + middle + [close]) == first + Concat([open] + middle + [close])
  {
    assert [first, open] + middle + [close] == [first] + ([open] + middle + [close]);
    ConcatCons(first, [open] + middle + [close]);
  }

  /** Text glued from single unpadded lines is left as it is by the normalisation. */
  lemma {:induction false} ConcatShape(ls: seq<string>)
    requires forall j | 0 <= j < |ls| :: NoLineFeed(ls[j]) && Unpadded(ls[j])
    ensures NoLineFeed(Concat(ls)) && Unpadded(Concat(ls))
  {
    if ls != [] {
      ConcatShape(ls[1..]);
      NoLineFeedAppend(ls[0], Concat(ls[1..]));
      UnpaddedAppend(ls[0], Concat(ls[1..]));
    }
  }

  /** The declaration line, which every expected content starts with, is a clean line. */
  lemma DeclarationClean()
    ensures '\n' !in Declaration && NoLineFeed(Declaration) && Unpadded(Declaration)
  {
    NotInNoLineFeed(Declaration);
  }

  /** A line without a line feed character anywhere in it. */
  lemma NotInNoLineFeed(s: string)
    requires '\n' !in s
    ensures NoLineFeed(s)
  {
    forall k | 0 <= k < |s| ensures s[k] != '\n' {
      assert s[k] in s;
    }
  }

  lemma NormalizeConcat(ls: seq<string>)
    requires forall l | l in ls :: '\n' !in l && Unpadded(l)
    ensures Normalize(Concat(ls)) == Concat(ls)
  {
    forall j | 0 <= j < |ls| ensures NoLineFeed(ls[j]) && Unpadded(ls[j]) {
      assert ls[j] in ls;
      NotInNoLineFeed(ls[j]);
    }
    ConcatShape(ls);
    NormalizeFixedPoint(Concat(ls));
  }

  // ---------------------------------------------------------------------
  // The pieces expected documents are written in
  // ---------------------------------------------------------------------

  /** `<name a="v" ...>`: a start tag followed by content. */
  function Start(name: string, attrs: seq<Attr>): string
  {
    OpenTag(name, attrs) + ">"
  }

  /** `<name a="v" ... />`: an element with nothing inside. */
  function Empty(name: string, attrs: seq<Attr>): string
  {
    OpenTag(name, attrs) + " />"
  }

  function End(name: string): string
  {
    "</" + name + ">"
  }

  /** `<name>t</name>`. */
  function Leaf(name: string, t: string): string
  {
    "<" + name + ">" + t + "</" + name + ">"
  }

  /** One `<name>s</name>` per string, in order. */
  function Leaves(name: string, ss: seq<string>): seq<string>
  {
    if ss == [] then [] else [Leaf(name, ss[0])] + Leaves(name, ss[1..])
  }

  function Strs(ss: seq<string>): (xs: seq<Value>)
    ensures |xs| == |ss|
    ensures forall j | 0 <= j < |ss| :: xs[j] == Str(ss[j])
  {
    if ss == [] then [] else [Str(ss[0])] + Strs(ss[1..])
  }

  // ---------------------------------------------------------------------
  // Unfolding records and markup one step at a time
  // ---------------------------------------------------------------------

  lemma RecordCons(f: FieldValue, rest: seq<FieldValue>)
    ensures RecordAttrs([f] + rest) == FieldAttrs(f) + RecordAttrs(rest)
    ensures RecordBody([f] + rest) == FieldBody(f) + RecordBody(rest)
  {
    assert ([f] + rest)[1..] == rest;
  }

  /** A plain field holding one string or integer is one leaf element under the field's resolved name. */
  lemma ScalarChild(f: FieldValue)
    requires f.desc.role == ChildElement && |f.items| == 1 && (f.items[0].Str? || f.items[0].Int?)
    ensures FieldAttrs(f) == []
    ensures FieldBody(f) == [Element(f.desc.XmlName(), [], [Text(ScalarText(f.items[0]))])]
  {
    assert f.items == [f.items[0]];
    ElementsNamedSingle(f.desc.XmlName(), f.items[0]);
  }

  /** A text field holding one value is one text node. */
  lemma ScalarText1(f: FieldValue)
    requires f.desc.role == TextContent && |f.items| == 1
    ensures FieldAttrs(f) == []
    ensures FieldBody(f) == [Text(ScalarText(f.items[0]))]
  {
    assert f.items[1..] == [];
    assert TextItems(f.items) == [Text(ScalarText(f.items[0]))] + [];
  }

  lemma Record2(a: FieldValue, b: FieldValue)
    ensures RecordAttrs([a, b]) == FieldAttrs(a) + FieldAttrs(b)
    ensures RecordBody([a, b]) == FieldBody(a) + FieldBody(b)
  {
    RecordCons(a, [b]);
    RecordCons(b, []);
    assert [a, b] == [a] + [b] && [b] + [] == [b];
  }

  lemma Record3(a: FieldValue, b: FieldValue, c: FieldValue)
    ensures RecordAttrs([a, b, c]) == FieldAttrs(a) + FieldAttrs(b) + FieldAttrs(c)
    ensures RecordBody([a, b, c]) == FieldBody(a) + FieldBody(b) + FieldBody(c)
  {
    RecordCons(a, [b, c]);
    Record2(b, c);
    assert [a, b, c] == [a] + [b, c];
  }

  /** An attribute field holding one value is one attribute under the field's resolved name. */
  lemma ScalarAttribute(f: FieldValue)
    requires f.desc.role == Attribute && |f.items| == 1
    ensures FieldAttrs(f) == [Attr(f.desc.XmlName(), ScalarText(f.items[0]))]
    ensures FieldBody(f) == []
  {
    assert f.items[1..] == [];
    assert AttrItems(f.desc.XmlName(), f.items) == [Attr(f.desc.XmlName(), ScalarText(f.items[0]))] + [];
  }

  lemma StartPlain(name: string)
    ensures Start(name, []) == "<" + name + ">"
  {
    OpenTagShape(name, []);
  }

  lemma Concat3(a: string, b: string, c: string)
    ensures Concat([a, b, c]) == a + b + c
  {
    assert [a, b, c][1..] == [b, c] && [b, c][1..] == [c];
    ConcatSingle(c);
    AppendAssoc(a, b, c);
  }

  /** The text of one attribute: ` name="value"`. */
  lemma AttrText(a: Attr, rest: seq<Attr>)
    ensures Concat(AttrTokens([a] + rest)) == " " + a.name + "=\"" + a.value + "\"" + Concat(AttrTokens(rest))
  {
    assert ([a] + rest)[1..] == rest;
    var x, y := [" ", a.name, "=\""], [a.value, "\""];
    assert AttrTokens([a] + rest) == x + y + AttrTokens(rest);
    ConcatAppend(x + y, AttrTokens(rest));
    ConcatAppend(x, y);
    Concat3(" ", a.name, "=\"");
    assert y[1..] == ["\""];
    ConcatSingle("\"");
    AppendAssoc(" " + a.name + "=\"", a.value, "\"");
  }

  /** ` name="value"`. */
  function AttrString(a: Attr): string
  {
    " " + a.name + "=\"" + a.value + "\""
  }

  lemma TwoAttrs(name: string, x: Attr, y: Attr)
    ensures Empty(name, [x, y]) == "<" + name + AttrString(x) + AttrString(y) + " />"
  {
    StartWith(name, [x, y]);
    assert [x, y] == [x] + [y];
    AttrText(x, [y]);
    AttrText(y, []);
    assert [y] + [] == [y];
    assert Concat(AttrTokens([y])) == AttrString(y) + "";
    assert AttrString(y) + "" == AttrString(y);
    AppendAssoc("<" + name, AttrString(x), AttrString(y));
  }

  lemma StartWith(name: string, attrs: seq<Attr>)
    ensures Start(name, attrs) == "<" + name + Concat(AttrTokens(attrs)) + ">"
    ensures Empty(name, attrs) == "<" + name + Concat(AttrTokens(attrs)) + " />"
  {
    OpenTagShape(name, attrs);
  }

  lemma OneAttr(name: string, a: string, v: string)
    ensures Start(name, [Attr(a, v)]) == "<" + name + " " + a + "=\"" + v + "\"" + ">"
    ensures Empty(name, [Attr(a, v)]) == "<" + name + " " + a + "=\"" + v + "\"" + " />"
  {
    StartWith(name, [Attr(a, v)]);
    AttrText(Attr(a, v), []);
    assert [Attr(a, v)] + [] == [Attr(a, v)];
    var t := " " + a + "=\"" + v + "\"";
    assert Concat(AttrTokens([Attr(a, v)])) == t + "";
    assert t + "" == t;
    AppendAssoc("<" + name, " " + a + "=\"" + v, "\"");
    AppendAssoc("<" + name, " " + a + "=\"", v);
    AppendAssoc("<" + name, " " + a, "=\"");
    AppendAssoc("<" + name, " ", a);
  }

  /** A field declared `T` (not `Option` or `Vec`) holding one string is well formed in any role but flatten. */
  lemma StrFieldWellFormed(f: FieldValue)
    requires f.desc.multiplicity == Single && f.desc.role != Flatten
    requires |f.items| == 1 && f.items[0].Str?
    ensures FieldWellFormed(f)
  {
    assert forall x | x in f.items :: x == f.items[0];
  }

  lemma EmptyMarkup(name: string, attrs: seq<Attr>)
    ensures Markup(Element(name, attrs, [])) == Empty(name, attrs)
  {
    ElementMarkup(name, attrs, []);
  }

  lemma LeafIsMarkup(name: string, t: string)
    ensures Markup(Element(name, [], [Text(t)])) == Leaf(name, t)
  {
    LeafMarkup(name, t);
  }

  lemma {:induction false} LeavesMarkup(name: string, ss: seq<string>)
    ensures Markups(ElementsNamed(name, Strs(ss))) == Leaves(name, ss)
  {
    if ss != [] {
      var xs := Strs(ss);
      assert xs == [Str(ss[0])] + Strs(ss[1..]);
      assert xs[1..] == Strs(ss[1..]);
      LeavesMarkup(name, ss[1..]);
      LeafIsMarkup(name, ss[0]);
      MarkupsCons(Element(name, [], [Text(ss[0])]), ElementsNamed(name, Strs(ss[1..])));
    }
  }

  lemma {:induction false} MarkupsAppend(a: seq<Node>, b: seq<Node>)
    ensures Markups(a + b) == Markups(a) + Markups(b)
  {
    if a == [] {
      assert a + b == b;
    } else {
      assert (a + b)[1..] == a[1..] + b;
      MarkupsAppend(a[1..], b);
    }
  }

  /** A document whose root element has nothing inside. */
  lemma DocumentEmpty(root: Value)
    requires root.Record? && RecordBody(root.fields) == []
    ensures Document(root) == Concat([Declaration, Empty(root.ty.ElementName(), RecordAttrs(root.fields))])
  {
    EmptyMarkup(root.ty.ElementName(), RecordAttrs(root.fields));
    var e := Empty(root.ty.ElementName(), RecordAttrs(root.fields));
    ConcatAppend([Declaration], [e]);
    ConcatSingle(Declaration);
    ConcatSingle(e);
  }

  /** A leading empty line adds nothing. */
  lemma Leading(ls: seq<string>)
    ensures Concat([""] + ls) == Concat(ls)
  {
    assert ([""] + ls)[1..] == ls;
  }

  /** Surrounding empty lines add nothing. */
  lemma Framed(ls: seq<string>)
    ensures Concat([""] + ls + [""]) == Concat(ls)
  {
    ConcatAppend([""] + ls, [""]);
    ConcatAppend([""], ls);
    ConcatSingle("");
  }

  // ---------------------------------------------------------------------
  // ser_basic and ser_name_issue_21: `struct XmlStruct { <field>: String }`
  // under `root = "base"`
  // ---------------------------------------------------------------------

  function OneField(field: string, value: string): Value
  {
    Record(TypeDesc("XmlStruct", Some("base")), [Field(field, ChildElement, Single, [Str(value)])])
  }

  /** Whatever the field is called (`item`, or `name` as in issue 21), it is an element of that name. */
  lemma OneFieldShape(field: string, value: string)
    ensures WellFormed(OneField(field, value))
    ensures Document(OneField(field, value)) == Concat([Declaration, Start("base", []), Leaf(field, value), End("base")])
  {
    var f := Field(field, ChildElement, Single, [Str(value)]);
    RecordCons(f, []);
    ScalarChild(f);
    assert [f] + [] == [f];
    var leaf := Element(field, [], [Text(value)]);
    assert RootNode(OneField(field, value)) == Element("base", [], [leaf]);
    DocumentPieces(OneField(field, value));
    LeafIsMarkup(field, value);
    MarkupsCons(leaf, []);
    assert [leaf] + [] == [leaf];
    assert Markups([leaf]) == [Leaf(field, value)];
    assert [Declaration, Start("base", [])] + [Leaf(field, value)] + [End("base")]
        == [Declaration, Start("base", []), Leaf(field, value), End("base")];
    assert f in OneField(field, value).fields;
  }

  const BasicContent: seq<string> :=
    [Declaration, "<base>", "<item>something</item>", "</base>"]

  lemma BasicPieces()
    ensures [Declaration, Start("base", []), Leaf("item", "something"), End("base")] == BasicContent
  {
    StartPlain("base");
    assert Start("base", []) == "<base>";
    assert Leaf("item", "something") == "<item>something</item>";
    assert End("base") == "</base>";
    assert Declaration == BasicContent[0];
  }

  lemma BasicNormal()
    ensures Normalize(Concat(BasicContent)) == Concat(BasicContent)
  {
    DeclarationClean();
    NormalizeConcat(BasicContent);
  }

  lemma SerBasic()
    ensures WellFormed(OneField("item", "something"))
    ensures Document(OneField("item", "something")) == Normalize(Concat(BasicContent))
  {
    OneFieldShape("item", "something");
    BasicPieces();
    BasicNormal();
  }

  const NameIssueContent: seq<string> :=
    [Declaration, "<base>", "<name>something</name>", "</base>"]

  lemma NameIssuePieces()
    ensures [Declaration, Start("base", []), Leaf("name", "something"), End("base")] == NameIssueContent
  {
    StartPlain("base");
    assert Start("base", []) == "<base>";
    assert Leaf("name", "something") == "<name>something</name>";
    assert End("base") == "</base>";
    assert Declaration == NameIssueContent[0];
  }

  lemma NameIssueNormal()
    ensures Normalize(Concat(NameIssueContent)) == Concat(NameIssueContent)
  {
    DeclarationClean();
    NormalizeConcat(NameIssueContent);
  }

  lemma SerNameIssue21()
    ensures WellFormed(OneField("name", "something"))
    ensures Document(OneField("name", "something")) == Normalize(Concat(NameIssueContent))
  {
    OneFieldShape("name", "something");
    NameIssuePieces();
    NameIssueNormal();
  }

  // ---------------------------------------------------------------------
  // ser_list_of_items: `items: Vec<String>`, then `items: Vec<SubStruct>`
  // ---------------------------------------------------------------------

  function StringList(items: seq<string>): Value
  {
    Record(TypeDesc("XmlStruct", Some("base")), [Field("items", ChildElement, Sequence, Strs(items))])
  }

  /** One `<items>` element per string of the `Vec`, in order, with no wrapper around them. */
  lemma StringListShape(items: seq<string>)
    ensures WellFormed(StringList(items))
    ensures items == [] ==> Document(StringList(items)) == Concat([Declaration, Empty("base", [])])
    ensures items != [] ==>
      Document(StringList(items)) == Concat([Declaration, Start("base", [])] + Leaves("items", items) + [End("base")])
  {
    var f := Field("items", ChildElement, Sequence, Strs(items));
    RecordCons(f, []);
    assert [f] + [] == [f];
    var body := ElementsNamed("items", Strs(items));
    assert RootNode(StringList(items)) == Element("base", [], body);
    if items == [] {
      DocumentEmpty(StringList(items));
    } else {
      assert body == ValueNodes("items", Strs(items)[0]) + ElementsNamed("items", Strs(items)[1..]);
      DocumentPieces(StringList(items));
      LeavesMarkup("items", items);
    }
    assert f in StringList(items).fields;
    assert FieldWellFormed(f);
  }

  /** `struct SubStruct { field: String }` under `root = "items"`. */
  function SubStruct(field: string): Value
  {
    Record(TypeDesc("SubStruct", Some("items")), [Field("field", ChildElement, Single, [Str(field)])])
  }

  function SubStructs(fields: seq<string>): (xs: seq<Value>)
    ensures |xs| == |fields|
    ensures forall j | 0 <= j < |fields| :: xs[j] == SubStruct(fields[j])
  {
    if fields == [] then [] else [SubStruct(fields[0])] + SubStructs(fields[1..])
  }

  function StructList(fields: seq<string>): Value
  {
    Record(TypeDesc("XmlStructOfStruct", Some("base")), [Field("items", ChildElement, Sequence, SubStructs(fields))])
  }

  /** `<items><field>s</field></items>` for each string. */
  function NestedLeaves(fields: seq<string>): seq<string>
  {
    if fields == [] then [] else [Start("items", []) + Leaf("field", fields[0]) + End("items")] + NestedLeaves(fields[1..])
  }

  lemma SubStructMarkup(field: string)
    ensures ValueNodes("items", SubStruct(field)) == [Element("items", [], [Element("field", [], [Text(field)])])]
    ensures Markup(Element("items", [], [Element("field", [], [Text(field)])]))
         == Start("items", []) + Leaf("field", field) + End("items")
  {
    var f := Field("field", ChildElement, Single, [Str(field)]);
    RecordCons(f, []);
    ScalarChild(f);
    assert [f] + [] == [f];
    var leaf := Element("field", [], [Text(field)]);
    ElementPieces("items", [], [leaf]);
    LeafIsMarkup("field", field);
    MarkupsCons(leaf, []);
    assert [leaf] + [] == [leaf];
    var a, b, c := Start("items", []), Leaf("field", field), End("items");
    assert [a] + Markups([leaf]) + [c] == [a, b, c];
    Concat3(a, b, c);
  }

  lemma {:induction false} NestedMarkup(fields: seq<string>)
    ensures Markups(ElementsNamed("items", SubStructs(fields))) == NestedLeaves(fields)
  {
    if fields != [] {
      var xs := SubStructs(fields);
      assert xs[1..] == SubStructs(fields[1..]);
      NestedMarkup(fields[1..]);
      SubStructMarkup(fields[0]);
      MarkupsCons(Element("items", [], [Element("field", [], [Text(fields[0])])]), ElementsNamed("items", SubStructs(fields[1..])));
    }
  }

  /** A `Vec` of records: each record is an `<items>` element holding its own fields. */
  lemma StructListShape(fields: seq<string>)
    ensures WellFormed(StructList(fields))
    ensures fields != [] ==>
      Document(StructList(fields)) == Concat([Declaration, Start("base", [])] + NestedLeaves(fields) + [End("base")])
  {
    StructListWellFormed(fields);
    if fields != [] {
      StructListDocument(fields);
    }
  }

  lemma StructListDocument(fields: seq<string>)
    requires fields != []
    ensures Document(StructList(fields)) == Concat([Declaration, Start("base", [])] + NestedLeaves(fields) + [End("base")])
  {
    var f := Field("items", ChildElement, Sequence, SubStructs(fields));
    RecordCons(f, []);
    assert [f] + [] == [f];
    var body := ElementsNamed("items", SubStructs(fields));
    assert RootNode(StructList(fields)) == Element("base", [], body);
    SubStructMarkup(fields[0]);
    assert body != [];
    DocumentPieces(StructList(fields));
    NestedMarkup(fields);
  }

  lemma StructListWellFormed(fields: seq<string>)
    ensures WellFormed(StructList(fields))
  {
    var f := Field("items", ChildElement, Sequence, SubStructs(fields));
    forall x | x in SubStructs(fields)
      ensures WellFormed(x)
    {
      assert x.fields == [x.fields[0]];
      assert FieldWellFormed(x.fields[0]);
    }
    assert f in StructList(fields).fields;
    assert FieldWellFormed(f);
  }

  const StringListContent: seq<string> :=
    [ Declaration, "<base>", "<items>" + "something1" + "</items>",
      "<items>" + "something2" + "</items>", "</base>" ]

  const StructListContent: seq<string> :=
    [ Declaration, "<base>",
      "<items><field>" + "something1" + "</field></items>", "<items><field>" + "something2" + "</field></items>", "</base>" ]

  lemma StartBase()
    ensures Start("base", []) == "<base>" && End("base") == "</base>"
  {
    StartPlain("base");
  }

  lemma ItemLeaf(v: string)
    ensures Leaf("items", v) == "<items>" + v + "</items>"
  {
    assert "<" + "items" + ">" == "<items>";
    assert "</" + "items" + ">" == "</items>";
  }

  lemma NestedItem(v: string)
    ensures Start("items", []) + Leaf("field", v) + End("items") == "<items><field>" + v + "</field></items>"
  {
    StartPlain("items");
    assert "<" + "items" + ">" + "<" + "field" + ">" == "<items><field>";
    assert "</" + "field" + ">" + "</" + "items" + ">" == "</field></items>";
  }

  lemma StringListPieces()
    ensures [Declaration, Start("base", [])] + Leaves("items", ["something1", "something2"]) + [End("base")]
         == StringListContent
  {
    var two := ["something1", "something2"];
    assert two[1..] == ["something2"] && two[1..][1..] == [];
    StartBase();
    ItemLeaf("something1");
    ItemLeaf("something2");
    assert Declaration == StringListContent[0];
  }

  lemma StructListPieces()
    ensures [Declaration, Start("base", [])] + NestedLeaves(["something1", "something2"]) + [End("base")]
         == StructListContent
  {
    var two := ["something1", "something2"];
    assert two[1..] == ["something2"] && two[1..][1..] == [];
    StartBase();
    NestedItem("something1");
    NestedItem("something2");
    assert Declaration == StructListContent[0];
  }

  lemma StringListNormal()
    ensures Normalize(Concat(StringListContent)) == Concat(StringListContent)
  {
    DeclarationClean();
    NormalizeConcat(StringListContent);
  }

  lemma StructListNormal()
    ensures Normalize(Concat(StructListContent)) == Concat(StructListContent)
  {
    DeclarationClean();
    NormalizeConcat(StructListContent);
  }

  lemma SerListOfItems()
    ensures WellFormed(StringList(["something1", "something2"]))
    ensures Document(StringList(["something1", "something2"])) == Normalize(Concat(StringListContent))
    ensures WellFormed(StructList(["something1", "something2"]))
    ensures Document(StructList(["something1", "something2"])) == Normalize(Concat(StructListContent))
  {
    StringListShape(["something1", "something2"]);
    StructListShape(["something1", "something2"]);
    StringListPieces();
    StructListPieces();
    StringListNormal();
    StructListNormal();
  }

  // ---------------------------------------------------------------------
  // ser_attributes: an attribute of the root and a child record made of
  // one attribute
  // ---------------------------------------------------------------------

  function AttrSub(subitem: string): Value
  {
    Record(TypeDesc("SubStruct", Some("sub")), [Field("subitem", Attribute, Single, [Str(subitem)])])
  }

  function AttrStruct(item: string, subitem: string): Value
  {
    Record(TypeDesc("XmlStruct", Some("base")),
      [Field("item", Attribute, Single, [Str(item)]), Field("sub", ChildElement, Single, [AttrSub(subitem)])])
  }

  /** A record of attributes only is a self-closing element, here inside a root that carries an attribute. */
  lemma AttrStructShape(item: string, subitem: string)
    ensures WellFormed(AttrStruct(item, subitem))
    ensures Document(AttrStruct(item, subitem))
         == Concat([Declaration, Start("base", [Attr("item", item)]), Empty("sub", [Attr("subitem", subitem)]), End("base")])
  {
    AttrStructWellFormed(item, subitem);
    AttrStructDocument(item, subitem);
  }

  lemma AttrStructWellFormed(item: string, subitem: string)
    ensures WellFormed(AttrStruct(item, subitem))
  {
    var s := Field("subitem", Attribute, Single, [Str(subitem)]);
    var a := Field("item", Attribute, Single, [Str(item)]);
    var b := Field("sub", ChildElement, Single, [AttrSub(subitem)]);
    assert a in AttrStruct(item, subitem).fields && b in AttrStruct(item, subitem).fields;
    assert CountFits(Single, 1);
    assert Scalar(Str(subitem)) && WellFormed(Str(subitem));
    assert FieldWellFormed(s);
  }

  lemma AttrStructDocument(item: string, subitem: string)
    ensures Document(AttrStruct(item, subitem))
         == Concat([Declaration, Start("base", [Attr("item", item)]), Empty("sub", [Attr("subitem", subitem)]), End("base")])
  {
    var s := Field("subitem", Attribute, Single, [Str(subitem)]);
    RecordCons(s, []);
    ScalarAttribute(s);
    assert [s] + [] == [s];
    var sub := Element("sub", [Attr("subitem", subitem)], []);
    var a := Field("item", Attribute, Single, [Str(item)]);
    var b := Field("sub", ChildElement, Single, [AttrSub(subitem)]);
    RecordCons(a, [b]);
    RecordCons(b, []);
    ScalarAttribute(a);
    ElementsNamedSingle("sub", AttrSub(subitem));
    assert [b] + [] == [b];
    assert RootNode(AttrStruct(item, subitem)) == Element("base", [Attr("item", item)], [sub]);
    DocumentPieces(AttrStruct(item, subitem));
    EmptyMarkup("sub", [Attr("subitem", subitem)]);
    MarkupsCons(sub, []);
    assert [sub] + [] == [sub];
    assert Markups([sub]) == [Empty("sub", [Attr("subitem", subitem)])];
    assert [Declaration, Start("base", [Attr("item", item)])] + Markups([sub]) + [End("base")]
        == [Declaration, Start("base", [Attr("item", item)]), Empty("sub", [Attr("subitem", subitem)]), End("base")];
  }

  const AttrContent: seq<string> :=
    [Declaration, "<base item=\"something\">", "<sub subitem=\"sub-something\" />", "</base>"]

  lemma AttrTags()
    ensures Start("base", [Attr("item", "something")]) == "<base item=\"something\">"
  {
    OneAttr("base", "item", "something");
  }

  lemma AttrSubTag()
    ensures Empty("sub", [Attr("subitem", "sub-something")]) == "<sub subitem=\"sub-something\" />"
  {
    OneAttr("sub", "subitem", "sub-something");
  }

  lemma AttrPieces()
    ensures [Declaration, Start("base", [Attr("item", "something")]), Empty("sub", [Attr("subitem", "sub-something")]), End("base")]
         == AttrContent
  {
    AttrTags();
    AttrSubTag();
    StartBase();
    assert Declaration == AttrContent[0];
  }

  lemma AttrNormal()
    ensures Normalize(Concat(AttrContent)) == Concat(AttrContent)
  {
    DeclarationClean();
    NormalizeConcat(AttrContent);
  }

  lemma SerAttributes()
    ensures WellFormed(AttrStruct("something", "sub-something"))
    ensures Document(AttrStruct("something", "sub-something")) == Normalize(Concat(AttrContent))
  {
    AttrStructShape("something", "sub-something");
    AttrPieces();
    AttrNormal();
  }

  // ---------------------------------------------------------------------
  // ser_attributes_complex: optional attributes, one of them a unit enum
  // with renamed variants; no `root`, so the element is named `Struct`
  // ---------------------------------------------------------------------

  const Variant1: VariantDesc := VariantDesc("Variant1", Some("variant 1"))
  const Variant2: VariantDesc := VariantDesc("Variant2", Some("variant 2"))

  function OptionalStr(s: Option<string>): seq<Value>
  {
    if s.Some? then [Str(s.value)] else []
  }

  function OptionalVariant(v: Option<VariantDesc>): seq<Value>
  {
    if v.Some? then [Enum(v.value, NoData)] else []
  }

  function ComplexStruct(s: Option<string>, v: Option<VariantDesc>): Value
  {
    Record(TypeDesc("Struct", None),
      [ Field("attr_option_string", Attribute, Optional, OptionalStr(s)),
        Field("attr_option_enum", Attribute, Optional, OptionalVariant(v)) ])
  }

  /** The attribute an optional value gives: none for `None`. */
  function OptionalAttr(name: string, value: Option<string>): seq<Attr>
  {
    if value.Some? then [Attr(name, value.value)] else []
  }

  function VariantName(v: Option<VariantDesc>): Option<string>
  {
    if v.Some? then Some(v.value.XmlName()) else None
  }

  /**
   * The root is a self-closing `Struct` element whose attributes are the
   * present options, in declared order; a variant is written under its rename.
   */
  lemma ComplexShape(s: Option<string>, v: Option<VariantDesc>)
    ensures WellFormed(ComplexStruct(s, v))
    ensures Document(ComplexStruct(s, v))
         == Concat([Declaration, Empty("Struct", OptionalAttr("attr_option_string", s) + OptionalAttr("attr_option_enum", VariantName(v)))])
  {
    var a := Field("attr_option_string", Attribute, Optional, OptionalStr(s));
    var b := Field("attr_option_enum", Attribute, Optional, OptionalVariant(v));
    RecordCons(a, [b]);
    RecordCons(b, []);
    assert [b] + [] == [b];
    if s.Some? {
      ScalarAttribute(a);
    }
    if v.Some? {
      ScalarAttribute(b);
    }
    assert RecordAttrs([a, b]) == OptionalAttr("attr_option_string", s) + OptionalAttr("attr_option_enum", VariantName(v));
    assert RecordBody([a, b]) == [];
    DocumentEmpty(ComplexStruct(s, v));
    assert forall x | x in a.items :: Scalar(x) && WellFormed(x);
    assert forall x | x in b.items :: Scalar(x) && WellFormed(x);
    assert FieldWellFormed(a) && FieldWellFormed(b);
  }

  const ComplexIndents: seq<string> := ["", "    ", "    ", "    "]

  const ComplexNoneTexts: seq<string> := ["", Declaration, "<Struct />", ""]

  /** The long line is spelt in three parts. */
  const ComplexSomeTexts: seq<string> :=
    [ "", Declaration,
      "<Struct" + " attr_option_string=\"some value\"" + " attr_option_enum=\"variant 2\" />", "" ]

  lemma ComplexNoneTag()
    ensures Empty("Struct", []) == "<Struct />"
  {
    StartWith("Struct", []);
  }

  lemma ComplexSomeTag()
    ensures Empty("Struct", [Attr("attr_option_string", "some value"), Attr("attr_option_enum", "variant 2")])
         == "<Struct" + " attr_option_string=\"some value\"" + " attr_option_enum=\"variant 2\" />"
  {
    TwoAttrs("Struct", Attr("attr_option_string", "some value"), Attr("attr_option_enum", "variant 2"));
    ComplexSomeAttrs();
  }

  lemma ComplexSomeAttrs()
    ensures "<" + "Struct" + AttrString(Attr("attr_option_string", "some value")) + AttrString(Attr("attr_option_enum", "variant 2")) + " />"
         == "<Struct" + " attr_option_string=\"some value\"" + " attr_option_enum=\"variant 2\" />"
  {
    OptionStringAttr();
    OptionEnumAttr();
    assert "<" + "Struct" == "<Struct";
    AppendAssoc("<Struct" + " attr_option_string=\"some value\"", AttrString(Attr("attr_option_enum", "variant 2")), " />");
  }

  lemma OptionStringAttr()
    ensures AttrString(Attr("attr_option_string", "some value")) == " attr_option_string=\"some value\""
  {
  }

  lemma OptionEnumAttr()
    ensures AttrString(Attr("attr_option_enum", "variant 2")) + " />" == " attr_option_enum=\"variant 2\" />"
  {
  }

  lemma ComplexNonePieces()
    ensures [""] + [Declaration, Empty("Struct", OptionalAttr("attr_option_string", None) + OptionalAttr("attr_option_enum", VariantName(None)))] + [""]
         == ComplexNoneTexts
  {
    ComplexNoneTag();
    assert OptionalAttr("attr_option_string", None) + OptionalAttr("attr_option_enum", VariantName(None)) == [];
    assert Declaration == ComplexNoneTexts[1];
  }

  lemma ComplexSomePieces()
    ensures [""] + [Declaration, Empty("Struct", OptionalAttr("attr_option_string", Some("some value")) + OptionalAttr("attr_option_enum", VariantName(Some(Variant2))))] + [""]
         == ComplexSomeTexts
  {
    ComplexSomeTag();
    assert VariantName(Some(Variant2)) == Some("variant 2");
    assert OptionalAttr("attr_option_string", Some("some value")) + OptionalAttr("attr_option_enum", VariantName(Some(Variant2)))
        == [Attr("attr_option_string", "some value"), Attr("attr_option_enum", "variant 2")];
    assert Declaration == ComplexSomeTexts[1];
  }

  lemma ComplexNoneNormal()
    ensures Normalize(JoinLines(Indented(ComplexIndents, ComplexNoneTexts))) == Concat(ComplexNoneTexts)
  {
    NormalizeIndented(ComplexIndents, ComplexNoneTexts);
  }

  lemma ComplexSomeLine()
    ensures NoLineFeed(ComplexSomeTexts[2]) && Unpadded(ComplexSomeTexts[2])
  {
    var a, b, c := "<Struct", " attr_option_string=\"some value\"", " attr_option_enum=\"variant 2\" />";
    assert NoLineFeed(a) && NoLineFeed(b) && NoLineFeed(c);
    NoLineFeedAppend(a, b);
    NoLineFeedAppend(a + b, c);
    assert (a + b + c)[0] == '<';
    assert (a + b + c)[|a + b + c| - 1] == '>';
  }

  lemma ComplexSomeNormal()
    ensures Normalize(JoinLines(Indented(ComplexIndents, ComplexSomeTexts))) == Concat(ComplexSomeTexts)
  {
    ComplexSomeLine();
    NormalizeIndented(ComplexIndents, ComplexSomeTexts);
  }

  lemma SerAttributesComplex()
    ensures WellFormed(ComplexStruct(None, None))
    ensures Document(ComplexStruct(None, None)) == Normalize(JoinLines(Indented(ComplexIndents, ComplexNoneTexts)))
    ensures WellFormed(ComplexStruct(Some("some value"), Some(Variant2)))
    ensures Document(ComplexStruct(Some("some value"), Some(Variant2)))
         == Normalize(JoinLines(Indented(ComplexIndents, ComplexSomeTexts)))
  {
    ComplexShape(None, None);
    ComplexNonePieces();
    ComplexNoneNormal();
    Framed([Declaration, Empty("Struct", [])]);
    ComplexShape(Some("some value"), Some(Variant2));
    ComplexSomePieces();
    ComplexSomeNormal();
    Framed([Declaration, Empty("Struct", [Attr("attr_option_string", "some value"), Attr("attr_option_enum", "variant 2")])]);
  }

  // ---------------------------------------------------------------------
  // ser_rename: renamed attributes and elements, used verbatim
  // ---------------------------------------------------------------------

  function RenameSub(subitem: string): Value
  {
    Record(TypeDesc("SubStruct", Some("sub")), [Renamed("subitem", "sub_item", Attribute, Single, [Str(subitem)])])
  }

  function RenameStruct(item: string, subitem: string, version: string): Value
  {
    Record(TypeDesc("XmlStruct", Some("base")),
      [ Renamed("item", "Item", Attribute, Single, [Str(item)]),
        Renamed("sub_struct", "sub", ChildElement, Single, [RenameSub(subitem)]),
        Renamed("version", "maj.min.bug", ChildElement, Single, [Str(version)]) ])
  }

  lemma RenameWellFormed(item: string, subitem: string, version: string)
    ensures WellFormed(RenameStruct(item, subitem, version))
  {
    var r := RenameStruct(item, subitem, version);
    StrFieldWellFormed(RenameSub(subitem).fields[0]);
    assert WellFormed(RenameSub(subitem));
    StrFieldWellFormed(r.fields[0]);
    StrFieldWellFormed(r.fields[2]);
    assert forall x | x in r.fields[1].items :: x == RenameSub(subitem);
    assert FieldWellFormed(r.fields[1]);
    assert forall f | f in r.fields :: f == r.fields[0] || f == r.fields[1] || f == r.fields[2];
  }

  lemma RenameSubNodes(subitem: string)
    ensures ValueNodes("sub", RenameSub(subitem)) == [Element("sub", [Attr("sub_item", subitem)], [])]
  {
    var s := Renamed("subitem", "sub_item", Attribute, Single, [Str(subitem)]);
    RecordCons(s, []);
    ScalarAttribute(s);
    assert [s] + [] == [s];
  }

  lemma RenameRoot(item: string, subitem: string, version: string)
    ensures RootNode(RenameStruct(item, subitem, version))
         == Element("base", [Attr("Item", item)],
              [Element("sub", [Attr("sub_item", subitem)], []), Element("maj.min.bug", [], [Text(version)])])
  {
    var r := RenameStruct(item, subitem, version);
    var a, b, c := r.fields[0], r.fields[1], r.fields[2];
    assert r.fields == [a, b, c];
    Record3(a, b, c);
    ScalarAttribute(a);
    ScalarChild(c);
    ElementsNamedSingle("sub", RenameSub(subitem));
    RenameSubNodes(subitem);
    assert RecordAttrs(r.fields) == [Attr("Item", item)];
    assert RecordBody(r.fields) == [Element("sub", [Attr("sub_item", subitem)], []), Element("maj.min.bug", [], [Text(version)])];
  }

  /** Every name written is a rename: `Item`, `sub`, `sub_item` and `maj.min.bug` with its dots. */
  lemma RenameShape(item: string, subitem: string, version: string)
    ensures WellFormed(RenameStruct(item, subitem, version))
    ensures Document(RenameStruct(item, subitem, version))
         == Concat([ Declaration, Start("base", [Attr("Item", item)]), Empty("sub", [Attr("sub_item", subitem)]),
                     Leaf("maj.min.bug", version), End("base") ])
  {
    RenameWellFormed(item, subitem, version);
    RenameRoot(item, subitem, version);
    var sub := Element("sub", [Attr("sub_item", subitem)], []);
    var leaf := Element("maj.min.bug", [], [Text(version)]);
    DocumentPieces(RenameStruct(item, subitem, version));
    EmptyMarkup("sub", [Attr("sub_item", subitem)]);
    LeafIsMarkup("maj.min.bug", version);
    MarkupsCons(sub, [leaf]);
    MarkupsCons(leaf, []);
    assert [sub, leaf] == [sub] + [leaf] && [leaf] + [] == [leaf];
    assert Markups([sub, leaf]) == [Empty("sub", [Attr("sub_item", subitem)]), Leaf("maj.min.bug", version)];
    assert [Declaration, Start("base", [Attr("Item", item)])] + Markups([sub, leaf]) + [End("base")]
        == [ Declaration, Start("base", [Attr("Item", item)]), Empty("sub", [Attr("sub_item", subitem)]),
             Leaf("maj.min.bug", version), End("base") ];
  }

  const RenameContent: seq<string> :=
    [ Declaration, "<base Item=\"something\">", "<sub sub_item=\"sub_something\" />",
      "<maj.min.bug>2.0.2</maj.min.bug>", "</base>" ]

  lemma RenameBaseTag()
    ensures Start("base", [Attr("Item", "something")]) == "<base Item=\"something\">"
  {
    OneAttr("base", "Item", "something");
  }

  lemma RenameSubTag()
    ensures Empty("sub", [Attr("sub_item", "sub_something")]) == "<sub sub_item=\"sub_something\" />"
  {
    OneAttr("sub", "sub_item", "sub_something");
  }

  lemma RenamePieces()
    ensures [ Declaration, Start("base", [Attr("Item", "something")]), Empty("sub", [Attr("sub_item", "sub_something")]),
              Leaf("maj.min.bug", "2.0.2"), End("base") ]
         == RenameContent
  {
    RenameBaseTag();
    RenameSubTag();
    assert Leaf("maj.min.bug", "2.0.2") == "<maj.min.bug>2.0.2</maj.min.bug>";
    StartBase();
    assert Declaration == RenameContent[0];
  }

  lemma RenameNormal()
    ensures Normalize(Concat(RenameContent)) == Concat(RenameContent)
  {
    DeclarationClean();
    NormalizeConcat(RenameContent);
  }

  lemma SerRename()
    ensures WellFormed(RenameStruct("something", "sub_something", "2.0.2"))
    ensures Document(RenameStruct("something", "sub_something", "2.0.2")) == Normalize(Concat(RenameContent))
  {
    RenameShape("something", "sub_something", "2.0.2");
    RenamePieces();
    RenameNormal();
  }

  // ---------------------------------------------------------------------
  // ser_text_content_with_attributes: a text field beside an attribute
  // ---------------------------------------------------------------------

  function TextSub(subitem: string, text: string): Value
  {
    Record(TypeDesc("SubStruct", Some("sub")),
      [Renamed("subitem", "sub_item", Attribute, Single, [Str(subitem)]), Field("text", TextContent, Single, [Str(text)])])
  }

  function TextStruct(item: string, subitem: string, text: string): Value
  {
    Record(TypeDesc("XmlStruct", Some("base")),
      [Renamed("item", "Item", Attribute, Single, [Str(item)]), Renamed("sub_struct", "sub", ChildElement, Single, [TextSub(subitem, text)])])
  }

  /** The text field is the element's content, bare, after the start tag with the attribute. */
  lemma TextSubMarkup(subitem: string, text: string)
    ensures ValueNodes("sub", TextSub(subitem, text)) == [Element("sub", [Attr("sub_item", subitem)], [Text(text)])]
    ensures Markup(Element("sub", [Attr("sub_item", subitem)], [Text(text)]))
         == Start("sub", [Attr("sub_item", subitem)]) + text + End("sub")
  {
    var a := Renamed("subitem", "sub_item", Attribute, Single, [Str(subitem)]);
    var t := Field("text", TextContent, Single, [Str(text)]);
    Record2(a, t);
    ScalarAttribute(a);
    ScalarText1(t);
    assert ScalarText(Str(text)) == text;
    assert RecordBody(TextSub(subitem, text).fields) == [Text(text)];
    var attrs := [Attr("sub_item", subitem)];
    ElementPieces("sub", attrs, [Text(text)]);
    MarkupsCons(Text(text), []);
    assert [Text(text)] + [] == [Text(text)];
    assert Markup(Text(text)) == text by {
      ConcatSingle(text);
    }
    assert [Start("sub", attrs)] + Markups([Text(text)]) + [End("sub")] == [Start("sub", attrs), text, End("sub")];
    Concat3(Start("sub", attrs), text, End("sub"));
  }

  lemma TextRoot(item: string, subitem: string, text: string)
    ensures RootNode(TextStruct(item, subitem, text))
         == Element("base", [Attr("Item", item)], [Element("sub", [Attr("sub_item", subitem)], [Text(text)])])
  {
    var r := TextStruct(item, subitem, text);
    var a, b := r.fields[0], r.fields[1];
    assert r.fields == [a, b];
    Record2(a, b);
    ScalarAttribute(a);
    ElementsNamedSingle("sub", TextSub(subitem, text));
    TextSubMarkup(subitem, text);
    assert RecordAttrs(r.fields) == [Attr("Item", item)];
  }

  lemma TextShape(item: string, subitem: string, text: string)
    ensures WellFormed(TextStruct(item, subitem, text))
    ensures Document(TextStruct(item, subitem, text))
         == Concat([ Declaration, Start("base", [Attr("Item", item)]),
                     Start("sub", [Attr("sub_item", subitem)]) + text + End("sub"), End("base") ])
  {
    TextRoot(item, subitem, text);
    TextSubMarkup(subitem, text);
    var sub := Element("sub", [Attr("sub_item", subitem)], [Text(text)]);
    DocumentPieces(TextStruct(item, subitem, text));
    MarkupsCons(sub, []);
    assert [sub] + [] == [sub];
    assert [Declaration, Start("base", [Attr("Item", item)])] + Markups([sub]) + [End("base")]
        == [ Declaration, Start("base", [Attr("Item", item)]),
             Start("sub", [Attr("sub_item", subitem)]) + text + End("sub"), End("base") ];
    TextWellFormed(item, subitem, text);
  }

  lemma TextWellFormed(item: string, subitem: string, text: string)
    ensures WellFormed(TextStruct(item, subitem, text))
  {
    var r, inner := TextStruct(item, subitem, text), TextSub(subitem, text);
    StrFieldWellFormed(inner.fields[0]);
    StrFieldWellFormed(inner.fields[1]);
    assert forall f | f in inner.fields :: f == inner.fields[0] || f == inner.fields[1];
    assert WellFormed(inner);
    StrFieldWellFormed(r.fields[0]);
    assert forall x | x in r.fields[1].items :: x == inner;
    assert FieldWellFormed(r.fields[1]);
    assert forall f | f in r.fields :: f == r.fields[0] || f == r.fields[1];
  }

  /** The line with the text content is spelt in two parts. */
  const TextLines: seq<string> :=
    [ Declaration, "<base Item=\"something\">",
      "<sub sub_item=\"sub_something\">" + "text_content</sub>", "</base>" ]

  lemma TextSubTag()
    ensures Start("sub", [Attr("sub_item", "sub_something")]) + "text_content" + End("sub")
         == "<sub sub_item=\"sub_something\">" + "text_content</sub>"
  {
    OneAttr("sub", "sub_item", "sub_something");
    assert Start("sub", [Attr("sub_item", "sub_something")]) == "<sub sub_item=\"sub_something\">";
    assert "text_content" + End("sub") == "text_content</sub>";
    AppendAssoc("<sub sub_item=\"sub_something\">", "text_content", End("sub"));
  }

  lemma TextPieces()
    ensures [ Declaration, Start("base", [Attr("Item", "something")]),
              Start("sub", [Attr("sub_item", "sub_something")]) + "text_content" + End("sub"), End("base") ]
         == TextLines
  {
    RenameBaseTag();
    TextSubTag();
    StartBase();
    assert Declaration == TextLines[0];
  }

  lemma TextLine()
    ensures '\n' !in TextLines[2] && Unpadded(TextLines[2])
  {
    var a, b := "<sub sub_item=\"sub_something\">", "text_content</sub>";
    assert '\n' !in a && '\n' !in b;
    assert '\n' !in a + b;
    UnpaddedAppend(a, b);
  }

  lemma TextNormal()
    ensures Normalize(Concat(TextLines)) == Concat(TextLines)
  {
    TextLine();
    DeclarationClean();
    NormalizeConcat(TextLines);
  }

  lemma SerTextContentWithAttributes()
    ensures WellFormed(TextStruct("something", "sub_something", "text_content"))
    ensures Document(TextStruct("something", "sub_something", "text_content")) == Normalize(Concat(TextLines))
  {
    TextShape("something", "sub_something", "text_content");
    TextPieces();
    TextNormal();
  }

  // ---------------------------------------------------------------------
  // ser_custom: a field whose type writes itself through a hand-written
  // `serialize` (`Day`, written as `DoubleDay` with twice its value)
  // ---------------------------------------------------------------------

  function DateStruct(year: int, month: int, day: int): Value
  {
    Record(TypeDesc("Date", None),
      [ Renamed("year", "Year", ChildElement, Single, [Int(year)]),
        Renamed("month", "Month", ChildElement, Single, [Int(month)]),
        Renamed("day", "Day", ChildElement, Single, [Custom(DoubleDay(day))]) ])
  }

  /** The model is well formed exactly when every number, the doubled day included, is an `i32`. */
  lemma DateWellFormed(year: int, month: int, day: int)
    ensures WellFormed(DateStruct(year, month, day))
        <==> Decimal.IsI32(year) && Decimal.IsI32(month) && Decimal.IsI32(day) && Decimal.IsI32(2 * day)
  {
    var r := DateStruct(year, month, day);
    var a, b, c := r.fields[0], r.fields[1], r.fields[2];
    assert r.fields == [a, b, c];
    assert forall f | f in r.fields :: f == a || f == b || f == c;
    assert forall j | 0 <= j < |r.fields| :: r.fields[j].desc.role == ChildElement;
    assert FieldWellFormed(a) <==> Decimal.IsI32(year) by {
      assert forall x | x in a.items :: x == Int(year);
      assert Int(year) in a.items;
    }
    assert FieldWellFormed(b) <==> Decimal.IsI32(month) by {
      assert forall x | x in b.items :: x == Int(month);
      assert Int(month) in b.items;
    }
    assert FieldWellFormed(c) <==> Decimal.IsI32(day) && Decimal.IsI32(2 * day) by {
      assert forall x | x in c.items :: x == Custom(DoubleDay(day));
      assert Custom(DoubleDay(day)) in c.items;
    }
    assert WellFormed(r) <==> FieldWellFormed(a) && FieldWellFormed(b) && FieldWellFormed(c);
  }

  lemma DateRoot(year: int, month: int, day: int)
    ensures RootNode(DateStruct(year, month, day))
         == Element("Date", [],
              [ Element("Year", [], [Text(Decimal.Render(year))]), Element("Month", [], [Text(Decimal.Render(month))]),
                Element("DoubleDay", [], [Text(Decimal.Render(day * 2))]) ])
  {
    var r := DateStruct(year, month, day);
    var a, b, c := r.fields[0], r.fields[1], r.fields[2];
    assert r.fields == [a, b, c];
    Record3(a, b, c);
    ScalarChild(a);
    ScalarChild(b);
    ElementsNamedSingle("Day", Custom(DoubleDay(day)));
  }

  /** The `day` field is written by its hook: neither its name `Day` nor a descriptor is used. */
  lemma DateShape(year: int, month: int, day: int)
    ensures Document(DateStruct(year, month, day))
         == Concat([ Declaration, Start("Date", []), Leaf("Year", Decimal.Render(year)), Leaf("Month", Decimal.Render(month)),
                     Leaf("DoubleDay", Decimal.Render(day * 2)), End("Date") ])
  {
    DateRoot(year, month, day);
    var y := Element("Year", [], [Text(Decimal.Render(year))]);
    var m := Element("Month", [], [Text(Decimal.Render(month))]);
    var d := Element("DoubleDay", [], [Text(Decimal.Render(day * 2))]);
    DocumentPieces(DateStruct(year, month, day));
    LeafIsMarkup("Year", Decimal.Render(year));
    LeafIsMarkup("Month", Decimal.Render(month));
    LeafIsMarkup("DoubleDay", Decimal.Render(day * 2));
    MarkupsCons(y, [m, d]);
    MarkupsCons(m, [d]);
    MarkupsCons(d, []);
    assert [y, m, d] == [y] + [m, d] && [m, d] == [m] + [d] && [d] + [] == [d];
    assert [Declaration, Start("Date", [])] + Markups([y, m, d]) + [End("Date")]
        == [ Declaration, Start("Date", []), Leaf("Year", Decimal.Render(year)), Leaf("Month", Decimal.Render(month)),
             Leaf("DoubleDay", Decimal.Render(day * 2)), End("Date") ];
  }

  const DateContent: seq<string> :=
    [ Declaration, "<Date>", "<Year>2020</Year>", "<Month>1</Month>",
      "<DoubleDay>10</DoubleDay>", "</Date>" ]

  lemma DateTags()
    ensures Start("Date", []) == "<Date>" && End("Date") == "</Date>"
  {
    StartPlain("Date");
  }

  lemma Year2020()
    ensures Leaf("Year", Decimal.Render(2020)) == "<Year>2020</Year>"
  {
    assert Decimal.Render(2020) == "2020";
  }

  lemma Month1()
    ensures Leaf("Month", Decimal.Render(1)) == "<Month>1</Month>"
  {
    assert Decimal.Render(1) == "1";
  }

  lemma DoubleDay10()
    ensures Leaf("DoubleDay", Decimal.Render(5 * 2)) == "<DoubleDay>10</DoubleDay>"
  {
    assert Decimal.Render(10) == "10";
  }

  lemma DatePieces()
    ensures [ Declaration, Start("Date", []), Leaf("Year", Decimal.Render(2020)), Leaf("Month", Decimal.Render(1)),
              Leaf("DoubleDay", Decimal.Render(5 * 2)), End("Date") ]
         == DateContent
  {
    DateTags();
    Year2020();
    Month1();
    DoubleDay10();
    assert Declaration == DateContent[0];
  }

  lemma DateNormal()
    ensures Normalize(Concat(DateContent)) == Concat(DateContent)
  {
    DeclarationClean();
    NormalizeConcat(DateContent);
  }

  lemma SerCustom()
    ensures WellFormed(DateStruct(2020, 1, 5))
    ensures Document(DateStruct(2020, 1, 5)) == Normalize(Concat(DateContent))
  {
    DateWellFormed(2020, 1, 5);
    DateShape(2020, 1, 5);
    DatePieces();
    DateNormal();
  }

  // ---------------------------------------------------------------------
  // ser_flatten: flattened records, a flattened `Option` of a record and a
  // flattened enum whose variant holds a `Vec`
  // ---------------------------------------------------------------------

  function IntField(name: string, i: int): FieldValue
  {
    Field(name, ChildElement, Single, [Int(i)])
  }

  function IntLeaf(name: string, i: int): Node
  {
    Element(name, [], [Text(Decimal.Render(i))])
  }

  function Extra(week: int, century: int): Value
  {
    Record(TypeDesc("Extra", None), [IntField("week", week), IntField("century", century)])
  }

  function OptionalExtra(lunarDay: int): Value
  {
    Record(TypeDesc("OptionalExtra", None), [IntField("lunar_day", lunarDay)])
  }

  function OptionalExtraItems(lunarDay: Option<int>): seq<Value>
  {
    if lunarDay.Some? then [OptionalExtra(lunarDay.value)] else []
  }

  function FlatDate(year: int, month: int, day: int, week: int, century: int, lunarDay: Option<int>): Value
  {
    Record(TypeDesc("Date", None),
      [ IntField("year", year), IntField("month", month), IntField("day", day),
        Field("extra", Flatten, Single, [Extra(week, century)]),
        Field("optional_extra", Flatten, Optional, OptionalExtraItems(lunarDay)) ])
  }

  const HolidaysVariant: VariantDesc := VariantDesc("Holidays", Some("holidays"))

  function Holidays(days: seq<string>): Value
  {
    Enum(HolidaysVariant, DataSeq(Strs(days)))
  }

  function DateTime(date: Value, time: string, days: seq<string>): Value
  {
    Record(TypeDesc("DateTime", None),
      [Field("date", Flatten, Single, [date]), Field("time", ChildElement, Single, [Str(time)]), Field("kind", Flatten, Single, [Holidays(days)])])
  }

  /** The `<lunar_day>` element, present only when the optional extra is. */
  function LunarNodes(lunarDay: Option<int>): seq<Node>
  {
    if lunarDay.Some? then [IntLeaf("lunar_day", lunarDay.value)] else []
  }

  function LunarLeaves(lunarDay: Option<int>): seq<string>
  {
    if lunarDay.Some? then [Leaf("lunar_day", Decimal.Render(lunarDay.value))] else []
  }

  lemma IntChild(name: string, i: int)
    ensures FieldAttrs(IntField(name, i)) == [] && FieldBody(IntField(name, i)) == [IntLeaf(name, i)]
  {
    ScalarChild(IntField(name, i));
  }

  /** A flattened field holding one value contributes that value's attributes and children. */
  lemma FlatField(f: FieldValue)
    requires f.desc.role == Flatten && |f.items| == 1
    ensures FieldAttrs(f) == (if f.items[0].Record? then RecordAttrs(f.items[0].fields) else [])
    ensures FieldBody(f) == FlatNodes(f.items[0])
  {
    assert f.items == [f.items[0]];
    FlatSingle(f.items[0]);
  }

  lemma ExtraParts(week: int, century: int)
    ensures RecordAttrs(Extra(week, century).fields) == []
    ensures RecordBody(Extra(week, century).fields) == [IntLeaf("week", week), IntLeaf("century", century)]
  {
    Record2(IntField("week", week), IntField("century", century));
    IntChild("week", week);
    IntChild("century", century);
  }

  lemma OptionalExtraParts(lunarDay: Option<int>)
    ensures FieldAttrs(Field("optional_extra", Flatten, Optional, OptionalExtraItems(lunarDay))) == []
    ensures FieldBody(Field("optional_extra", Flatten, Optional, OptionalExtraItems(lunarDay))) == LunarNodes(lunarDay)
  {
    if lunarDay.Some? {
      var f := Field("optional_extra", Flatten, Optional, OptionalExtraItems(lunarDay));
      FlatField(f);
      var g := IntField("lunar_day", lunarDay.value);
      RecordCons(g, []);
      assert [g] + [] == [g];
      IntChild("lunar_day", lunarDay.value);
    }
  }

  lemma RecordStep(fs: seq<FieldValue>, i: int)
    requires 0 <= i < |fs|
    ensures RecordAttrs(fs[i..]) == FieldAttrs(fs[i]) + RecordAttrs(fs[i + 1..])
    ensures RecordBody(fs[i..]) == FieldBody(fs[i]) + RecordBody(fs[i + 1..])
  {
    assert fs[i..][1..] == fs[i + 1..];
  }

  /** Five declared fields, taken as three then two. */
  lemma Record5(a: FieldValue, b: FieldValue, c: FieldValue, d: FieldValue, e: FieldValue)
    ensures RecordAttrs([a, b, c, d, e]) == FieldAttrs(a) + FieldAttrs(b) + FieldAttrs(c) + (FieldAttrs(d) + FieldAttrs(e))
    ensures RecordBody([a, b, c, d, e]) == FieldBody(a) + FieldBody(b) + FieldBody(c) + (FieldBody(d) + FieldBody(e))
  {
    assert [a, b, c, d, e] == [a, b, c] + [d, e];
    RecordAttrsAppend([a, b, c], [d, e]);
    RecordBodyAppend([a, b, c], [d, e]);
    Record3(a, b, c);
    Record2(d, e);
  }

  lemma DateFields(year: int, month: int, day: int, week: int, century: int, lunarDay: Option<int>)
    ensures var fs := FlatDate(year, month, day, week, century, lunarDay).fields;
      && RecordAttrs(fs) == FieldAttrs(fs[0]) + FieldAttrs(fs[1]) + FieldAttrs(fs[2]) + (FieldAttrs(fs[3]) + FieldAttrs(fs[4]))
      && RecordBody(fs) == FieldBody(fs[0]) + FieldBody(fs[1]) + FieldBody(fs[2]) + (FieldBody(fs[3]) + FieldBody(fs[4]))
  {
    var fs := FlatDate(year, month, day, week, century, lunarDay).fields;
    Record5(fs[0], fs[1], fs[2], fs[3], fs[4]);
    assert fs == [fs[0], fs[1], fs[2], fs[3], fs[4]];
  }

  /** The date's own three fields are three leaves. */
  lemma DateHead(year: int, month: int, day: int, week: int, century: int, lunarDay: Option<int>)
    ensures var fs := FlatDate(year, month, day, week, century, lunarDay).fields;
      && FieldAttrs(fs[0]) + FieldAttrs(fs[1]) + FieldAttrs(fs[2]) == []
      && FieldBody(fs[0]) + FieldBody(fs[1]) + FieldBody(fs[2])
         == [IntLeaf("year", year), IntLeaf("month", month), IntLeaf("day", day)]
  {
    IntChild("year", year);
    IntChild("month", month);
    IntChild("day", day);
  }

  /** The date's two flattened fields: the extra's two leaves, then the optional extra's. */
  lemma DateTail(year: int, month: int, day: int, week: int, century: int, lunarDay: Option<int>)
    ensures var fs := FlatDate(year, month, day, week, century, lunarDay).fields;
      && FieldAttrs(fs[3]) + FieldAttrs(fs[4]) == []
      && FieldBody(fs[3]) + FieldBody(fs[4]) == [IntLeaf("week", week), IntLeaf("century", century)] + LunarNodes(lunarDay)
  {
    var fs := FlatDate(year, month, day, week, century, lunarDay).fields;
    FlatField(fs[3]);
    ExtraParts(week, century);
    OptionalExtraParts(lunarDay);
  }

  /** Flattening splices: `Extra`'s fields and the optional extra's land among the date's own. */
  lemma DateParts(year: int, month: int, day: int, week: int, century: int, lunarDay: Option<int>)
    ensures RecordAttrs(FlatDate(year, month, day, week, century, lunarDay).fields) == []
    ensures RecordBody(FlatDate(year, month, day, week, century, lunarDay).fields)
         == [IntLeaf("year", year), IntLeaf("month", month), IntLeaf("day", day)]
            + ([IntLeaf("week", week), IntLeaf("century", century)] + LunarNodes(lunarDay))
  {
    DateFields(year, month, day, week, century, lunarDay);
    DateHead(year, month, day, week, century, lunarDay);
    DateTail(year, month, day, week, century, lunarDay);
  }

  /** A flattened enum holding a `Vec` is one element per item, named after the renamed variant. */
  lemma HolidaysParts(days: seq<string>)
    ensures FieldAttrs(Field("kind", Flatten, Single, [Holidays(days)])) == []
    ensures FieldBody(Field("kind", Flatten, Single, [Holidays(days)])) == ElementsNamed("holidays", Strs(days))
  {
    FlatField(Field("kind", Flatten, Single, [Holidays(days)]));
  }

  function FlatModel(year: int, month: int, day: int, week: int, century: int, lunarDay: Option<int>, time: string, days: seq<string>): Value
  {
    DateTime(FlatDate(year, month, day, week, century, lunarDay), time, days)
  }

  /** The date's leaves: its own three fields, then the extra's, then the optional extra's. */
  function DateNodes(year: int, month: int, day: int, week: int, century: int, lunarDay: Option<int>): seq<Node>
  {
    [IntLeaf("year", year), IntLeaf("month", month), IntLeaf("day", day)]
    + ([IntLeaf("week", week), IntLeaf("century", century)] + LunarNodes(lunarDay))
  }

  function DateLeaves(year: int, month: int, day: int, week: int, century: int, lunarDay: Option<int>): seq<string>
  {
    [Leaf("year", Decimal.Render(year)), Leaf("month", Decimal.Render(month)), Leaf("day", Decimal.Render(day))]
    + ([Leaf("week", Decimal.Render(week)), Leaf("century", Decimal.Render(century))] + LunarLeaves(lunarDay))
  }

  lemma DateTimeFields(year: int, month: int, day: int, week: int, century: int, lunarDay: Option<int>, time: string, days: seq<string>)
    ensures var fs := FlatModel(year, month, day, week, century, lunarDay, time, days).fields;
      && RecordAttrs(fs) == FieldAttrs(fs[0]) + FieldAttrs(fs[1]) + FieldAttrs(fs[2])
      && RecordBody(fs) == FieldBody(fs[0]) + FieldBody(fs[1]) + FieldBody(fs[2])
  {
    var fs := FlatModel(year, month, day, week, century, lunarDay, time, days).fields;
    Record3(fs[0], fs[1], fs[2]);
    assert fs == [fs[0], fs[1], fs[2]];
  }

  lemma DateTimeParts(year: int, month: int, day: int, week: int, century: int, lunarDay: Option<int>, time: string, days: seq<string>)
    ensures var fs := FlatModel(year, month, day, week, century, lunarDay, time, days).fields;
      && FieldAttrs(fs[0]) + FieldAttrs(fs[1]) + FieldAttrs(fs[2]) == []
      && FieldBody(fs[0]) == DateNodes(year, month, day, week, century, lunarDay)
      && FieldBody(fs[1]) == [Element("time", [], [Text(time)])]
      && FieldBody(fs[2]) == ElementsNamed("holidays", Strs(days))
  {
    var fs := FlatModel(year, month, day, week, century, lunarDay, time, days).fields;
    FlatField(fs[0]);
    DateParts(year, month, day, week, century, lunarDay);
    ScalarChild(fs[1]);
    HolidaysParts(days);
  }

  /** The date's fields, the time and the holidays are all direct children of `DateTime`. */
  lemma FlatRoot(year: int, month: int, day: int, week: int, century: int, lunarDay: Option<int>, time: string, days: seq<string>)
    ensures RootNode(FlatModel(year, month, day, week, century, lunarDay, time, days))
         == Element("DateTime", [],
              DateNodes(year, month, day, week, century, lunarDay)
              + [Element("time", [], [Text(time)])] + ElementsNamed("holidays", Strs(days)))
  {
    DateTimeFields(year, month, day, week, century, lunarDay, time, days);
    DateTimeParts(year, month, day, week, century, lunarDay, time, days);
  }

  lemma LunarMarkup(lunarDay: Option<int>)
    ensures Markups(LunarNodes(lunarDay)) == LunarLeaves(lunarDay)
  {
    if lunarDay.Some? {
      var n := IntLeaf("lunar_day", lunarDay.value);
      MarkupsCons(n, []);
      assert [n] + [] == [n];
      LeafIsMarkup("lunar_day", Decimal.Render(lunarDay.value));
    }
  }

  lemma DateMarkups(year: int, month: int, day: int, week: int, century: int, lunarDay: Option<int>)
    ensures Markups(DateNodes(year, month, day, week, century, lunarDay)) == DateLeaves(year, month, day, week, century, lunarDay)
  {
    var y, m, d := IntLeaf("year", year), IntLeaf("month", month), IntLeaf("day", day);
    var w, c := IntLeaf("week", week), IntLeaf("century", century);
    var l := LunarNodes(lunarDay);
    MarkupsCons(y, [m, d] + ([w, c] + l));
    MarkupsCons(m, [d] + ([w, c] + l));
    MarkupsCons(d, [w, c] + l);
    MarkupsCons(w, [c] + l);
    MarkupsCons(c, l);
    assert [y, m, d] + ([w, c] + l) == [y] + ([m, d] + ([w, c] + l));
    assert [m, d] + ([w, c] + l) == [m] + ([d] + ([w, c] + l));
    assert [d] + ([w, c] + l) == [d] + ([w, c] + l);
    assert [w, c] + l == [w] + ([c] + l);
    LeafIsMarkup("year", Decimal.Render(year));
    LeafIsMarkup("month", Decimal.Render(month));
    LeafIsMarkup("day", Decimal.Render(day));
    LeafIsMarkup("week", Decimal.Render(week));
    LeafIsMarkup("century", Decimal.Render(century));
    LunarMarkup(lunarDay);
  }

  lemma FlatMarkups(year: int, month: int, day: int, week: int, century: int, lunarDay: Option<int>, time: string, days: seq<string>)
    ensures Markups(RootNode(FlatModel(year, month, day, week, century, lunarDay, time, days)).children)
         == DateLeaves(year, month, day, week, century, lunarDay) + [Leaf("time", time)] + Leaves("holidays", days)
  {
    FlatRoot(year, month, day, week, century, lunarDay, time, days);
    var ds := DateNodes(year, month, day, week, century, lunarDay);
    var t := Element("time", [], [Text(time)]);
    var hs := ElementsNamed("holidays", Strs(days));
    assert Markups(ds + [t] + hs) == Markups(ds + [t]) + Markups(hs) by {
      MarkupsAppend(ds + [t], hs);
    }
    assert Markups(ds + [t]) == DateLeaves(year, month, day, week, century, lunarDay) + [Leaf("time", time)] by {
      TimeMarkups(ds, time);
      DateMarkups(year, month, day, week, century, lunarDay);
    }
    assert Markups(hs) == Leaves("holidays", days) by {
      LeavesMarkup("holidays", days);
    }
  }

  lemma TimeMarkups(ds: seq<Node>, time: string)
    ensures Markups(ds + [Element("time", [], [Text(time)])]) == Markups(ds) + [Leaf("time", time)]
  {
    var t := Element("time", [], [Text(time)]);
    MarkupsAppend(ds, [t]);
    MarkupsCons(t, []);
    assert [t] + [] == [t];
    LeafIsMarkup("time", time);
  }

  /**
   * The document of a `DateTime`: the date's fields, the extra's, the
   * optional extra's when present, the time, then one `<holidays>` per day,
   * all as direct children of `DateTime`.
   */
  lemma FlatShape(year: int, month: int, day: int, week: int, century: int, lunarDay: Option<int>, time: string, days: seq<string>)
    ensures Document(FlatModel(year, month, day, week, century, lunarDay, time, days))
         == Concat([Declaration, Start("DateTime", [])]
                   + (DateLeaves(year, month, day, week, century, lunarDay) + [Leaf("time", time)] + Leaves("holidays", days))
                   + [End("DateTime")])
  {
    var model := FlatModel(year, month, day, week, century, lunarDay, time, days);
    FlatRoot(year, month, day, week, century, lunarDay, time, days);
    FlatMarkups(year, month, day, week, century, lunarDay, time, days);
    DocumentPieces(model);
  }

  lemma IntFieldWellFormed(name: string, i: int)
    requires Decimal.IsI32(i)
    ensures FieldWellFormed(IntField(name, i))
  {
    assert forall x | x in IntField(name, i).items :: x == Int(i);
  }

  /** A flattened `T` or `Option<T>` field over well-formed records or enums is well formed. */
  lemma FlatFieldWellFormed(f: FieldValue)
    requires f.desc.role == Flatten && f.desc.multiplicity != Sequence && CountFits(f.desc.multiplicity, |f.items|)
    requires forall x | x in f.items :: (x.Record? || x.Enum?) && WellFormed(x)
    ensures FieldWellFormed(f)
  {
  }

  /** No field of these records is a text field, so at most one is. */
  lemma NoTextFields(fs: seq<FieldValue>)
    requires forall f | f in fs :: f.desc.role != TextContent
    ensures forall j, k | 0 <= j < k < |fs| :: fs[j].desc.role == TextContent ==> fs[k].desc.role != TextContent
  {
    assert forall j | 0 <= j < |fs| :: fs[j] in fs;
  }

  lemma DateWellFormedFlat(year: int, month: int, day: int, week: int, century: int, lunarDay: Option<int>)
    requires Decimal.IsI32(year) && Decimal.IsI32(month) && Decimal.IsI32(day)
    requires Decimal.IsI32(week) && Decimal.IsI32(century)
    requires lunarDay.Some? ==> Decimal.IsI32(lunarDay.value)
    ensures WellFormed(FlatDate(year, month, day, week, century, lunarDay))
  {
    var r := FlatDate(year, month, day, week, century, lunarDay);
    var e := Extra(week, century);
    IntFieldWellFormed("week", week);
    IntFieldWellFormed("century", century);
    assert forall f | f in e.fields :: f == e.fields[0] || f == e.fields[1];
    NoTextFields(e.fields);
    assert WellFormed(e);
    if lunarDay.Some? {
      var o := OptionalExtra(lunarDay.value);
      IntFieldWellFormed("lunar_day", lunarDay.value);
      assert forall f | f in o.fields :: f == o.fields[0];
      NoTextFields(o.fields);
      assert WellFormed(o);
      assert forall x | x in r.fields[4].items :: x == o;
    }
    assert forall x | x in r.fields[3].items :: x == e;
    FlatFieldWellFormed(r.fields[3]);
    FlatFieldWellFormed(r.fields[4]);
    IntFieldWellFormed("year", year);
    IntFieldWellFormed("month", month);
    IntFieldWellFormed("day", day);
    assert forall f | f in r.fields :: f == r.fields[0] || f == r.fields[1] || f == r.fields[2] || f == r.fields[3] || f == r.fields[4];
    NoTextFields(r.fields);
  }

  /** With every number an `i32`, the flatten model is accepted whatever the time and the days. */
  lemma FlatWellFormed(year: int, month: int, day: int, week: int, century: int, lunarDay: Option<int>, time: string, days: seq<string>)
    requires Decimal.IsI32(year) && Decimal.IsI32(month) && Decimal.IsI32(day)
    requires Decimal.IsI32(week) && Decimal.IsI32(century)
    requires lunarDay.Some? ==> Decimal.IsI32(lunarDay.value)
    ensures WellFormed(FlatModel(year, month, day, week, century, lunarDay, time, days))
  {
    var r := FlatModel(year, month, day, week, century, lunarDay, time, days);
    var date, kind := FlatDate(year, month, day, week, century, lunarDay), Holidays(days);
    DateWellFormedFlat(year, month, day, week, century, lunarDay);
    assert forall x | x in r.fields[0].items :: x == date;
    FlatFieldWellFormed(r.fields[0]);
    StrFieldWellFormed(r.fields[1]);
    assert forall x | x in Strs(days) :: x.Str?;
    assert WellFormed(kind);
    assert forall x | x in r.fields[2].items :: x == kind;
    FlatFieldWellFormed(r.fields[2]);
    assert forall f | f in r.fields :: f == r.fields[0] || f == r.fields[1] || f == r.fields[2];
    NoTextFields(r.fields);
  }

  const FlatDays: seq<string> := ["New Year's Day", "Novy God Day", "Polar Bear Swim Day"]

  const FlatIndents: seq<string> :=
    [ "", "    ", "    ", "      ", "      ", "      ", "      ", "      ",
      "      ", "      ", "      ", "      ", "      ", "    " ]

  const FlatTexts: seq<string> :=
    [ "", Declaration, "<DateTime>",
      "<year>2020</year>", "<month>1</month>", "<day>1</day>", "<week>1</week>", "<century>21</century>",
      "<lunar_day>1</lunar_day>", "<time>10:40:03</time>",
      "<holidays>" + "New Year's Day" + "</holidays>", "<holidays>" + "Novy God Day" + "</holidays>",
      "<holidays>" + "Polar Bear Swim Day" + "</holidays>", "</DateTime>" ]

  lemma FlatYear()
    ensures Leaf("year", Decimal.Render(2020)) == "<year>2020</year>"
  {
    assert Decimal.Render(2020) == "2020";
  }

  lemma FlatMonthDay()
    ensures Leaf("month", Decimal.Render(1)) == "<month>1</month>"
    ensures Leaf("day", Decimal.Render(1)) == "<day>1</day>"
  {
    assert Decimal.Render(1) == "1";
  }

  lemma FlatWeekCentury()
    ensures Leaf("week", Decimal.Render(1)) == "<week>1</week>"
    ensures Leaf("century", Decimal.Render(21)) == "<century>21</century>"
  {
    assert Decimal.Render(1) == "1";
    assert Decimal.Render(21) == "21";
  }

  lemma FlatLunarDay()
    ensures LunarLeaves(Some(1)) == ["<lunar_day>1</lunar_day>"]
  {
    assert Decimal.Render(1) == "1";
    assert Leaf("lunar_day", "1") == "<lunar_day>1</lunar_day>";
  }

  lemma FlatDateLeaves()
    ensures DateLeaves(2020, 1, 1, 1, 21, Some(1))
         == [ "<year>2020</year>", "<month>1</month>", "<day>1</day>", "<week>1</week>", "<century>21</century>",
              "<lunar_day>1</lunar_day>" ]
  {
    FlatYear();
    FlatMonthDay();
    FlatWeekCentury();
    FlatLunarDay();
  }

  lemma FlatHolidays3()
    ensures Leaves("holidays", FlatDays)
         == [Leaf("holidays", "New Year's Day"), Leaf("holidays", "Novy God Day"), Leaf("holidays", "Polar Bear Swim Day")]
  {
    var a, b, c := Leaf("holidays", FlatDays[0]), Leaf("holidays", FlatDays[1]), Leaf("holidays", FlatDays[2]);
    assert FlatDays[1..] == [FlatDays[1], FlatDays[2]] && FlatDays[2..] == [FlatDays[2]] && FlatDays[3..] == [];
    assert Leaves("holidays", FlatDays[2..]) == [c];
    assert Leaves("holidays", FlatDays[1..]) == [b, c];
  }

  lemma FlatHolidayLeaves()
    ensures Leaves("holidays", FlatDays)
         == [ "<holidays>" + "New Year's Day" + "</holidays>", "<holidays>" + "Novy God Day" + "</holidays>",
              "<holidays>" + "Polar Bear Swim Day" + "</holidays>" ]
  {
    FlatHolidays3();
    HolidayLeaf("New Year's Day");
    HolidayLeaf("Novy God Day");
    HolidayLeaf("Polar Bear Swim Day");
  }

  lemma HolidayLeaf(day: string)
    ensures Leaf("holidays", day) == "<holidays>" + day + "</holidays>"
  {
    assert "<" + "holidays" + ">" == "<holidays>";
    assert "</" + "holidays" + ">" == "</holidays>";
  }

  lemma FlatTags()
    ensures Start("DateTime", []) == "<DateTime>" && End("DateTime") == "</DateTime>"
    ensures Leaf("time", "10:40:03") == "<time>10:40:03</time>"
  {
    StartPlain("DateTime");
  }

  lemma FlatPieces()
    ensures [Declaration, Start("DateTime", [])]
            + (DateLeaves(2020, 1, 1, 1, 21, Some(1)) + [Leaf("time", "10:40:03")] + Leaves("holidays", FlatDays))
            + [End("DateTime")]
         == FlatTexts[1..]
  {
    FlatDateLeaves();
    FlatHolidayLeaves();
    FlatTags();
    assert Declaration == FlatTexts[1];
  }

  lemma FlatIndentsBlank()
    ensures forall j | 0 <= j < |FlatIndents| :: Blank(FlatIndents[j])
  {
    assert Blank("") && Blank("    ") && Blank("      ");
    assert forall j | 0 <= j < |FlatIndents| :: FlatIndents[j] in {"", "    ", "      "};
  }

  lemma FlatTextsNoLineFeed1()
    ensures forall j | 0 <= j < 5 :: NoLineFeed(FlatTexts[j])
  {
    forall j | 0 <= j < 5 ensures NoLineFeed(FlatTexts[j]) {
      NotInNoLineFeed(FlatTexts[j]);
    }
  }

  lemma FlatTextsNoLineFeed2()
    ensures forall j | 5 <= j < 10 :: NoLineFeed(FlatTexts[j])
  {
    forall j | 5 <= j < 10 ensures NoLineFeed(FlatTexts[j]) {
      NotInNoLineFeed(FlatTexts[j]);
    }
  }

  lemma FlatTextsNoLineFeed3()
    ensures forall j | 10 <= j < 14 :: NoLineFeed(FlatTexts[j])
  {
    forall j | 10 <= j < 14 ensures NoLineFeed(FlatTexts[j]) {
      NotInNoLineFeed(FlatTexts[j]);
    }
  }

  lemma FlatTextsUnpadded()
    ensures forall j | 0 <= j < |FlatTexts| :: Unpadded(FlatTexts[j])
  {
  }

  lemma FlatTextsClean()
    ensures forall j | 0 <= j < |FlatTexts| :: NoLineFeed(FlatTexts[j]) && Unpadded(FlatTexts[j])
  {
    FlatTextsNoLineFeed1();
    FlatTextsNoLineFeed2();
    FlatTextsNoLineFeed3();
    FlatTextsUnpadded();
  }

  lemma FlatNormal()
    ensures Normalize(JoinLines(Indented(FlatIndents, FlatTexts))) == Concat(FlatTexts)
  {
    FlatIndentsBlank();
    FlatTextsClean();
    NormalizeIndented(FlatIndents, FlatTexts);
  }

  /**
   * `ser_flatten`: the flattened date, extra and optional extra, the time and
   * three `<holidays>` elements, all directly under `<DateTime>`.
   */
  lemma SerFlatten()
    ensures WellFormed(FlatModel(2020, 1, 1, 1, 21, Some(1), "10:40:03", FlatDays))
    ensures Document(FlatModel(2020, 1, 1, 1, 21, Some(1), "10:40:03", FlatDays))
         == Normalize(JoinLines(Indented(FlatIndents, FlatTexts)))
  {
    FlatWellFormed(2020, 1, 1, 1, 21, Some(1), "10:40:03", FlatDays);
    FlatDocument();
    FlatNormal();
  }

  lemma FlatDocument()
    ensures Document(FlatModel(2020, 1, 1, 1, 21, Some(1), "10:40:03", FlatDays)) == Concat(FlatTexts)
  {
    FlatShape(2020, 1, 1, 1, 21, Some(1), "10:40:03", FlatDays);
    FlatPieces();
    FlatLeading();
  }

  lemma FlatLeading()
    ensures Concat(FlatTexts) == Concat(FlatTexts[1..])
  {
    Leading(FlatTexts[1..]);
    assert FlatTexts == [""] + FlatTexts[1..];
  }
}
