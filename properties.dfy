/**
 * What the serializer promises about the text it writes, stated over the
 * reference rendering of the Serializer module (which the walk is proved to
 * follow event by event).
 */
module SerializerProperties {
  import opened Strings
  import opened Xml
  import opened Descriptors
  import opened Serializer
  import Decimal

  // ---------------------------------------------------------------------
  // Document framing and the root element's name
  // ---------------------------------------------------------------------

  /**
   * Every document is the declaration immediately followed by the root start
   * tag, named by the `root` annotation when there is one and by the type name
   * otherwise.
   */
  lemma DocumentFraming(root: Value)
    requires root.Record?
    ensures Declaration + "<" + root.ty.ElementName() <= Document(root)
    ensures root.ty.root.Some? ==> Declaration + "<" + root.ty.root.value <= Document(root)
    ensures root.ty.root.None? ==> Declaration + "<" + root.ty.name <= Document(root)
  {
    var n := RootNode(root);
    var name := root.ty.ElementName();
    MarkupStartsWithName(n.name, n.attrs, n.children);
    var r := Concat(Tokens(n)[2..]);
    AppendAssoc(Declaration, "<" + name, r);
    AppendAssoc(Declaration, "<", name);
    PrefixOfAppend(Declaration + "<" + name, r);
  }

  /** The root element ends with ` />` exactly when it has no children, and with its end tag otherwise. */
  lemma DocumentClosing(root: Value)
    requires root.Record?
    ensures RecordBody(root.fields) == [] ==>
      Document(root) == Declaration + OpenTag(root.ty.ElementName(), RecordAttrs(root.fields)) + " />"
    ensures RecordBody(root.fields) != [] ==>
      Document(root)
      == Declaration + OpenTag(root.ty.ElementName(), RecordAttrs(root.fields)) + ">"
         + MarkupOf(RecordBody(root.fields)) + "</" + root.ty.ElementName() + ">"
  {
    var name := root.ty.ElementName();
    var attrs := RecordAttrs(root.fields);
    var body := RecordBody(root.fields);
    var open := OpenTag(name, attrs);
    ElementMarkup(name, attrs, body);
    if body == [] {
      AppendAssoc(Declaration, open, " />");
    } else {
      var m := MarkupOf(body);
      AppendAssoc(Declaration, open + ">" + m + "</" + name, ">");
      AppendAssoc(Declaration, open + ">" + m + "</", name);
      AppendAssoc(Declaration, open + ">" + m, "</");
      AppendAssoc(Declaration, open + ">", m);
      AppendAssoc(Declaration, open, ">");
    }
  }

  // ---------------------------------------------------------------------
  // Declared order, absent optionals
  // ---------------------------------------------------------------------

  /** Each field contributes its attributes and children at its declared position. */
  lemma FieldAtPosition(fs: seq<FieldValue>, i: int)
    requires 0 <= i < |fs|
    ensures RecordAttrs(fs) == RecordAttrs(fs[..i]) + FieldAttrs(fs[i]) + RecordAttrs(fs[i + 1..])
    ensures RecordBody(fs) == RecordBody(fs[..i]) + FieldBody(fs[i]) + RecordBody(fs[i + 1..])
  {
    assert fs == fs[..i] + fs[i..];
    assert fs[i..][0] == fs[i] && fs[i..][1..] == fs[i + 1..];
    RecordAttrsAppend(fs[..i], fs[i..]);
    RecordBodyAppend(fs[..i], fs[i..]);
  }

  /** An `Option` field holding `None` writes nothing: the record renders as if the field were not declared. */
  lemma AbsentFieldOmitted(fs: seq<FieldValue>, i: int)
    requires 0 <= i < |fs| && fs[i].items == []
    ensures RecordAttrs(fs) == RecordAttrs(fs[..i] + fs[i + 1..])
    ensures RecordBody(fs) == RecordBody(fs[..i] + fs[i + 1..])
  {
    var before, after := fs[..i], fs[i + 1..];
    FieldAtPosition(fs, i);
    AbsentField(fs[i]);
    assert RecordAttrs(before) + [] == RecordAttrs(before);
    assert RecordBody(before) + [] == RecordBody(before);
    RecordAttrsAppend(before, after);
    RecordBodyAppend(before, after);
  }

  lemma AbsentField(f: FieldValue)
    requires f.items == []
    ensures FieldAttrs(f) == [] && FieldBody(f) == []
  {
  }

  lemma {:induction false} NothingPresent(fs: seq<FieldValue>)
    requires forall f | f in fs :: f.items == []
    ensures RecordAttrs(fs) == [] && RecordBody(fs) == []
  {
    if fs != [] {
      assert fs[0] in fs;
      AbsentField(fs[0]);
      NothingPresent(fs[1..]);
    }
  }

  /** A record whose every field is absent is a bare self-closing root: `<Struct />`. */
  lemma AllAbsentRendersBare(root: Value)
    requires root.Record? && forall f | f in root.fields :: f.items == []
    ensures Document(root) == Declaration + "<" + root.ty.ElementName() + " />"
  {
    NothingPresent(root.fields);
    ElementMarkup(root.ty.ElementName(), [], []);
    OpenTagShape(root.ty.ElementName(), []);
  }

  // ---------------------------------------------------------------------
  // Sequences and nested records
  // ---------------------------------------------------------------------

  /**
   * A field holding k items (a `Vec`, an `Option`, a plain value) writes k
   * sibling elements, in item order, each named after the field, with no
   * wrapper around them.
   */
  lemma {:induction false} ElementsNamedShape(name: string, xs: seq<Value>)
    requires forall x | x in xs :: !x.Custom?
    ensures |ElementsNamed(name, xs)| == |xs|
    ensures forall j | 0 <= j < |xs| ::
      && ElementsNamed(name, xs)[j] == ValueNodes(name, xs[j])[0]
      && ElementsNamed(name, xs)[j].Element?
      && ElementsNamed(name, xs)[j].name == name
  {
    if xs != [] {
      assert xs[0] in xs;
      ElementsNamedShape(name, xs[1..]);
      var r := ElementsNamed(name, xs);
      assert r == ValueNodes(name, xs[0]) + ElementsNamed(name, xs[1..]);
      forall j | 0 <= j < |xs|
        ensures r[j] == ValueNodes(name, xs[j])[0] && r[j].Element? && r[j].name == name
      {
        if j > 0 {
          assert r[j] == ElementsNamed(name, xs[1..])[j - 1];
        }
      }
    }
  }

  /**
   * A record written inside another is its own standalone rendering with the
   * element renamed to the field's name: its `root` annotation and type name
   * play no part.
   */
  lemma NestedRecordNamedByField(name: string, x: Value, other: TypeDesc)
    requires x.Record?
    ensures ValueNodes(name, x) == [Element(name, RootNode(x).attrs, RootNode(x).children)]
    ensures ValueNodes(name, x) == ValueNodes(name, x.(ty := other))
  {
  }

  // ---------------------------------------------------------------------
  // Attributes
  // ---------------------------------------------------------------------

  lemma {:induction false} AttrItemsShape(name: string, xs: seq<Value>)
    ensures |AttrItems(name, xs)| == |xs|
    ensures forall k | 0 <= k < |xs| :: AttrItems(name, xs)[k] == Attr(name, ScalarText(xs[k]))
  {
    if xs != [] {
      AttrItemsShape(name, xs[1..]);
      var r := AttrItems(name, xs);
      forall k | 0 <= k < |xs|
        ensures r[k] == Attr(name, ScalarText(xs[k]))
      {
        if k > 0 {
          assert r[k] == AttrItems(name, xs[1..])[k - 1];
        }
      }
    }
  }

  /** An attribute field adds one attribute per present item, under its resolved name, and no child. */
  lemma AttributeField(f: FieldValue)
    requires f.desc.role == Attribute
    ensures FieldBody(f) == []
    ensures |FieldAttrs(f)| == |f.items|
    ensures forall k | 0 <= k < |f.items| :: FieldAttrs(f)[k] == Attr(f.desc.XmlName(), ScalarText(f.items[k]))
  {
    AttrItemsShape(f.desc.XmlName(), f.items);
  }

  /**
   * When every field is a present attribute, the start tag carries one
   * attribute per field, in declared order, under each field's resolved name.
   */
  lemma {:induction false} AttributesInDeclaredOrder(fs: seq<FieldValue>)
    requires forall f | f in fs :: f.desc.role == Attribute && |f.items| == 1
    ensures |RecordAttrs(fs)| == |fs|
    ensures forall k | 0 <= k < |fs| :: RecordAttrs(fs)[k] == Attr(fs[k].desc.XmlName(), ScalarText(fs[k].items[0]))
  {
    if fs != [] {
      assert fs[0] in fs;
      AttributeField(fs[0]);
      AttributesInDeclaredOrder(fs[1..]);
      var r := RecordAttrs(fs);
      assert r == FieldAttrs(fs[0]) + RecordAttrs(fs[1..]);
      forall k | 0 <= k < |fs|
        ensures r[k] == Attr(fs[k].desc.XmlName(), ScalarText(fs[k].items[0]))
      {
        if k > 0 {
          assert r[k] == RecordAttrs(fs[1..])[k - 1];
        }
      }
    }
  }

  lemma {:induction false} OnlyAttributesNoBody(fs: seq<FieldValue>)
    requires forall f | f in fs :: f.desc.role == Attribute
    ensures RecordBody(fs) == []
  {
    if fs != [] {
      assert fs[0] in fs;
      OnlyAttributesNoBody(fs[1..]);
    }
  }

  /** A record made only of attribute fields self-closes: `<sub subitem="sub-something" />`. */
  lemma AttributesOnlySelfCloses(name: string, x: Value)
    requires x.Record? && forall f | f in x.fields :: f.desc.role == Attribute
    ensures |ValueNodes(name, x)| == 1
    ensures Markup(ValueNodes(name, x)[0]) == OpenTag(name, RecordAttrs(x.fields)) + " />"
  {
    OnlyAttributesNoBody(x.fields);
    ElementMarkup(name, RecordAttrs(x.fields), []);
  }

  /** A data-less variant held by an attribute field is written as the variant's resolved name. */
  lemma UnitVariantAttribute(f: FieldValue, v: VariantDesc)
    requires f.desc.role == Attribute && f.items == [Enum(v, NoData)]
    ensures FieldAttrs(f) == [Attr(f.desc.XmlName(), v.XmlName())]
    ensures FieldBody(f) == []
  {
    AttributeField(f);
  }

  // ---------------------------------------------------------------------
  // Renaming
  // ---------------------------------------------------------------------

  /**
   * A `rename` always wins and is used verbatim: the field's Rust name then
   * has no effect on what is written.
   */
  lemma RenameWins(f: FieldValue, other: string)
    requires f.desc.rename.Some?
    ensures FieldAttrs(f.(desc := f.desc.(name := other))) == FieldAttrs(f)
    ensures FieldBody(f.(desc := f.desc.(name := other))) == FieldBody(f)
    ensures f.desc.role == Attribute ==> forall a | a in FieldAttrs(f) :: a.name == f.desc.rename.value
  {
    if f.desc.role == Attribute {
      AttributeField(f);
    }
  }

  /** Without a `rename`, a child element takes the field's own name, whatever it is (`name` included). */
  lemma PlainFieldNamedAsDeclared(f: FieldValue, s: string)
    requires f.desc.rename.None? && f.desc.role == ChildElement && f.items == [Str(s)]
    ensures FieldBody(f) == [Element(f.desc.name, [], [Text(s)])]
  {
    ElementsNamedSingle(f.desc.name, Str(s));
  }

  // ---------------------------------------------------------------------
  // Text content
  // ---------------------------------------------------------------------

  lemma {:induction false} TextItemsShape(xs: seq<Value>)
    ensures |TextItems(xs)| == |xs|
    ensures forall k | 0 <= k < |xs| :: TextItems(xs)[k] == Text(ScalarText(xs[k]))
  {
    if xs != [] {
      TextItemsShape(xs[1..]);
      var r := TextItems(xs);
      forall k | 0 <= k < |xs|
        ensures r[k] == Text(ScalarText(xs[k]))
      {
        if k > 0 {
          assert r[k] == TextItems(xs[1..])[k - 1];
        }
      }
    }
  }

  /** The text field is written as the element's own text, never as an attribute or a child element. */
  lemma TextField(f: FieldValue)
    requires f.desc.role == TextContent
    ensures FieldAttrs(f) == []
    ensures |FieldBody(f)| == |f.items|
    ensures forall k | 0 <= k < |f.items| :: FieldBody(f)[k] == Text(ScalarText(f.items[k]))
  {
    TextItemsShape(f.items);
  }

  /**
   * Attributes plus one text field: `<sub sub_item="sub_something">text_content</sub>`,
   * the text directly inside the element.
   */
  lemma AttributesAndText(name: string, x: Value, i: int, t: Value)
    requires x.Record? && 0 <= i < |x.fields|
    requires x.fields[i].desc.role == TextContent && x.fields[i].items == [t]
    requires forall k | 0 <= k < |x.fields| && k != i :: x.fields[k].desc.role == Attribute
    ensures |ValueNodes(name, x)| == 1
    ensures Markup(ValueNodes(name, x)[0])
         == OpenTag(name, RecordAttrs(x.fields)) + ">" + ScalarText(t) + "</" + name + ">"
  {
    var fs := x.fields;
    FieldAtPosition(fs, i);
    forall f | f in fs[..i] ensures f.desc.role == Attribute {
      var k :| 0 <= k < i && fs[..i][k] == f;
    }
    forall f | f in fs[i + 1..] ensures f.desc.role == Attribute {
      var k :| 0 <= k < |fs| - i - 1 && fs[i + 1..][k] == f;
      assert f == fs[i + 1 + k];
    }
    OnlyAttributesNoBody(fs[..i]);
    OnlyAttributesNoBody(fs[i + 1..]);
    TextField(fs[i]);
    var body := [Text(ScalarText(t))];
    assert RecordBody(fs) == body;
    ElementMarkup(name, RecordAttrs(fs), body);
    ConcatSingle(ScalarText(t));
    assert MarkupOf(body) == ScalarText(t) by {
      assert TokensOf(body) == [ScalarText(t)] + TokensOf([]);
    }
  }

  // ---------------------------------------------------------------------
  // The custom hook
  // ---------------------------------------------------------------------

  /**
   * A field whose type serializes itself writes what its hook writes, in place
   * of the field, whatever the field's name, rename or multiplicity.
   */
  /** An integer's text, written as an attribute value or as text, reads back as that integer. */
  lemma ScalarTextOfInt(i: int)
    ensures Decimal.Parse(ScalarText(Int(i))) == Some(i)
  {
    Decimal.ParseRender(i);
  }

  /** Any value other than a hook is exactly one element, named by the field it sits in. */
  lemma ValueNodesShape(name: string, x: Value)
    requires !x.Custom?
    ensures |ValueNodes(name, x)| == 1
    ensures ValueNodes(name, x)[0].Element? && ValueNodes(name, x)[0].name == name
  {
  }

  lemma CustomHookReplacesField(f: FieldValue, h: Hook)
    requires f.desc.role == ChildElement && f.items == [Custom(h)]
    ensures FieldBody(f) == HookNodes(h)
  {
    ElementsNamedSingle(f.desc.XmlName(), Custom(h));
  }

  /** `Day { value: d }` is written as `<DoubleDay>2d</DoubleDay>`, and that text reads back as `2 * d`. */
  lemma DoubleDayMarkup(d: int)
    ensures |HookNodes(DoubleDay(d))| == 1
    ensures Markup(HookNodes(DoubleDay(d))[0]) == "<DoubleDay>" + Decimal.Render(d * 2) + "</DoubleDay>"
    ensures Decimal.Parse(Decimal.Render(d * 2)) == Some(2 * d)
  {
    var t := Decimal.Render(d * 2);
    ElementMarkup("DoubleDay", [], [Text(t)]);
    OpenTagShape("DoubleDay", []);
    ConcatSingle(t);
    assert MarkupOf([Text(t)]) == t by {
      assert TokensOf([Text(t)]) == [t] + TokensOf([]);
    }
    var m := Markup(HookNodes(DoubleDay(d))[0]);
    assert m == "<" + "DoubleDay" + ">" + t + "</" + "DoubleDay" + ">";
    assert "<" + "DoubleDay" + ">" == "<DoubleDay>";
    AppendAssoc("<DoubleDay>" + t + "</", "DoubleDay", ">");
    AppendAssoc("<DoubleDay>" + t, "</", "DoubleDay" + ">");
    assert "</" + ("DoubleDay" + ">") == "</DoubleDay>";
    Decimal.ParseRender(d * 2);
  }

  // ---------------------------------------------------------------------
  // Flattening
  // ---------------------------------------------------------------------

  /**
   * Flattening a record (plain or inside `Some`) is splicing its fields into
   * the parent at the flattened field's position: same attributes, same
   * children, in the same order, no wrapper.
   */
  lemma FlattenRecordInlines(fs: seq<FieldValue>, i: int)
    requires 0 <= i < |fs| && fs[i].desc.role == Flatten
    requires |fs[i].items| == 1 && fs[i].items[0].Record?
    ensures RecordAttrs(fs) == RecordAttrs(fs[..i] + fs[i].items[0].fields + fs[i + 1..])
    ensures RecordBody(fs) == RecordBody(fs[..i] + fs[i].items[0].fields + fs[i + 1..])
  {
    var inner := fs[i].items[0].fields;
    FieldAtPosition(fs, i);
    FlatSingle(fs[i].items[0]);
    assert fs[i].items == [fs[i].items[0]];
    assert FieldAttrs(fs[i]) == RecordAttrs(inner);
    assert FieldBody(fs[i]) == RecordBody(inner);
    RecordAttrsAppend(fs[..i] + inner, fs[i + 1..]);
    RecordAttrsAppend(fs[..i], inner);
    RecordBodyAppend(fs[..i] + inner, fs[i + 1..]);
    RecordBodyAppend(fs[..i], inner);
  }

  /** What a flattened record contributes is exactly the attributes and children it has standalone. */
  lemma FlattenedIsStandalone(x: Value)
    requires x.Record?
    ensures FlatNodes(x) == RootNode(x).children
    ensures FlatAttrs([x]) == RootNode(x).attrs
  {
    FlatSingle(x);
  }

  /**
   * A flattened enum unwraps to its active variant: nothing for a data-less
   * variant, and otherwise exactly what an ordinary field named after the
   * variant would write (one element per item for a `Vec`).
   */
  lemma FlattenedEnum(v: VariantDesc, data: VariantData)
    ensures data.NoData? ==> FlatNodes(Enum(v, data)) == []
    ensures data.Data? ==>
      FlatNodes(Enum(v, data)) == FieldBody(FieldValue(FieldDesc(v.name, v.rename, ChildElement, Single), [data.value]))
    ensures data.DataSeq? ==>
      FlatNodes(Enum(v, data)) == FieldBody(FieldValue(FieldDesc(v.name, v.rename, ChildElement, Sequence), data.values))
  {
    if data.Data? {
      ElementsNamedSingle(v.XmlName(), data.value);
    }
  }
}
