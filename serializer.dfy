/**
 * The serialization engine: how a value, walked through its descriptors,
 * becomes the events a `Writer` receives.
 *
 * The first half states, as a tree of `Xml.Node`s, what each value, field
 * and record contributes (attributes of the enclosing start tag, children of
 * the enclosing element). The second half is the walk the derived
 * `serialize` methods perform: it drives the writer event by event, field by
 * field in declared order, and is proved to send exactly the events of that
 * tree.
 */
module Serializer {
  import opened Strings
  import opened Xml
  import opened Descriptors
  import Decimal

  // ---------------------------------------------------------------------
  // What a value contributes
  // ---------------------------------------------------------------------

  /**
   * The single text form of a value written as an attribute value or as text:
   * strings as they are, integers in base 10, a data-less variant as its
   * resolved name, a one-value variant as that value's text.
   */
  function ScalarText(v: Value): string
    decreases v
  {
    match v
    case Str(s) => s
    case Int(i) => Decimal.Render(i)
    case Enum(variant, data) =>
      (match data
       case NoData => variant.XmlName()
       case Data(x) => ScalarText(x)
       case DataSeq(_) => "")
    case _ => ""
  }

  /** The attributes an attribute field adds: one per present item, under the field's resolved name. */
  function AttrItems(name: string, xs: seq<Value>): seq<Attr>
  {
    if xs == [] then [] else [Attr(name, ScalarText(xs[0]))] + AttrItems(name, xs[1..])
  }

  /** The attributes flattened values add: those of each flattened record, in order. */
  function FlatAttrs(xs: seq<Value>): seq<Attr>
    decreases xs
  {
    if xs == [] then []
    else (if xs[0].Record? then RecordAttrs(xs[0].fields) else []) + FlatAttrs(xs[1..])
  }

  function FieldAttrs(f: FieldValue): seq<Attr>
    decreases f
  {
    match f.desc.role
    case Attribute => AttrItems(f.desc.XmlName(), f.items)
    case Flatten => FlatAttrs(f.items)
    case _ => []
  }

  /** The attributes of a record's start tag, field by field in declared order. */
  function RecordAttrs(fs: seq<FieldValue>): seq<Attr>
    decreases fs
  {
    if fs == [] then [] else FieldAttrs(fs[0]) + RecordAttrs(fs[1..])
  }

  /** The text nodes of a text field, one per present item. */
  function TextItems(xs: seq<Value>): seq<Node>
  {
    if xs == [] then [] else [Text(ScalarText(xs[0]))] + TextItems(xs[1..])
  }

  /** One sibling per item, each under `name`: the rendering of a `Vec`, an `Option` or a plain field. */
  function ElementsNamed(name: string, xs: seq<Value>): seq<Node>
    decreases xs
  {
    if xs == [] then [] else ValueNodes(name, xs[0]) + ElementsNamed(name, xs[1..])
  }

  function FlatBody(xs: seq<Value>): seq<Node>
    decreases xs
  {
    if xs == [] then [] else FlatNodes(xs[0]) + FlatBody(xs[1..])
  }

  /** The children a field adds to the enclosing element. */
  function FieldBody(f: FieldValue): seq<Node>
    decreases f
  {
    match f.desc.role
    case Attribute => []
    case TextContent => TextItems(f.items)
    case ChildElement => ElementsNamed(f.desc.XmlName(), f.items)
    case Flatten => FlatBody(f.items)
  }

  /** The children of a record's element, field by field in declared order. */
  function RecordBody(fs: seq<FieldValue>): seq<Node>
    decreases fs
  {
    if fs == [] then [] else FieldBody(fs[0]) + RecordBody(fs[1..])
  }

  /**
   * A value written as a child element named `name`. A value with a custom
   * hook writes what its hook writes instead, whatever `name` is.
   */
  function ValueNodes(name: string, x: Value): seq<Node>
    decreases x
  {
    match x
    case Str(_) => [Element(name, [], [Text(ScalarText(x))])]
    case Int(_) => [Element(name, [], [Text(ScalarText(x))])]
    case Record(_, fs) => [Element(name, RecordAttrs(fs), RecordBody(fs))]
    case Enum(variant, data) => [Element(name, [], VariantNodes(variant, data, false))]
    case Custom(h) => HookNodes(h)
  }

  /** What a flattened value puts in place of its field: its own children, without a wrapper. */
  function FlatNodes(x: Value): seq<Node>
    decreases x
  {
    match x
    case Record(_, fs) => RecordBody(fs)
    case Enum(variant, data) => VariantNodes(variant, data, true)
    case _ => []
  }

  /**
   * The content of the active variant. A data-less variant is its resolved name
   * as text, or nothing when flattened; a variant's data is written under the
   * variant's resolved name, one element per item for a `Vec`.
   */
  function VariantNodes(variant: VariantDesc, data: VariantData, flattened: bool): seq<Node>
    decreases data
  {
    match data
    case NoData => if flattened then [] else [Text(variant.XmlName())]
    case Data(x) => ValueNodes(variant.XmlName(), x)
    case DataSeq(xs) => ElementsNamed(variant.XmlName(), xs)
  }

  /**
   * What a hand-written `serialize` writes: for `Day`, a `DoubleDay` element
   * holding twice the value; for any other hook, its own nodes.
   */
  function HookNodes(h: Hook): seq<Node>
  {
    match h
    case DoubleDay(d) => [Element("DoubleDay", [], [Text(Decimal.Render(d * 2))])]
    case Emits(ns) => ns
  }

  /** The document element: named by the `root` annotation, else by the type name. */
  function RootNode(root: Value): Node
    requires root.Record?
  {
    Element(root.ty.ElementName(), RecordAttrs(root.fields), RecordBody(root.fields))
  }

  /** The whole text `to_string` returns for a record. */
  function Document(root: Value): string
    requires root.Record?
  {
    Declaration + Markup(RootNode(root))
  }

  // ---------------------------------------------------------------------
  // Splitting the lists at any point
  // ---------------------------------------------------------------------

  lemma {:induction false} AttrItemsAppend(name: string, a: seq<Value>, b: seq<Value>)
    ensures AttrItems(name, a + b) == AttrItems(name, a) + AttrItems(name, b)
  {
    if a == [] {
      assert a + b == b;
    } else {
      assert (a + b)[1..] == a[1..] + b;
      AttrItemsAppend(name, a[1..], b);
    }
  }

  lemma {:induction false} FlatAttrsAppend(a: seq<Value>, b: seq<Value>)
    ensures FlatAttrs(a + b) == FlatAttrs(a) + FlatAttrs(b)
  {
    if a == [] {
      assert a + b == b;
    } else {
      assert (a + b)[1..] == a[1..] + b;
      FlatAttrsAppend(a[1..], b);
    }
  }

  lemma {:induction false} RecordAttrsAppend(a: seq<FieldValue>, b: seq<FieldValue>)
    ensures RecordAttrs(a + b) == RecordAttrs(a) + RecordAttrs(b)
  {
    if a == [] {
      assert a + b == b;
    } else {
      assert (a + b)[1..] == a[1..] + b;
      RecordAttrsAppend(a[1..], b);
    }
  }

  lemma {:induction false} TextItemsAppend(a: seq<Value>, b: seq<Value>)
    ensures TextItems(a + b) == TextItems(a) + TextItems(b)
  {
    if a == [] {
      assert a + b == b;
    } else {
      assert (a + b)[1..] == a[1..] + b;
      TextItemsAppend(a[1..], b);
    }
  }

  lemma {:induction false} ElementsNamedAppend(name: string, a: seq<Value>, b: seq<Value>)
    ensures ElementsNamed(name, a + b) == ElementsNamed(name, a) + ElementsNamed(name, b)
  {
    if a == [] {
      assert a + b == b;
    } else {
      assert (a + b)[1..] == a[1..] + b;
      ElementsNamedAppend(name, a[1..], b);
    }
  }

  lemma {:induction false} FlatBodyAppend(a: seq<Value>, b: seq<Value>)
    ensures FlatBody(a + b) == FlatBody(a) + FlatBody(b)
  {
    if a == [] {
      assert a + b == b;
    } else {
      assert (a + b)[1..] == a[1..] + b;
      FlatBodyAppend(a[1..], b);
    }
  }

  lemma {:induction false} RecordBodyAppend(a: seq<FieldValue>, b: seq<FieldValue>)
    ensures RecordBody(a + b) == RecordBody(a) + RecordBody(b)
  {
    if a == [] {
      assert a + b == b;
    } else {
      assert (a + b)[1..] == a[1..] + b;
      RecordBodyAppend(a[1..], b);
    }
  }

  // One more item: what each loop of the walk adds per step

  lemma EventsAssoc(e: seq<Event>, a: seq<Event>, b: seq<Event>)
    ensures e + a + b == e + (a + b)
  {
  }

  lemma RecordBodyStep(e: seq<Event>, fs: seq<FieldValue>, i: int)
    requires 0 <= i < |fs|
    ensures e + EventsOf(RecordBody(fs[..i])) + EventsOf(FieldBody(fs[i])) == e + EventsOf(RecordBody(fs[..i + 1]))
  {
    assert fs[..i + 1] == fs[..i] + [fs[i]];
    RecordBodyAppend(fs[..i], [fs[i]]);
    assert [fs[i]][1..] == [];
    assert RecordBody([fs[i]]) == FieldBody(fs[i]) + [] == FieldBody(fs[i]);
    EventsOfAppend(RecordBody(fs[..i]), FieldBody(fs[i]));
    EventsAssoc(e, EventsOf(RecordBody(fs[..i])), EventsOf(FieldBody(fs[i])));
  }

  lemma TextItemsStep(e: seq<Event>, xs: seq<Value>, j: int)
    requires 0 <= j < |xs|
    ensures e + EventsOf(TextItems(xs[..j])) + [Characters(ScalarText(xs[j]))] == e + EventsOf(TextItems(xs[..j + 1]))
  {
    assert xs[..j + 1] == xs[..j] + [xs[j]];
    TextItemsAppend(xs[..j], [xs[j]]);
    assert [xs[j]][1..] == [];
    assert TextItems([xs[j]]) == [Text(ScalarText(xs[j]))] + [] == [Text(ScalarText(xs[j]))];
    EventsOfAppend(TextItems(xs[..j]), [Text(ScalarText(xs[j]))]);
    assert EventsOf([Text(ScalarText(xs[j]))]) == [Characters(ScalarText(xs[j]))];
    EventsAssoc(e, EventsOf(TextItems(xs[..j])), [Characters(ScalarText(xs[j]))]);
  }

  lemma ElementsNamedStep(e: seq<Event>, name: string, xs: seq<Value>, j: int)
    requires 0 <= j < |xs|
    ensures e + EventsOf(ElementsNamed(name, xs[..j])) + EventsOf(ValueNodes(name, xs[j]))
         == e + EventsOf(ElementsNamed(name, xs[..j + 1]))
  {
    assert xs[..j + 1] == xs[..j] + [xs[j]];
    ElementsNamedAppend(name, xs[..j], [xs[j]]);
    ElementsNamedSingle(name, xs[j]);
    EventsOfAppend(ElementsNamed(name, xs[..j]), ValueNodes(name, xs[j]));
    EventsAssoc(e, EventsOf(ElementsNamed(name, xs[..j])), EventsOf(ValueNodes(name, xs[j])));
  }

  lemma FlatBodyStep(e: seq<Event>, xs: seq<Value>, j: int)
    requires 0 <= j < |xs|
    ensures e + EventsOf(FlatBody(xs[..j])) + EventsOf(FlatNodes(xs[j])) == e + EventsOf(FlatBody(xs[..j + 1]))
  {
    assert xs[..j + 1] == xs[..j] + [xs[j]];
    FlatBodyAppend(xs[..j], [xs[j]]);
    FlatSingle(xs[j]);
    EventsOfAppend(FlatBody(xs[..j]), FlatNodes(xs[j]));
    EventsAssoc(e, EventsOf(FlatBody(xs[..j])), EventsOf(FlatNodes(xs[j])));
  }

  lemma NodesStep(e: seq<Event>, ns: seq<Node>, i: int)
    requires 0 <= i < |ns|
    ensures e + EventsOf(ns[..i]) + Events(ns[i]) == e + EventsOf(ns[..i + 1])
  {
    assert ns[..i + 1] == ns[..i] + [ns[i]];
    EventsOfAppend(ns[..i], [ns[i]]);
    EventsOfSingle(ns[i]);
    EventsAssoc(e, EventsOf(ns[..i]), Events(ns[i]));
  }

  lemma ElementsNamedSingle(name: string, x: Value)
    ensures ElementsNamed(name, [x]) == ValueNodes(name, x)
  {
    assert [x][1..] == [];
    assert ElementsNamed(name, [x]) == ValueNodes(name, x) + [];
  }

  lemma FlatSingle(x: Value)
    ensures FlatAttrs([x]) == if x.Record? then RecordAttrs(x.fields) else []
    ensures FlatBody([x]) == FlatNodes(x)
  {
    assert [x][1..] == [];
    assert FlatBody([x]) == FlatNodes(x) + [];
  }

  // ---------------------------------------------------------------------
  // The walk
  // ---------------------------------------------------------------------

  /**
   * The attributes of a record's start tag, collected before the tag is
   * written: attribute fields in declared order, and the attributes of
   * flattened records at the flattened field's position.
   */
  method Attributes(fs: seq<FieldValue>) returns (attrs: seq<Attr>)
    ensures attrs == RecordAttrs(fs)
    decreases fs
  {
    attrs := [];
    var i := 0;
    while i < |fs|
      invariant 0 <= i <= |fs|
      invariant attrs == RecordAttrs(fs[..i])
    {
      var more := FieldAttributes(fs[i]);
      assert fs[..i + 1] == fs[..i] + [fs[i]];
      RecordAttrsAppend(fs[..i], [fs[i]]);
      attrs := attrs + more;
      i := i + 1;
    }
    assert fs[..i] == fs;
  }

  /** The attributes one field adds to the enclosing start tag. */
  method FieldAttributes(f: FieldValue) returns (attrs: seq<Attr>)
    ensures attrs == FieldAttrs(f)
    decreases f
  {
    attrs := [];
    var xs := f.items;
    match f.desc.role {
      case Attribute =>
        var name := f.desc.XmlName();
        var j := 0;
        while j < |xs|
          invariant 0 <= j <= |xs|
          invariant attrs == AttrItems(name, xs[..j])
        {
          assert xs[..j + 1] == xs[..j] + [xs[j]];
          AttrItemsAppend(name, xs[..j], [xs[j]]);
          attrs := attrs + [Attr(name, ScalarText(xs[j]))];
          j := j + 1;
        }
        assert xs[..j] == xs;
      case Flatten =>
        var j := 0;
        while j < |xs|
          invariant 0 <= j <= |xs|
          invariant attrs == FlatAttrs(xs[..j])
        {
          assert xs[..j + 1] == xs[..j] + [xs[j]];
          FlatAttrsAppend(xs[..j], [xs[j]]);
          if xs[j].Record? {
            var inner := Attributes(xs[j].fields);
            attrs := attrs + inner;
          }
          j := j + 1;
        }
        assert xs[..j] == xs;
      case _ =>
    }
  }

  /** A start event, the events of `children`, and the matching end event are the events of one element. */
  lemma Wrapped(e: seq<Event>, name: string, attrs: seq<Attr>, children: seq<Node>)
    ensures e + [StartElement(name, attrs)] + EventsOf(children) + [EndElement]
         == e + EventsOf([Element(name, attrs, children)])
  {
    EventsOfSingle(Element(name, attrs, children));
  }

  /** The derived `serialize` of a value written as the child element `name`. */
  method SerializeValue(w: Writer, name: string, x: Value)
    requires w.Valid() && WellFormed(x)
    modifies w
    ensures w.Valid() && w.open == old(w.open)
    ensures w.events == old(w.events) + EventsOf(ValueNodes(name, x))
    decreases x
  {
    ghost var e := w.events;
    match x {
      case Str(_) =>
        w.StartElement(name, []);
        w.Characters(ScalarText(x));
        w.EndElement();
        assert EventsOf([Text(ScalarText(x))]) == [Characters(ScalarText(x))];
        Wrapped(e, name, [], [Text(ScalarText(x))]);
      case Int(_) =>
        w.StartElement(name, []);
        w.Characters(ScalarText(x));
        w.EndElement();
        assert EventsOf([Text(ScalarText(x))]) == [Characters(ScalarText(x))];
        Wrapped(e, name, [], [Text(ScalarText(x))]);
      case Record(_, fs) =>
        var attrs := Attributes(fs);
        w.StartElement(name, attrs);
        SerializeFields(w, fs);
        w.EndElement();
        Wrapped(e, name, attrs, RecordBody(fs));
      case Enum(variant, data) =>
        w.StartElement(name, []);
        SerializeVariant(w, variant, data, false);
        w.EndElement();
        Wrapped(e, name, [], VariantNodes(variant, data, false));
      case Custom(h) =>
        match h {
          case DoubleDay(d) => SerializeDay(w, d);
          case Emits(ns) => SerializeNodes(w, ns);
        }
    }
  }

  /** The body of a record's element: each field in declared order. */
  method SerializeFields(w: Writer, fs: seq<FieldValue>)
    requires w.Valid() && forall f | f in fs :: FieldWellFormed(f)
    modifies w
    ensures w.Valid() && w.open == old(w.open)
    ensures w.events == old(w.events) + EventsOf(RecordBody(fs))
    decreases fs
  {
    ghost var e := w.events;
    var i := 0;
    while i < |fs|
      invariant 0 <= i <= |fs|
      invariant w.Valid() && w.open == old(w.open)
      invariant w.events == e + EventsOf(RecordBody(fs[..i]))
    {
      SerializeField(w, fs[i]);
      RecordBodyStep(e, fs, i);
      i := i + 1;
    }
    assert fs[..i] == fs;
  }

  /** One field: nothing for an attribute, text for the text field, one element per item, or the flattened content. */
  method SerializeField(w: Writer, f: FieldValue)
    requires w.Valid() && FieldWellFormed(f)
    modifies w
    ensures w.Valid() && w.open == old(w.open)
    ensures w.events == old(w.events) + EventsOf(FieldBody(f))
    decreases f
  {
    match f.desc.role {
      case Attribute =>
      case TextContent => SerializeTexts(w, f.items);
      case ChildElement => SerializeElements(w, f.desc.XmlName(), f.items);
      case Flatten => SerializeFlatItems(w, f.items);
    }
  }

  /** The items of the text field, written as text. */
  method SerializeTexts(w: Writer, xs: seq<Value>)
    requires w.Valid()
    modifies w
    ensures w.Valid() && w.open == old(w.open)
    ensures w.events == old(w.events) + EventsOf(TextItems(xs))
  {
    ghost var e := w.events;
    var j := 0;
    while j < |xs|
      invariant 0 <= j <= |xs|
      invariant w.Valid() && w.open == old(w.open)
      invariant w.events == e + EventsOf(TextItems(xs[..j]))
    {
      w.Characters(ScalarText(xs[j]));
      TextItemsStep(e, xs, j);
      j := j + 1;
    }
    assert xs[..j] == xs;
  }

  /** A `Vec` (or `Option`, or single value): each item in turn as a sibling element named `name`. */
  method SerializeElements(w: Writer, name: string, xs: seq<Value>)
    requires w.Valid() && forall x | x in xs :: WellFormed(x)
    modifies w
    ensures w.Valid() && w.open == old(w.open)
    ensures w.events == old(w.events) + EventsOf(ElementsNamed(name, xs))
    decreases xs
  {
    ghost var e := w.events;
    var j := 0;
    while j < |xs|
      invariant 0 <= j <= |xs|
      invariant w.Valid() && w.open == old(w.open)
      invariant w.events == e + EventsOf(ElementsNamed(name, xs[..j]))
    {
      SerializeValue(w, name, xs[j]);
      ElementsNamedStep(e, name, xs, j);
      j := j + 1;
    }
    assert xs[..j] == xs;
  }

  /** The items of a flattened field, each spliced in turn. */
  method SerializeFlatItems(w: Writer, xs: seq<Value>)
    requires w.Valid() && forall x | x in xs :: WellFormed(x)
    modifies w
    ensures w.Valid() && w.open == old(w.open)
    ensures w.events == old(w.events) + EventsOf(FlatBody(xs))
    decreases xs
  {
    ghost var e := w.events;
    var j := 0;
    while j < |xs|
      invariant 0 <= j <= |xs|
      invariant w.Valid() && w.open == old(w.open)
      invariant w.events == e + EventsOf(FlatBody(xs[..j]))
    {
      SerializeFlattened(w, xs[j]);
      FlatBodyStep(e, xs, j);
      j := j + 1;
    }
    assert xs[..j] == xs;
  }

  /** A flattened record writes its fields into the enclosing element; a flattened enum its active variant. */
  method SerializeFlattened(w: Writer, x: Value)
    requires w.Valid() && WellFormed(x)
    modifies w
    ensures w.Valid() && w.open == old(w.open)
    ensures w.events == old(w.events) + EventsOf(FlatNodes(x))
    decreases x
  {
    match x {
      case Record(_, fs) => SerializeFields(w, fs);
      case Enum(variant, data) => SerializeVariant(w, variant, data, true);
      case _ =>
    }
  }

  /** The active variant: its name as text, its one value, or one element per item. */
  method SerializeVariant(w: Writer, variant: VariantDesc, data: VariantData, flattened: bool)
    requires w.Valid() && WellFormed(Enum(variant, data))
    modifies w
    ensures w.Valid() && w.open == old(w.open)
    ensures w.events == old(w.events) + EventsOf(VariantNodes(variant, data, flattened))
    decreases data
  {
    match data {
      case NoData =>
        if !flattened {
          w.Characters(variant.XmlName());
          assert EventsOf([Text(variant.XmlName())]) == [Characters(variant.XmlName())];
        }
      case Data(x) => SerializeValue(w, variant.XmlName(), x);
      case DataSeq(xs) => SerializeElements(w, variant.XmlName(), xs);
    }
  }

  /**
   * The hand-written `Day::serialize`: a start tag `DoubleDay`, the doubled
   * value as text, the end tag, without looking at the field it sits in.
   */
  method SerializeDay(w: Writer, value: int)
    requires w.Valid() && HookWellFormed(DoubleDay(value))
    modifies w
    ensures w.Valid() && w.open == old(w.open)
    ensures w.events == old(w.events) + EventsOf(HookNodes(DoubleDay(value)))
  {
    ghost var e := w.events;
    w.StartElement("DoubleDay", []);
    w.Characters(Decimal.Render(value * 2));
    w.EndElement();
    assert EventsOf([Text(Decimal.Render(value * 2))]) == [Characters(Decimal.Render(value * 2))];
    Wrapped(e, "DoubleDay", [], [Text(Decimal.Render(value * 2))]);
  }

  /** A hand-written `serialize` that writes a fixed run of nodes: each node's events, in order. */
  method SerializeNodes(w: Writer, ns: seq<Node>)
    requires w.Valid()
    modifies w
    ensures w.Valid() && w.open == old(w.open)
    ensures w.events == old(w.events) + EventsOf(ns)
    decreases ns
  {
    ghost var e := w.events;
    var i := 0;
    while i < |ns|
      invariant 0 <= i <= |ns|
      invariant w.Valid() && w.open == old(w.open)
      invariant w.events == e + EventsOf(ns[..i])
    {
      SerializeNode(w, ns[i]);
      NodesStep(e, ns, i);
      i := i + 1;
    }
    assert ns[..i] == ns;
  }

  /** One node: a characters event, or a start event, the children and the matching end event. */
  method SerializeNode(w: Writer, n: Node)
    requires w.Valid()
    modifies w
    ensures w.Valid() && w.open == old(w.open)
    ensures w.events == old(w.events) + Events(n)
    decreases n
  {
    ghost var e := w.events;
    match n {
      case Text(t) =>
        w.Characters(t);
      case Element(name, attrs, children) =>
        w.StartElement(name, attrs);
        SerializeNodes(w, children);
        w.EndElement();
        Wrapped(e, name, attrs, children);
        EventsOfSingle(n);
    }
  }

  /** `yaserde::ser::to_string` on a record: a fresh writer, the root element under its document name, the text. */
  method ToString(root: Value) returns (xml: string)
    requires root.Record? && WellFormed(root)
    ensures xml == Document(root)
  {
    var w := new Writer();
    SerializeValue(w, root.ty.ElementName(), root);
    assert ValueNodes(root.ty.ElementName(), root) == [RootNode(root)];
    EventsOfSingle(RootNode(root));
    assert w.events == Events(RootNode(root));
    EmitDocument(RootNode(root));
    xml := w.out;
  }
}
