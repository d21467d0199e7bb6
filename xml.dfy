/**
 * The XML layer underneath the serializer: the event stream the serializer
 * writes, the compact text an xml-rs style emitter produces from it, and a
 * tree view of the same document that states what that text must be.
 *
 * The emitter writes `<name attr="v"` for a start event and decides only at
 * the next event whether to finish it with `>` (something follows inside) or,
 * at the matching end event, with ` />` (nothing was written inside).
 */
module Xml {
  import opened Strings

  /** One attribute of a start tag; the value is written as given. */
  datatype Attr = Attr(name: string, value: string)

  /** A finished document fragment: an element or a run of text. */
  datatype Node =
    | Element(name: string, attrs: seq<Attr>, children: seq<Node>)
    | Text(content: string)

  /** What the serializer hands to the sink, in order. */
  datatype Event =
    | StartElement(name: string, attrs: seq<Attr>)
    | Characters(text: string)
    | EndElement

  /** The declaration every document starts with, verbatim. */
  const Declaration: string := "<?xml version=\"1.0\" encoding=\"utf-8\"?>"

  // ---------------------------------------------------------------------
  // Reference rendering of a tree, as a list of lexical pieces
  // ---------------------------------------------------------------------

  function AttrTokens(attrs: seq<Attr>): seq<string>
  {
    if attrs == [] then []
    else [" ", attrs[0].name, "=\"", attrs[0].value, "\""] + AttrTokens(attrs[1..])
  }

  /** The pieces of the compact text of `n`: an element without children is self-closing. */
  function Tokens(n: Node): seq<string>
  {
    match n
    case Text(t) => [t]
    case Element(name, attrs, children) =>
      ["<", name] + AttrTokens(attrs)
      + (if children == [] then [" />"] else [">"] + TokensOf(children) + ["</", name, ">"])
  }

  function TokensOf(ns: seq<Node>): seq<string>
  {
    if ns == [] then [] else Tokens(ns[0]) + TokensOf(ns[1..])
  }

  /** The compact text of a node. */
  function Markup(n: Node): string
  {
    Concat(Tokens(n))
  }

  /** The compact text of a run of sibling nodes. */
  function MarkupOf(ns: seq<Node>): string
  {
    Concat(TokensOf(ns))
  }

  /** The text of the start tag up to, but not including, its closing `>` or ` />`. */
  function OpenTag(name: string, attrs: seq<Attr>): string
  {
    Concat(["<", name] + AttrTokens(attrs))
  }

  /** A start tag is `<`, the name, then each attribute as ` name="value"`. */
  lemma OpenTagShape(name: string, attrs: seq<Attr>)
    ensures OpenTag(name, attrs) == "<" + name + Concat(AttrTokens(attrs))
    ensures attrs == [] ==> OpenTag(name, attrs) == "<" + name
  {
    var ts := ["<", name] + AttrTokens(attrs);
    assert ts[1..] == [name] + AttrTokens(attrs);
    assert ts[1..][1..] == AttrTokens(attrs);
    assert Concat(ts) == "<" + (name + Concat(AttrTokens(attrs)));
    AppendAssoc("<", name, Concat(AttrTokens(attrs)));
  }

  /** The text of an element starts with `<` and its name. */
  lemma MarkupStartsWithName(name: string, attrs: seq<Attr>, children: seq<Node>)
    ensures Markup(Element(name, attrs, children)) == "<" + name + Concat(Tokens(Element(name, attrs, children))[2..])
  {
    var ts := Tokens(Element(name, attrs, children));
    assert ts[0] == "<" && ts[1] == name && ts[1..][1..] == ts[2..];
    var r := Concat(ts[2..]);
    assert Concat(ts) == "<" + (name + r);
    AppendAssoc("<", name, r);
  }

  lemma {:induction false} TokensOfAppend(a: seq<Node>, b: seq<Node>)
    ensures TokensOf(a + b) == TokensOf(a) + TokensOf(b)
  {
    if a != [] {
      assert (a + b)[1..] == a[1..] + b;
      TokensOfAppend(a[1..], b);
    } else {
      assert a + b == b;
    }
  }

  /** The two shapes of an element's text: self-closing exactly when it has no children. */
  lemma ElementMarkup(name: string, attrs: seq<Attr>, children: seq<Node>)
    ensures children == [] ==> Markup(Element(name, attrs, children)) == OpenTag(name, attrs) + " />"
    ensures children != [] ==>
      Markup(Element(name, attrs, children))
      == OpenTag(name, attrs) + ">" + MarkupOf(children) + "</" + name + ">"
  {
    var open := ["<", name] + AttrTokens(attrs);
    if children == [] {
      ConcatAppend(open, [" />"]);
      ConcatSingle(" />");
    } else {
      var close: seq<string> := ["</", name, ">"];
      assert Tokens(Element(name, attrs, children)) == open + ([">"] + TokensOf(children) + close);
      ConcatAppend(open, [">"] + TokensOf(children) + close);
      ConcatAppend([">"] + TokensOf(children), close);
      ConcatAppend([">"], TokensOf(children));
      ConcatSingle(">");
      assert close[1..] == [name, ">"] && close[1..][1..] == [">"];
      ConcatSingle(">");
      assert Concat(close) == "</" + name + ">";
    }
  }

  // ---------------------------------------------------------------------
  // Events of a tree
  // ---------------------------------------------------------------------

  function Events(n: Node): seq<Event>
  {
    match n
    case Text(t) => [Characters(t)]
    case Element(name, attrs, children) => [StartElement(name, attrs)] + EventsOf(children) + [EndElement]
  }

  function EventsOf(ns: seq<Node>): seq<Event>
  {
    if ns == [] then [] else Events(ns[0]) + EventsOf(ns[1..])
  }

  lemma {:induction false} EventsOfAppend(a: seq<Node>, b: seq<Node>)
    ensures EventsOf(a + b) == EventsOf(a) + EventsOf(b)
  {
    if a != [] {
      assert (a + b)[1..] == a[1..] + b;
      EventsOfAppend(a[1..], b);
    } else {
      assert a + b == b;
    }
  }

  lemma EventsOfSingle(n: Node)
    ensures EventsOf([n]) == Events(n)
  {
    assert [n][1..] == [];
  }

  // ---------------------------------------------------------------------
  // The streaming emitter
  // ---------------------------------------------------------------------

  /** Text written so far, names of the elements still open, and whether a start tag awaits its `>`. */
  datatype Emitter = Emitter(out: string, open: seq<string>, pending: bool)

  /** The emitter before the first event: the declaration is already in the buffer. */
  function Initial(): Emitter
  {
    Emitter(Declaration, [], false)
  }

  /** Finish a pending start tag with `>`. */
  function Flush(e: Emitter): Emitter
  {
    if e.pending then Emitter(e.out + ">", e.open, false) else e
  }

  /** The effect of one event; an end event needs an open element to close. */
  function Step(e: Emitter, ev: Event): Emitter
    requires ev.EndElement? ==> e.open != []
  {
    match ev
    case StartElement(name, attrs) =>
      var f := Flush(e);
      Emitter(f.out + OpenTag(name, attrs), f.open + [name], true)
    case Characters(t) =>
      var f := Flush(e);
      Emitter(f.out + t, f.open, false)
    case EndElement =>
      var name := e.open[|e.open| - 1];
      Emitter(if e.pending then e.out + " />" else e.out + "</" + name + ">",
              e.open[..|e.open| - 1], false)
  }

  /** No end event in `evs` closes more elements than are open, starting `depth` deep. */
  predicate Fits(depth: nat, evs: seq<Event>)
    decreases evs
  {
    evs == [] ||
    match evs[0]
    case StartElement(_, _) => Fits(depth + 1, evs[1..])
    case Characters(_) => Fits(depth, evs[1..])
    case EndElement => depth > 0 && Fits(depth - 1, evs[1..])
  }

  function Emit(e: Emitter, evs: seq<Event>): Emitter
    requires Fits(|e.open|, evs)
    decreases evs
  {
    if evs == [] then e else Emit(Step(e, evs[0]), evs[1..])
  }

  lemma {:induction false} EmitAppend(e: Emitter, a: seq<Event>, b: seq<Event>)
    requires Fits(|e.open|, a)
    ensures Fits(|e.open|, a + b) <==> Fits(|Emit(e, a).open|, b)
    ensures Fits(|e.open|, a + b) ==> Emit(e, a + b) == Emit(Emit(e, a), b)
    decreases a
  {
    if a == [] {
      assert a + b == b;
    } else {
      assert (a + b)[0] == a[0] && (a + b)[1..] == a[1..] + b;
      EmitAppend(Step(e, a[0]), a[1..], b);
    }
  }

  /**
   * Streaming a tree's events reproduces the tree's compact text: the emitter's
   * late choice between `>` and ` />` agrees with "self-closing iff no children".
   */
  lemma {:induction false} EmitNode(e: Emitter, n: Node)
    ensures Fits(|e.open|, Events(n))
    ensures Emit(e, Events(n)) == Emitter(Flush(e).out + Markup(n), e.open, false)
    decreases n
  {
    match n
    case Text(t) =>
      ConcatSingle(t);
    case Element(name, attrs, children) =>
      EmitNodes(Step(e, StartElement(name, attrs)), children);
      EmitElement(e, name, attrs, children);
  }

  /** The element case of EmitNode, given what its children's events do. */
  lemma EmitElement(e: Emitter, name: string, attrs: seq<Attr>, children: seq<Node>)
    requires Fits(|e.open| + 1, EventsOf(children))
    requires var e1 := Step(e, StartElement(name, attrs));
      && (children == [] ==> Emit(e1, EventsOf(children)) == e1)
      && (children != [] ==> Emit(e1, EventsOf(children)) == Emitter(Flush(e1).out + MarkupOf(children), e1.open, false))
    ensures Fits(|e.open|, Events(Element(name, attrs, children)))
    ensures Emit(e, Events(Element(name, attrs, children)))
         == Emitter(Flush(e).out + Markup(Element(name, attrs, children)), e.open, false)
  {
    var start := StartElement(name, attrs);
    var e1 := Step(e, start);
    var e2 := Emit(e1, EventsOf(children));
    assert e2.open == e.open + [name];
    EmitWrapped(e, start, EventsOf(children));
    var e3 := Step(e2, EndElement);
    assert e3.open == e.open by {
      assert (e.open + [name])[..|e.open|] == e.open;
    }
    var f := Flush(e).out;
    assert e1.out == f + OpenTag(name, attrs) && e1.pending;
    ElementOut(f, name, attrs, children);
    if children == [] {
      assert e3.out == f + OpenTag(name, attrs) + " />";
    } else {
      assert e2.out == f + OpenTag(name, attrs) + ">" + MarkupOf(children) && !e2.pending;
      assert e3.out == e2.out + "</" + name + ">";
    }
  }

  /** The text an element adds after `f`, in the order the emitter writes it. */
  lemma ElementOut(f: string, name: string, attrs: seq<Attr>, children: seq<Node>)
    ensures children == [] ==> f + OpenTag(name, attrs) + " />" == f + Markup(Element(name, attrs, children))
    ensures children != [] ==>
      f + OpenTag(name, attrs) + ">" + MarkupOf(children) + "</" + name + ">"
      == f + Markup(Element(name, attrs, children))
  {
    ElementMarkup(name, attrs, children);
  }

  /** Events bracketed by a start event and the end event that closes it. */
  lemma EmitWrapped(e: Emitter, start: Event, middle: seq<Event>)
    requires start.StartElement?
    requires Fits(|e.open| + 1, middle)
    requires |Emit(Step(e, start), middle).open| == |e.open| + 1
    ensures Fits(|e.open|, [start] + middle + [EndElement])
    ensures Emit(e, [start] + middle + [EndElement]) == Step(Emit(Step(e, start), middle), EndElement)
  {
    var e1 := Step(e, start);
    assert Emit(e, [start]) == e1;
    assert Fits(|e.open|, [start]);
    EmitAppend(e, [start], middle);
    var e2 := Emit(e1, middle);
    assert Fits(|e2.open|, [EndElement]);
    EmitAppend(e, [start] + middle, [EndElement]);
  }

  lemma {:induction false} EmitNodes(e: Emitter, ns: seq<Node>)
    ensures Fits(|e.open|, EventsOf(ns))
    ensures ns == [] ==> Emit(e, EventsOf(ns)) == e
    ensures ns != [] ==> Emit(e, EventsOf(ns)) == Emitter(Flush(e).out + MarkupOf(ns), e.open, false)
    decreases ns
  {
    if ns != [] {
      EmitNode(e, ns[0]);
      var e1 := Emit(e, Events(ns[0]));
      EmitNodes(e1, ns[1..]);
      assert EventsOf(ns) == Events(ns[0]) + EventsOf(ns[1..]);
      EmitAppend(e, Events(ns[0]), EventsOf(ns[1..]));
      assert TokensOf(ns) == Tokens(ns[0]) + TokensOf(ns[1..]);
      ConcatAppend(Tokens(ns[0]), TokensOf(ns[1..]));
      assert MarkupOf(ns) == Markup(ns[0]) + MarkupOf(ns[1..]);
      if ns[1..] == [] {
        assert MarkupOf(ns) == Markup(ns[0]) + "";
      } else {
        AppendAssoc(Flush(e).out, Markup(ns[0]), MarkupOf(ns[1..]));
      }
    }
  }

  /** A whole document: the declaration followed directly by the root element's text. */
  lemma EmitDocument(root: Node)
    ensures Fits(0, Events(root))
    ensures Emit(Initial(), Events(root)).out == Declaration + Markup(root)
    ensures Emit(Initial(), Events(root)).open == []
  {
    EmitNode(Initial(), root);
  }

  // ---------------------------------------------------------------------
  // The sink: an emitter object that the serializer drives event by event
  // ---------------------------------------------------------------------

  class Writer {
    /** The text written so far. */
    var out: string
    /** Names of the elements opened and not yet closed, outermost first. */
    var open: seq<string>
    /** Whether the last start tag still awaits its `>` or ` />`. */
    var pending: bool
    /** Every event received so far. */
    ghost var events: seq<Event>

    ghost predicate Valid()
      reads this
    {
      Fits(0, events) && Emit(Initial(), events) == Emitter(out, open, pending)
    }

    constructor ()
      ensures Valid() && events == [] && open == [] && out == Declaration
    {
      out, open, pending := Declaration, [], false;
      events := [];
    }

    method StartElement(name: string, attrs: seq<Attr>)
      requires Valid()
      modifies this
      ensures Valid()
      ensures events == old(events) + [Event.StartElement(name, attrs)]
      ensures open == old(open) + [name] && pending
      ensures out == old(if pending then out + ">" else out) + OpenTag(name, attrs)
    {
      ghost var ev := Event.StartElement(name, attrs);
      EmitAppend(Initial(), events, [ev]);
      if pending {
        out := out + ">";
      }
      out := out + OpenTag(name, attrs);
      open := open + [name];
      pending := true;
      events := events + [ev];
    }

    method Characters(text: string)
      requires Valid()
      modifies this
      ensures Valid()
      ensures events == old(events) + [Event.Characters(text)]
      ensures open == old(open) && !pending
      ensures out == old(if pending then out + ">" else out) + text
    {
      ghost var ev := Event.Characters(text);
      EmitAppend(Initial(), events, [ev]);
      if pending {
        out := out + ">";
      }
      out := out + text;
      pending := false;
      events := events + [ev];
    }

    method EndElement()
      requires Valid() && open != []
      modifies this
      ensures Valid()
      ensures events == old(events) + [Event.EndElement]
      ensures open == old(open[..|open| - 1]) && !pending
      ensures out == old(if pending then out + " />" else out + "</" + open[|open| - 1] + ">")
    {
      ghost var ev := Event.EndElement;
      EmitAppend(Initial(), events, [ev]);
      if pending {
        out := out + " />";
      } else {
        out := out + "</" + open[|open| - 1] + ">";
      }
      open := open[..|open| - 1];
      pending := false;
      events := events + [ev];
    }
  }
}
