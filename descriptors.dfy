/**
 * What the `YaSerialize` derive reads off an annotated Rust type, and the
 * values the serializer walks.
 *
 * A record value carries, for each declared field in declared order, the
 * field's descriptor (resolved name, role, multiplicity) next to its items.
 * A field of type `T` has exactly one item, an `Option<T>` none or one, a
 * `Vec<T>` any number, in order.
 */
module Descriptors {
  import opened Strings
  import Decimal
  import Xml

  /** Where a field goes: `#[yaserde(attribute)]`, a child element (no annotation), `#[yaserde(text)]`, `#[yaserde(flatten)]`. */
  datatype Role = Attribute | ChildElement | TextContent | Flatten

  /** The field's Rust type shape: `T`, `Option<T>` or `Vec<T>`. */
  datatype Multiplicity = Single | Optional | Sequence

  /** One declared field: its Rust name, its `rename`, its role and multiplicity. */
  datatype FieldDesc = FieldDesc(name: string, rename: Option<string>, role: Role, multiplicity: Multiplicity)
  {
    /** The name the field is written under: the `rename` when given, else the field name. */
    function XmlName(): string
    {
      if rename.Some? then rename.value else name
    }
  }

  /** A record type: its Rust name and its `root` annotation. */
  datatype TypeDesc = TypeDesc(name: string, root: Option<string>)
  {
    /** The document element name: the `root` when given, else the type name. */
    function ElementName(): string
    {
      if root.Some? then root.value else name
    }
  }

  /** One variant of an enum: its Rust name and its `rename`. */
  datatype VariantDesc = VariantDesc(name: string, rename: Option<string>)
  {
    function XmlName(): string
    {
      if rename.Some? then rename.value else name
    }
  }

  /** What the active variant carries: nothing (`Working`), one value, or a `Vec` (`Holidays(Vec<String>)`). */
  datatype VariantData = NoData | Data(value: Value) | DataSeq(values: seq<Value>)

  /**
   * Types that implement `YaSerialize` by hand instead of deriving it: the
   * `Day` impl of the custom test, which doubles its value, or any impl that
   * writes a fixed run of well-nested elements and text.
   */
  datatype Hook = DoubleDay(value: int) | Emits(nodes: seq<Xml.Node>)

  /** A value the serializer can be asked to write. */
  datatype Value =
    | Str(s: string)
    | Int(i: int)
    | Record(ty: TypeDesc, fields: seq<FieldValue>)
    | Enum(variant: VariantDesc, data: VariantData)
    | Custom(hook: Hook)

  /** A declared field of a record value together with its items. */
  datatype FieldValue = FieldValue(desc: FieldDesc, items: seq<Value>)

  // ---------------------------------------------------------------------
  // Well-formed descriptors: what the derive accepts at build time
  // ---------------------------------------------------------------------

  /** Values that have a single text form: strings, `i32`s and enum variants without data or with one such value. */
  predicate Scalar(v: Value)
  {
    match v
    case Str(_) => true
    case Int(i) => Decimal.IsI32(i)
    case Enum(_, data) =>
      (match data
       case NoData => true
       case Data(x) => Scalar(x)
       case DataSeq(_) => false)
    case _ => false
  }

  predicate CountFits(m: Multiplicity, n: nat)
  {
    match m
    case Single => n == 1
    case Optional => n <= 1
    case Sequence => true
  }

  /** The hand-written `Day::serialize` doubles an `i32`, which a debug build refuses to overflow. */
  predicate HookWellFormed(h: Hook)
  {
    match h
    case DoubleDay(d) => Decimal.IsI32(d) && Decimal.IsI32(2 * d)
    case Emits(_) => true
  }

  ghost predicate WellFormed(v: Value)
    decreases v
  {
    match v
    case Str(_) => true
    case Int(i) => Decimal.IsI32(i)
    case Record(_, fields) =>
      && (forall f | f in fields :: FieldWellFormed(f))
      && (forall j, k | 0 <= j < k < |fields| ::
            fields[j].desc.role == TextContent ==> fields[k].desc.role != TextContent)
    case Enum(_, data) =>
      (match data
       case NoData => true
       case Data(x) => WellFormed(x)
       case DataSeq(xs) => forall x | x in xs :: WellFormed(x))
    case Custom(h) => HookWellFormed(h)
  }

  /**
   * Attributes and text hold one scalar at most; flatten applies to a record
   * or an enum, optionally wrapped in `Option`; an element field takes any value.
   */
  ghost predicate FieldWellFormed(f: FieldValue)
    decreases f
  {
    && CountFits(f.desc.multiplicity, |f.items|)
    && (forall x | x in f.items :: WellFormed(x))
    && match f.desc.role
       case Attribute => f.desc.multiplicity != Sequence && forall x | x in f.items :: Scalar(x)
       case TextContent => f.desc.multiplicity != Sequence && forall x | x in f.items :: Scalar(x)
       case Flatten => f.desc.multiplicity != Sequence && forall x | x in f.items :: x.Record? || x.Enum?
       case ChildElement => true
  }
}
