# yaserde serializer, as its tests exercise it

This project models how yaserde writes a Rust value as XML. It is the
behaviour the serializer tests check: `yaserde::ser::to_string` applied to
structs and enums annotated with `#[yaserde(...)]`. The expected documents
there are compared after a whitespace normalisation, and that is modelled
too.

The model has five parts:

- **Descriptors** (`descriptors.dfy`) record what the derive reads off a type:
  - the type name and its `root` annotation;
  - per field, its name, its `rename`, its role and whether it is `T`, `Option<T>` or `Vec<T>`;
  - per enum variant, its name and `rename`.

  A value carries these descriptors next to its data. A hand-written
  `YaSerialize` impl is a `Custom` value holding a `Hook`. `DoubleDay` is the
  impl of `Day`, and `Emits` is any impl that writes a fixed run of elements
  and text.
- **The XML sink** (`xml.dfy`) is the event writer, modelled as a class.
  - `Writer` holds the text written so far, the stack of open elements and
    whether the last start tag is still unclosed.
  - It starts with the XML declaration already written.
  - `StartElement`, `Characters` and `EndElement` append to the text.
  - An element that receives no child is closed as `<name ... />`.
  - The ghost `events` log and `Valid()` tie the text to the events received.
  - `EmitDocument` says what a finished document reads: the declaration,
    then the markup of the root node.
- **The walk** (`serializer.dfy`) is what the derived `serialize` methods do.
  - The walk is a set of mutually recursive methods that drive a `Writer`,
    visiting fields in declared order.
  - Each method is proved to send exactly the events of a tree given by
    spec functions: `RecordAttrs`, `RecordBody`, `ValueNodes`, `FlatNodes`,
    `VariantNodes` and `HookNodes`.
  - `ToString` returns `Document(root)`.
- **Normalisation** (`normalization.dfy`) models `convert_and_validate!`:
  - split at `'\n'`;
  - `trim` each piece, using Unicode whitespace as `char::is_whitespace` does;
  - concatenate the pieces.
- **Scenarios** (`tests.dfy`) give each test's model value and expected
  content. The lemma for each test proves two facts:
  - the value is well formed: it has the shapes its declared Rust types give
    it (`T`, `Option<T>`, `Vec<T>`, `i32`), and the `Day` hook's doubled
    value fits `i32`;
  - its `Document` equals the normalised expected content.

`properties.dfy` states the general rules that the tests illustrate, over all
values:

- document framing;
- `Vec` siblings;
- attribute order;
- omitted `None`;
- renames;
- text content;
- the custom hook;
- flattening.

## Model

| member | source | states |
|---|---|---|
| Normalization.AsciiWhitespace | yaserde/tests/serializer.rs:16 | `IsWhitespace` (Rust's `char::is_whitespace`) holds for space, tab, line feed and carriage return and fails for every visible ASCII character |
| Normalization.LeadingBlanks | yaserde/tests/serializer.rs:16 | the count of leading whitespace: everything before it is whitespace and the character at it is not |
| Normalization.TrailingStart | yaserde/tests/serializer.rs:16 | where trailing whitespace begins: everything from it on is whitespace and the character before it is not |
| Normalization.TrimStart | yaserde/tests/serializer.rs:16 | result is a suffix of the input; everything cut is whitespace; the result does not start with whitespace |
| Normalization.TrimEnd | yaserde/tests/serializer.rs:16 | result is a prefix of the input; everything cut is whitespace; the result does not end with whitespace |
| Normalization.Trim | yaserde/tests/serializer.rs:16 | `trim` leaves a string that neither starts nor ends with whitespace |
| Normalization.TrimIsSlice | yaserde/tests/serializer.rs:16 | `trim` returns a contiguous slice of its input, and only whitespace lies before and after that slice |
| Normalization.TrimIsUnpadded | yaserde/tests/serializer.rs:16 | trimming the start and then the end leaves no surrounding whitespace |
| Normalization.TrimUnpadded | yaserde/tests/serializer.rs:16 | `trim` is the identity on a string without surrounding whitespace |
| Normalization.TrimBlank | yaserde/tests/serializer.rs:16 | an all-whitespace line trims to the empty string |
| Normalization.TrimIndented | yaserde/tests/serializer.rs:16 | trimming indentation plus content plus trailing blanks gives back exactly the content |
| Normalization.TrimStartPrefix | yaserde/tests/serializer.rs:16 | `trim_start` strips exactly the whitespace in front of a non-blank start |
| Normalization.TrimEndSuffix | yaserde/tests/serializer.rs:16 | `trim_end` strips exactly the whitespace behind a non-blank end |
| Normalization.SplitOneLine | yaserde/tests/serializer.rs:15 | `SplitLines` (`split("\n")`) of a string without a line feed is that string alone |
| Normalization.SplitLinesHaveNoLineFeed | yaserde/tests/serializer.rs:15 | no piece of `split("\n")` contains a line feed |
| Normalization.JoinSplit | yaserde/tests/serializer.rs:15 | re-inserting a line feed between the pieces of `split("\n")` gives back the input |
| Normalization.SplitJoin | yaserde/tests/serializer.rs:15 | splitting lines joined by line feeds gives back those lines, when none contains a line feed |
| Normalization.Indented | yaserde/tests/serializer.rs:166-169 | each line of an indented raw-string literal is its indentation followed by its text |
| Normalization.NormalizeOneLine | yaserde/tests/serializer.rs:14-17 | `Normalize` of a one-line expectation is that line trimmed |
| Normalization.NormalizeShape | yaserde/tests/serializer.rs:14-17 | the normalised expectation has no line feed and no surrounding whitespace |
| Normalization.NormalizeFixedPoint | yaserde/tests/serializer.rs:14-17 | a one-line expectation without surrounding whitespace is compared as written |
| Normalization.NormalizeIdempotent | yaserde/tests/serializer.rs:14-17 | normalising twice is normalising once |
| Normalization.NormalizeLines | yaserde/tests/serializer.rs:14-17 | normalising lines joined by line feeds concatenates the trimmed lines |
| Normalization.TrimIndentedLines | yaserde/tests/serializer.rs:16-17 | trimmed indented lines concatenate to the bare texts |
| Normalization.NormalizeIndented | yaserde/tests/serializer.rs:14-17 | a raw-string expectation with blank indentation normalises to its lines' texts glued together |
| Decimal.DigitChar | yaserde/tests/serializer.rs:317 | one base-10 digit character with the given value |
| Decimal.Digits | yaserde/tests/serializer.rs:317 | the text of a natural is non-empty, all digits, with no leading zero |
| Decimal.RenderShape | yaserde/tests/serializer.rs:317 | `Render` (`to_string` on an integer) is non-empty, starts with `-` exactly for a negative value, and is digits otherwise |
| Decimal.DigitsValueOfDigits | yaserde/tests/serializer.rs:317 | reading the digits back gives the number |
| Decimal.ParseRender | yaserde/tests/serializer.rs:317 | the text `to_string` gives an integer reads back as that integer |
| Xml.Writer.constructor | yaserde/tests/serializer.rs:10 | a new writer has the declaration written, nothing open and no events |
| Xml.Writer.StartElement | yaserde/tests/serializer.rs:315 | closes a pending start tag with `>`, writes `<name` and the attributes, and pushes the name |
| Xml.Writer.Characters | yaserde/tests/serializer.rs:316-318 | closes a pending start tag with `>`, then writes the text |
| Xml.Writer.EndElement | yaserde/tests/serializer.rs:319 | writes ` />` when the element got no child, else `</name>` for the innermost open name, and pops it |
| Xml.OpenTagShape | yaserde/tests/serializer.rs:120 | a start tag is `<`, the name, then ` name="value"` for each attribute in order |
| Xml.ElementMarkup | yaserde/tests/serializer.rs:120 | an element without children self-closes; otherwise its markup is start tag, `>`, the children, then the end tag |
| Xml.EmitAppend | yaserde/tests/serializer.rs:10 | `Emit`, which applies `Step` once per event, turns two event runs written in turn into the same text and state as their concatenation |
| Xml.EmitNode | yaserde/tests/serializer.rs:10 | `Emit` of the events of any node: they are balanced; writing them appends exactly that node's markup and leaves the stack as it was |
| Xml.EmitNodes | yaserde/tests/serializer.rs:10 | the same for a sequence of sibling nodes |
| Xml.EmitDocument | yaserde/tests/serializer.rs:10 | a fresh writer fed a root node's events holds the declaration followed by that node's markup, with nothing open |
| Serializer.Attributes | yaserde/tests/serializer.rs:83-89 | the attributes collected for a start tag, field by field in declared order, are `RecordAttrs` |
| Serializer.FieldAttributes | yaserde/tests/serializer.rs:146-149 | one field's attributes: one per present item of an attribute field; a flattened record's own attributes; none otherwise |
| Serializer.SerializeValue | yaserde/tests/serializer.rs:54-64 | writes exactly the events of the value as a child element under the given name (a custom hook: the hook's events) and leaves the stack as it was |
| Serializer.SerializeFields | yaserde/tests/serializer.rs:184-195 | writes the events of every field's children, in declared order |
| Serializer.SerializeField | yaserde/tests/serializer.rs:233-249 | writes the events of one field's children according to its role |
| Serializer.SerializeTexts | yaserde/tests/serializer.rs:247-248 | writes one text event per present item of a text field |
| Serializer.SerializeElements | yaserde/tests/serializer.rs:41-52 | writes one element per item, all under the same name, with no wrapper |
| Serializer.SerializeFlatItems | yaserde/tests/serializer.rs:349-352 | writes the flattened content of each present item, in order |
| Serializer.SerializeFlattened | yaserde/tests/serializer.rs:335-342 | a flattened record writes its fields' children and a flattened enum writes its active variant's content, with no element of their own |
| Serializer.SerializeVariant | yaserde/tests/serializer.rs:366-372 | writes the active variant: its resolved name as text (nothing when flattened), or its data under the resolved name |
| Serializer.SerializeDay | yaserde/tests/serializer.rs:313-322 | writes `DoubleDay` with twice the value as text, whatever field it sits in |
| Serializer.SerializeNodes | yaserde/tests/serializer.rs:313-322 | a hand-written `serialize` that writes a fixed run of nodes sends exactly those nodes' events, in order, and leaves the stack as it was |
| Serializer.SerializeNode | yaserde/tests/serializer.rs:313-322 | one such node: a text event, or its start event, its children's events and its end event |
| Serializer.RecordAttrsAppend | yaserde/tests/serializer.rs:144-150 | `RecordAttrs` of two field lists in turn is the first list's attributes followed by the second's |
| Serializer.RecordBodyAppend | yaserde/tests/serializer.rs:184-195 | `RecordBody` of two field lists in turn is the first list's children followed by the second's |
| Serializer.ToString | yaserde/tests/serializer.rs:10 | `to_string` of a well-formed record returns `Document(root)`: the declaration followed by the root element's markup |
| SerializerProperties.ScalarTextOfInt | yaserde/tests/serializer.rs:300-303 | `ScalarText` of an integer reads back as that integer |
| SerializerProperties.ValueNodesShape | yaserde/tests/serializer.rs:54-78 | `ValueNodes` of any value other than a hook is one element, named by the field it sits in |
| SerializerProperties.DocumentFraming | yaserde/tests/serializer.rs:26-35 | `Document` (with `TypeDesc.ElementName`) starts with the declaration and `<` followed by the `root` name if given, else the type name |
| SerializerProperties.DocumentClosing | yaserde/tests/serializer.rs:161-170 | `Document` ends with ` />` when the root has no children, else with `</name>` |
| SerializerProperties.FieldAtPosition | yaserde/tests/serializer.rs:184-195 | field i's attributes and children sit between those of the fields before it and those after it |
| SerializerProperties.AbsentFieldOmitted | yaserde/tests/serializer.rs:161-170 | a `None` field contributes nothing, so the record renders as if the field were absent |
| SerializerProperties.AbsentField | yaserde/tests/serializer.rs:163-164 | a field with no item has no attributes and no children |
| SerializerProperties.NothingPresent | yaserde/tests/serializer.rs:161-170 | a record whose fields are all empty has no attributes and no body |
| SerializerProperties.AllAbsentRendersBare | yaserde/tests/serializer.rs:161-170 | such a record's document is the declaration and `<Name />` |
| SerializerProperties.ElementsNamedShape | yaserde/tests/serializer.rs:39-52 | a `Vec` of k items gives exactly k sibling elements, the j-th under the field name holding the j-th item |
| SerializerProperties.NestedRecordNamedByField | yaserde/tests/serializer.rs:54-78 | a record inside a field is an element named by the field, whatever its own type or `root` name |
| SerializerProperties.AttrItemsShape | yaserde/tests/serializer.rs:146-149 | an attribute field gives one attribute per item, named by the field, valued by the item's text |
| SerializerProperties.AttributeField | yaserde/tests/serializer.rs:86-87 | an attribute field adds no children and one attribute per present item |
| SerializerProperties.AttributesInDeclaredOrder | yaserde/tests/serializer.rs:144-150 | with single-valued attribute fields, the start tag's k-th attribute is the k-th field's |
| SerializerProperties.OnlyAttributesNoBody | yaserde/tests/serializer.rs:91-96 | a record of attribute fields only has no children |
| SerializerProperties.AttributesOnlySelfCloses | yaserde/tests/serializer.rs:113-120 | such a record renders as one self-closing tag carrying its attributes |
| SerializerProperties.UnitVariantAttribute | yaserde/tests/serializer.rs:129-135 | a `Some` unit-enum attribute is written as the variant's resolved name (`VariantDesc.XmlName`: the `rename` if given) |
| SerializerProperties.RenameWins | yaserde/tests/serializer.rs:189-194 | `FieldDesc.XmlName`: with a `rename`, the Rust field name has no effect, and the attribute carries the renamed name verbatim |
| SerializerProperties.PlainFieldNamedAsDeclared | yaserde/tests/serializer.rs:280-293 | `FieldDesc.XmlName` without a `rename`: an unrenamed string field is an element named by its Rust name, `name` included |
| SerializerProperties.TextItemsShape | yaserde/tests/serializer.rs:247-248 | a text field gives one text node per item |
| SerializerProperties.TextField | yaserde/tests/serializer.rs:247-248 | a text field adds no attributes, and its children are the items' texts |
| SerializerProperties.AttributesAndText | yaserde/tests/serializer.rs:242-276 | attributes plus one text field render as `<name attrs>text</name>` |
| SerializerProperties.CustomHookReplacesField | yaserde/tests/serializer.rs:304-305 | a field holding a custom value contributes exactly `HookNodes`, what the hook writes, ignoring the field's name |
| SerializerProperties.DoubleDayMarkup | yaserde/tests/serializer.rs:313-322 | the hook writes `<DoubleDay>`, the text of twice the value, `</DoubleDay>`; that text reads back as twice the value |
| SerializerProperties.FlattenRecordInlines | yaserde/tests/serializer.rs:335-342 | a flattened record field renders as if its fields were spliced into the enclosing record at that position |
| SerializerProperties.FlattenedIsStandalone | yaserde/tests/serializer.rs:344-353 | `FlatNodes` of a flattened record: it contributes the children and attributes it would have as a document element |
| SerializerProperties.FlattenedEnum | yaserde/tests/serializer.rs:366-372 | `FlatNodes` and `VariantNodes` of a flattened enum: it contributes nothing for a unit variant, and its data under the renamed variant name otherwise, one element per `Vec` item |
| SerializerTests.OneFieldShape | yaserde/tests/serializer.rs:24-35 | a one-string-field record with `root = "base"` renders as `<base><f>v</f></base>` |
| SerializerTests.SerBasic | yaserde/tests/serializer.rs:24-37 | the model is well formed, and its document equals the normalised expected content |
| SerializerTests.SerNameIssue21 | yaserde/tests/serializer.rs:280-294 | the same for a field called `name` |
| SerializerTests.StringListShape | yaserde/tests/serializer.rs:41-51 | a `Vec<String>` field renders as one `<items>` per string under `<base>`; an empty list self-closes |
| SerializerTests.StructListShape | yaserde/tests/serializer.rs:54-77 | a `Vec` of records renders one `<items>` per record, each holding its `<field>` |
| SerializerTests.SerListOfItems | yaserde/tests/serializer.rs:39-79 | both models are well formed and render to their normalised expected content |
| SerializerTests.AttrStructShape | yaserde/tests/serializer.rs:83-120 | attribute on the root, nested record with only an attribute self-closing |
| SerializerTests.SerAttributes | yaserde/tests/serializer.rs:81-122 | the model is well formed and renders to its normalised expected content |
| SerializerTests.ComplexShape | yaserde/tests/serializer.rs:144-180 | each `None` attribute is omitted and each `Some` written in declared order; the element self-closes |
| SerializerTests.SerAttributesComplex | yaserde/tests/serializer.rs:124-182 | the all-`None` and the all-`Some` models render to their normalised raw-string expectations |
| SerializerTests.RenameShape | yaserde/tests/serializer.rs:186-227 | renamed attribute, renamed nested record and the verbatim `maj.min.bug` element |
| SerializerTests.SerRename | yaserde/tests/serializer.rs:184-229 | the model is well formed and renders to its normalised expected content |
| SerializerTests.TextShape | yaserde/tests/serializer.rs:233-276 | the nested record renders as `<sub sub_item="...">text</sub>` |
| SerializerTests.SerTextContentWithAttributes | yaserde/tests/serializer.rs:231-278 | the model is well formed and renders to its normalised expected content |
| SerializerTests.DateShape | yaserde/tests/serializer.rs:298-329 | `<Date>` with `<Year>`, `<Month>` and the hook's `<DoubleDay>` in place of the `Day` field |
| SerializerTests.SerCustom | yaserde/tests/serializer.rs:296-331 | `Day { value: 5 }` gives `<DoubleDay>10</DoubleDay>`; the whole document matches its expected content |
| SerializerTests.FlatShape | yaserde/tests/serializer.rs:335-397 | nested flattened fields and the flattened `Some(OptionalExtra)` splice their elements in order, and the `Holidays` variant repeats `<holidays>` |
| SerializerTests.FlatWellFormed | yaserde/tests/serializer.rs:335-372 | the flatten model is well formed whenever its integers fit `i32` |
| SerializerTests.SerFlatten | yaserde/tests/serializer.rs:333-415 | the flatten model renders to its normalised indented raw-string expectation |

## Left out

- The event writer's character escaping and encoding are not modelled. No test value needs escaping.
- The `Result` error path of `to_string` is not modelled. I/O errors from the underlying writer never occur for an in-memory buffer, so `ToString` returns the text directly.
- The derive macro's code generation is not modelled. Its behaviour is encoded as the descriptor each value carries. `WellFormed` says that a value has the shapes its declared Rust types give it. Its `HookWellFormed` part is the run-time condition that `value * 2` does not overflow, not a compile-time rule.
- Deserialisation, namespaces, prefixes and pretty-printing are not modelled. No serializer test uses them.
- The `Default` impls and their `assert_eq!` checks are not modelled. They do not involve serialisation.
- Serializer.SerializeDay: the source discards the results of its three `write` calls. Writes cannot fail in the model.
- Serializer.SerializeDay: the source's `value * 2` panics on `i32` overflow in debug builds. The model instead requires that the doubled value fits `i32` (`HookWellFormed`); it does not model the panic.
- Serializer.ToString: only records are modelled as documents. The tests never serialise an enum or a primitive at top level.
- Serializer.SerializeField: an attribute-position flattened enum contributes no attributes. Only flattened records carry attributes, and no test combines the two.
- Serializer.SerializeField: text fields are written at their declared position among the children. No test has a text field next to element fields.
- The declaration is written when the writer is created, as one string. It is not built from a version and an encoding.
- Integers are written in base 10 only, with `i32` values.
- Most expected contents are written as lists of line pieces whose concatenation is the single-line literal of the test. Long string literals cannot be compared character by character cheaply.
- SerializerTests.SerAttributesComplex and SerializerTests.SerFlatten use the literal's raw lines with their indentation (`Indented`). The normalisation is then proved, not assumed.
