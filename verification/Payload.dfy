/**
 The signable payload and its wire form (src/visualsign/src/lib.rs).

 The variants of `SignablePayloadField` share their common part, so a field is that part and a
 body; one-member wrapper structs are flattened here and reappear in the JSON.
 */
module Payload {
  import opened Wrappers
  import opened Texts
  import opened Json

  type u32 = n: nat | n < 0x1_0000_0000

  datatype Common = Common(fallbackText: string, caption: string)

  datatype Body =
    | Text(text: string)
    | TextV2(text: string)
    | Address(address: string, name: string)
    | AddressV2(address: string, name: string, memo: Option<string>,
                assetLabel: string, badgeText: Option<string>)
    | Number(number: string)
    | Amount(amount: string, abbreviation: Option<string>)
    | AmountV2(amount: string, abbreviation: Option<string>)
    | Divider(style: string)
    | PreviewLayout(title: Option<string>, subtitle: Option<string>,
                    condensed: OptionalList, expanded: OptionalList)
    | ListLayout(fields: seq<Annotated>)
    | Unknown(data: string, explanation: string)
    | Diagnostic(rule: string, domain: string, level: string, message: string,
                 instructionIndex: Option<u32>)

  /** The list of a preview layout, when it was set. */
  datatype OptionalList = Unset | Listed(items: seq<Annotated>)

  datatype Field = Field(common: Common, body: Body)

  datatype DynamicAnnotation = DynamicAnnotation(fieldType: string, id: string, params: seq<string>)

  datatype Annotated = Annotated(field: Field, staticAnnotation: Option<string>,
                                 dynamicAnnotation: Option<DynamicAnnotation>)

  datatype SignablePayload = SignablePayload(fields: seq<Field>, payloadType: string,
                                             subtitle: Option<string>, title: string, version: string)

  // ----- Type tags -----

  datatype Kind =
    | KText | KTextV2 | KAddress | KAddressV2 | KNumber | KAmount | KAmountV2
    | KDivider | KPreviewLayout | KListLayout | KUnknown | KDiagnostic

  function KindOf(body: Body): (kind: Kind) {
    match body
    case Text(_) => KText
    case TextV2(_) => KTextV2
    case Address(_, _) => KAddress
    case AddressV2(_, _, _, _, _) => KAddressV2
    case Number(_) => KNumber
    case Amount(_, _) => KAmount
    case AmountV2(_, _) => KAmountV2
    case Divider(_) => KDivider
    case PreviewLayout(_, _, _, _) => KPreviewLayout
    case ListLayout(_) => KListLayout
    case Unknown(_, _) => KUnknown
    case Diagnostic(_, _, _, _, _) => KDiagnostic
  }

  /** The kind a body has on the wire: numbers travel as amounts. */
  function WireKind(body: Body): (kind: Kind) {
    if body.Number? then KAmountV2 else KindOf(body)
  }

  /** The value of the `Type` member. */
  function Tag(kind: Kind): (tag: string) {
    match kind
    case KText => "text"
    case KTextV2 => "text_v2"
    case KAddress => "address"
    case KAddressV2 => "address_v2"
    case KNumber => "number"
    case KAmount => "amount"
    case KAmountV2 => "amount_v2"
    case KDivider => "divider"
    case KPreviewLayout => "preview_layout"
    case KListLayout => "list_layout"
    case KUnknown => "unknown"
    case KDiagnostic => "diagnostic"
  }

  /** The member that holds the content of a field of this kind. */
  function ContentKey(kind: Kind): (key: string)
    ensures key !in {"FallbackText", "Label", "Type", "StaticAnnotation", "DynamicAnnotation"}
  {
    match kind
    case KText => assert "Text"[1] != "Type"[1]; "Text"
    case KTextV2 => "TextV2"
    case KAddress => "Address"
    case KAddressV2 => "AddressV2"
    case KNumber => "Number"
    case KAmount => "Amount"
    case KAmountV2 => "AmountV2"
    case KDivider => "Divider"
    case KPreviewLayout => "PreviewLayout"
    case KListLayout => "ListLayout"
    case KUnknown => "Unknown"
    case KDiagnostic => "Diagnostic"
  }

  // ----- Encoding -----

  /** A declared member; `None` when its value is left out. */
  datatype Entry = Entry(key: string, value: Option<Value>)

  function Always(key: string, s: string): (e: Entry) {
    Entry(key, Some(Str(s)))
  }

  function UnlessNone(key: string, s: Option<string>): (e: Entry) {
    Entry(key, if s.Some? then Some(Str(s.value)) else None)
  }

  function UnlessEmpty(key: string, s: string): (e: Entry) {
    Entry(key, if s == "" then None else Some(Str(s)))
  }

  ghost predicate WellFormedEntries(ms: seq<Entry>) {
    forall i :: 0 <= i < |ms| && ms[i].value.Some? ==> WellFormed(ms[i].value.value)
  }

  /** The object with these members: in key order for a `BTreeMap`, else in declaration order. */
  function Record(ms: seq<Entry>, ordered: bool): (r: Value)
    requires WellFormedEntries(ms)
    ensures r.Object? && WellFormed(r)
  {
    if ms == [] then EmptyObject
    else
      var o, e := Record(ms[..|ms| - 1], ordered), ms[|ms| - 1];
      if e.value.None? then o
      else if ordered then PutSorted(o, e.key, e.value.value)
      else Put(o, e.key, e.value.value)
  }

  function EncodeText(text: string): (r: Value)
    ensures WellFormed(r)
  {
    Record([Always("Text", text)], false)
  }

  /** The unit of a number: what follows the number in the fallback text. */
  function UnitOf(fallbackText: string, number: string): (unit: string) {
    var rest := StripPrefix(fallbackText, number);
    if rest.Some? then TrimStart(rest.value) else ""
  }

  function EncodeAmount(amount: string, abbreviation: Option<string>, ordered: bool): (r: Value)
    ensures WellFormed(r)
  {
    Record([Always("Amount", amount), UnlessNone("Abbreviation", abbreviation)], ordered)
  }

  function AddressV2Entries(b: Body): (ms: seq<Entry>)
    requires b.AddressV2?
  {
    [Always("Address", b.address), UnlessEmpty("Name", b.name), UnlessNone("Memo", b.memo),
     UnlessEmpty("AssetLabel", b.assetLabel), UnlessNone("BadgeText", b.badgeText)]
  }

  function DiagnosticEntries(b: Body): (ms: seq<Entry>)
    requires b.Diagnostic?
  {
    [Always("Domain", b.domain),
     Entry("InstructionIndex",
           if b.instructionIndex.Some? then Some(Value.Number(b.instructionIndex.value)) else None),
     Always("Level", b.level), Always("Message", b.message), Always("Rule", b.rule)]
  }

  function EncodeDiagnostic(b: Body): (r: Value)
    requires b.Diagnostic?
    ensures WellFormed(r)
  {
    Record(DiagnosticEntries(b), false)
  }

  function OptionalText(text: Option<string>): (v: Option<Value>)
    ensures v.Some? ==> WellFormed(v.value)
  {
    if text.Some? then Some(EncodeText(text.value)) else None
  }

  function EmptyList(): (r: Value)
    ensures WellFormed(r)
  {
    Record([Entry("Fields", Some(Array([])))], false)
  }

  /** `Condensed` and `Expanded` are always present, as empty lists when unset. */
  function PreviewEntries(b: Body): (ms: seq<Entry>)
    requires b.PreviewLayout?
    ensures WellFormedEntries(ms)
    decreases b, 0
  {
    [Entry("Condensed", Some(if b.condensed.Listed? then EncodeList(b.condensed.items) else EmptyList())),
     Entry("Expanded", Some(if b.expanded.Listed? then EncodeList(b.expanded.items) else EmptyList())),
     Entry("Subtitle", OptionalText(b.subtitle)), Entry("Title", OptionalText(b.title))]
  }

  function EncodeList(items: seq<Annotated>): (r: Value)
    ensures WellFormed(r)
    decreases items
  {
    var list := Array(seq(|items|, i requires 0 <= i < |items| => EncodeAnnotated(items[i])));
    Record([Entry("Fields", Some(list))], false)
  }

  function EncodeBody(common: Common, body: Body): (r: Value)
    ensures WellFormed(r)
    decreases body, 1
  {
    match body
    case Text(text) => EncodeText(text)
    case TextV2(text) => EncodeText(text)
    case Address(address, name) => Record([Always("Address", address), Always("Name", name)], false)
    case AddressV2(_, _, _, _, _) => Record(AddressV2Entries(body), false)
    case Number(number) => EncodeAmount(number, Some(UnitOf(common.fallbackText, number)), true)
    case Amount(amount, abbreviation) => EncodeAmount(amount, abbreviation, false)
    case AmountV2(amount, abbreviation) => EncodeAmount(amount, abbreviation, true)
    case Divider(style) => Record([Always("Style", style)], false)
    case PreviewLayout(_, _, _, _) => Record(PreviewEntries(body), true)
    case ListLayout(fields) => EncodeList(fields)
    case Unknown(data, explanation) =>
      Record([Always("Data", data), Always("Explanation", explanation)], false)
    case Diagnostic(_, _, _, _, _) => EncodeDiagnostic(body)
  }

  /** The four members of a field. */
  function FieldEntries(f: Field): (ms: seq<Entry>)
    ensures |ms| == 4 && WellFormedEntries(ms)
    decreases f, 0
  {
    [Always("FallbackText", f.common.fallbackText), Always("Label", f.common.caption),
     Always("Type", Tag(WireKind(f.body))),
     Entry(ContentKey(WireKind(f.body)), Some(EncodeBody(f.common, f.body)))]
  }

  function SerializeToMap(f: Field): (r: Value)
    ensures WellFormed(r) && r.Object?
  {
    Record(FieldEntries(f), true)
  }

  function EncodeDynamic(d: DynamicAnnotation): (r: Value)
    ensures WellFormed(r)
  {
    var params := Array(seq(|d.params|, i requires 0 <= i < |d.params| => Str(d.params[i])));
    assert WellFormed(params);
    Record([Always("ID", d.id), Entry("Params", Some(params)), Always("Type", d.fieldType)], false)
  }

  function AnnotatedEntries(a: Annotated): (ms: seq<Entry>)
    ensures WellFormedEntries(ms)
    decreases a, 0
  {
    FieldEntries(a.field) +
    [Entry("StaticAnnotation", OptionalText(a.staticAnnotation)),
     Entry("DynamicAnnotation",
           if a.dynamicAnnotation.Some? then Some(EncodeDynamic(a.dynamicAnnotation.value)) else None)]
  }

  function EncodeAnnotated(a: Annotated): (r: Value)
    ensures WellFormed(r) && r.Object?
    decreases a
  {
    Record(AnnotatedEntries(a), true)
  }

  function EncodeFields(fields: seq<Field>): (r: seq<Value>)
    ensures forall i :: 0 <= i < |r| ==> WellFormed(r[i])
  {
    seq(|fields|, i requires 0 <= i < |fields| => SerializeToMap(fields[i]))
  }

  function PayloadEntries(p: SignablePayload): (ms: seq<Entry>)
    ensures WellFormedEntries(ms)
  {
    [Entry("Fields", Some(Array(EncodeFields(p.fields)))), UnlessEmpty("PayloadType", p.payloadType),
     UnlessNone("Subtitle", p.subtitle), Always("Title", p.title), Always("Version", p.version)]
  }

  function EncodePayload(p: SignablePayload): (r: Value)
    ensures WellFormed(r)
  {
    Record(PayloadEntries(p), false)
  }

  // ----- Normal form -----

  /** What survives of a field on the wire. */
  function NormalField(f: Field): (r: Field)
    decreases f
  {
    Field(f.common, NormalBody(f.common, f.body))
  }

  function NormalBody(common: Common, body: Body): (r: Body)
    decreases body
  {
    match body
    case Number(number) => AmountV2(number, Some(UnitOf(common.fallbackText, number)))
    case PreviewLayout(title, subtitle, condensed, expanded) =>
      PreviewLayout(title, subtitle,
                    Listed(if condensed.Listed? then NormalList(condensed.items) else []),
                    Listed(if expanded.Listed? then NormalList(expanded.items) else []))
    case ListLayout(fields) => ListLayout(NormalList(fields))
    case _ => body
  }

  function NormalList(items: seq<Annotated>): (r: seq<Annotated>)
    decreases items
  {
    seq(|items|, i requires 0 <= i < |items| => NormalAnnotated(items[i]))
  }

  function NormalAnnotated(a: Annotated): (r: Annotated)
    decreases a
  {
    a.(field := NormalField(a.field))
  }

  function NormalFields(fields: seq<Field>): (r: seq<Field>) {
    seq(|fields|, i requires 0 <= i < |fields| => NormalField(fields[i]))
  }

  function NormalPayload(p: SignablePayload): (r: SignablePayload) {
    p.(fields := NormalFields(p.fields))
  }
}
