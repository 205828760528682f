/**
 Reading a payload back by its declared field rules, and what the signed bytes determine
 (src/visualsign/src/lib.rs).
 */
module Wire {
  import opened Wrappers
  import opened Json
  import opened Payload

  // ----- Members -----

  function Member(o: Value, k: string): (r: Option<Value>) {
    if o.Object? && k in o.fields then Some(o.fields[k]) else None
  }

  function ReadString(o: Value, k: string): (r: Option<string>) {
    var v :- Member(o, k);
    if v.Str? then Some(v.s) else None
  }

  /**
   A string that is left out of the JSON when it is empty. The declared rules give it no
   default, so its absence is an error; a lenient reader takes it as empty.
   */
  function ReadOmitted(o: Value, k: string, lenient: bool): (r: Option<string>) {
    if lenient && Member(o, k).None? then Some("") else ReadString(o, k)
  }

  function ReadOption(o: Value, k: string): (r: Option<Option<string>>) {
    match Member(o, k)
    case None => Some(None)
    case Some(Null) => Some(None)
    case Some(Str(s)) => Some(Some(s))
    case _ => None
  }

  function ReadOptionalText(o: Value, k: string): (r: Option<Option<string>>) {
    match Member(o, k)
    case None => Some(None)
    case Some(Null) => Some(None)
    case Some(v) => var t :- ReadString(v, "Text"); Some(Some(t))
  }

  function ReadIndex(o: Value, k: string): (r: Option<Option<u32>>) {
    match Member(o, k)
    case None => Some(None)
    case Some(Null) => Some(None)
    case Some(Number(n)) => if 0 <= n < 0x1_0000_0000 then Some(Some(n)) else None
    case _ => None
  }

  function ReadStrings(o: Value, k: string): (r: Option<seq<string>>) {
    var v :- Member(o, k);
    if v.Array? && forall i :: 0 <= i < |v.items| ==> v.items[i].Str? then
      Some(seq(|v.items|, i requires 0 <= i < |v.items| => v.items[i].s))
    else None
  }

  /** All of the values, or nothing when one is missing. */
  function Collect<T>(xs: seq<Option<T>>): (r: Option<seq<T>>) {
    if forall i :: 0 <= i < |xs| ==> xs[i].Some? then
      Some(seq(|xs|, i requires 0 <= i < |xs| && xs[i].Some? => xs[i].value))
    else None
  }

  // ----- Decoding -----

  function KindOfTag(tag: string): (kind: Option<Kind>) {
    if tag == "text" then Some(KText)
    else if tag == "text_v2" then Some(KTextV2)
    else if tag == "address" then Some(KAddress)
    else if tag == "address_v2" then Some(KAddressV2)
    else if tag == "number" then Some(KNumber)
    else if tag == "amount" then Some(KAmount)
    else if tag == "amount_v2" then Some(KAmountV2)
    else if tag == "divider" then Some(KDivider)
    else if tag == "preview_layout" then Some(KPreviewLayout)
    else if tag == "list_layout" then Some(KListLayout)
    else if tag == "unknown" then Some(KUnknown)
    else if tag == "diagnostic" then Some(KDiagnostic)
    else None
  }

  /** The declared name of the member that holds the content of a field of this kind. */
  function ContentMember(kind: Kind): (name: string) {
    match kind
    case KText => "Text"
    case KTextV2 => "TextV2"
    case KAddress => "Address"
    case KAddressV2 => "AddressV2"
    case KNumber => "Number"
    case KAmount => "Amount"
    case KAmountV2 => "AmountV2"
    case KDivider => "Divider"
    case KPreviewLayout => "PreviewLayout"
    case KListLayout => "ListLayout"
    case KUnknown => "Unknown"
    case KDiagnostic => "Diagnostic"
  }

  /** The written and the declared names agree. */
  lemma ContentNames(kind: Kind)
    ensures ContentKey(kind) == ContentMember(kind)
  {
  }

  function DecodeAddressV2(v: Value, lenient: bool): (r: Option<Body>) {
    var address :- ReadString(v, "Address");
    var name :- ReadOmitted(v, "Name", lenient);
    var memo :- ReadOption(v, "Memo");
    var assetLabel :- ReadOmitted(v, "AssetLabel", lenient);
    var badgeText :- ReadOption(v, "BadgeText");
    Some(AddressV2(address, name, memo, assetLabel, badgeText))
  }

  function DecodeDiagnostic(v: Value): (r: Option<Body>) {
    var rule :- ReadString(v, "Rule");
    var domain :- ReadString(v, "Domain");
    var level :- ReadString(v, "Level");
    var message :- ReadString(v, "Message");
    var index :- ReadIndex(v, "InstructionIndex");
    Some(Diagnostic(rule, domain, level, message, index))
  }

  function DecodePreview(v: Value, lenient: bool): (r: Option<Body>)
    decreases v, 1
  {
    var title :- ReadOptionalText(v, "Title");
    var subtitle :- ReadOptionalText(v, "Subtitle");
    var condensed :- ReadOptionalList(v, "Condensed", lenient);
    var expanded :- ReadOptionalList(v, "Expanded", lenient);
    Some(PreviewLayout(title, subtitle, condensed, expanded))
  }

  function ReadOptionalList(o: Value, k: string, lenient: bool): (r: Option<OptionalList>)
    decreases o, 0
  {
    match Member(o, k)
    case None => Some(Unset)
    case Some(Null) => Some(Unset)
    case Some(v) => var items :- DecodeList(v, lenient); Some(Listed(items))
  }

  function DecodeList(v: Value, lenient: bool): (r: Option<seq<Annotated>>)
    decreases v, 1
  {
    var list :- Member(v, "Fields");
    if list.Array? then DecodeItems(list.items, lenient) else None
  }

  function DecodeItems(items: seq<Value>, lenient: bool): (r: Option<seq<Annotated>>)
    decreases items, 1
  {
    Collect(DecodeEach(items, lenient))
  }

  function DecodeEach(items: seq<Value>, lenient: bool): (r: seq<Option<Annotated>>)
    decreases items, 0
  {
    seq(|items|, i requires 0 <= i < |items| => DecodeAnnotated(items[i], lenient))
  }

  function DecodeBody(kind: Kind, v: Value, lenient: bool): (r: Option<Body>)
    decreases v, 2
  {
    match kind
    case KText => var t :- ReadString(v, "Text"); Some(Text(t))
    case KTextV2 => var t :- ReadString(v, "Text"); Some(TextV2(t))
    case KAddress =>
      var address :- ReadString(v, "Address");
      var name :- ReadString(v, "Name");
      Some(Address(address, name))
    case KAddressV2 => DecodeAddressV2(v, lenient)
    case KNumber => var n :- ReadString(v, "Number"); Some(Body.Number(n))
    case KAmount =>
      var amount :- ReadString(v, "Amount");
      var abbreviation :- ReadOption(v, "Abbreviation");
      Some(Amount(amount, abbreviation))
    case KAmountV2 =>
      var amount :- ReadString(v, "Amount");
      var abbreviation :- ReadOption(v, "Abbreviation");
      Some(AmountV2(amount, abbreviation))
    case KDivider => var style :- ReadString(v, "Style"); Some(Divider(style))
    case KPreviewLayout => DecodePreview(v, lenient)
    case KListLayout => var fields :- DecodeList(v, lenient); Some(ListLayout(fields))
    case KUnknown =>
      var data :- ReadString(v, "Data");
      var explanation :- ReadString(v, "Explanation");
      Some(Unknown(data, explanation))
    case KDiagnostic => DecodeDiagnostic(v)
  }

  function DecodeField(v: Value, lenient: bool): (r: Option<Field>)
    decreases v, 3
  {
    var tag :- ReadString(v, "Type");
    var kind :- KindOfTag(tag);
    var fallbackText :- ReadString(v, "FallbackText");
    var caption :- ReadString(v, "Label");
    var content :- Member(v, ContentMember(kind));
    var body :- DecodeBody(kind, content, lenient);
    Some(Field(Common(fallbackText, caption), body))
  }

  function ReadDynamic(o: Value, k: string): (r: Option<Option<DynamicAnnotation>>) {
    match Member(o, k)
    case None => Some(None)
    case Some(Null) => Some(None)
    case Some(v) =>
      var fieldType :- ReadString(v, "Type");
      var id :- ReadString(v, "ID");
      var params :- ReadStrings(v, "Params");
      Some(Some(DynamicAnnotation(fieldType, id, params)))
  }

  function DecodeAnnotated(v: Value, lenient: bool): (r: Option<Annotated>)
    decreases v, 4
  {
    var field :- DecodeField(v, lenient);
    var staticAnnotation :- ReadOptionalText(v, "StaticAnnotation");
    var dynamicAnnotation :- ReadDynamic(v, "DynamicAnnotation");
    Some(Annotated(field, staticAnnotation, dynamicAnnotation))
  }

  function DecodeFields(items: seq<Value>, lenient: bool): (r: Option<seq<Field>>) {
    Collect(DecodeEachField(items, lenient))
  }

  function DecodeEachField(items: seq<Value>, lenient: bool): (r: seq<Option<Field>>) {
    seq(|items|, i requires 0 <= i < |items| => DecodeField(items[i], lenient))
  }

  function DecodePayload(v: Value, lenient: bool): (r: Option<SignablePayload>) {
    var list :- Member(v, "Fields");
    var fields :- if list.Array? then DecodeFields(list.items, lenient) else None;
    var payloadType :- ReadOmitted(v, "PayloadType", lenient);
    var subtitle :- ReadOption(v, "Subtitle");
    var title :- ReadString(v, "Title");
    var version :- ReadString(v, "Version");
    Some(SignablePayload(fields, payloadType, subtitle, title, version))
  }

  // ----- Reading does not see the order of members -----

  lemma SortMember(o: Value, k: string)
    ensures Member(SortValue(o), k) ==
            match Member(o, k) case None => None case Some(v) => Some(SortValue(v))
    ensures ReadString(SortValue(o), k) == ReadString(o, k)
    ensures forall lenient :: ReadOmitted(SortValue(o), k, lenient) == ReadOmitted(o, k, lenient)
    ensures ReadOption(SortValue(o), k) == ReadOption(o, k)
    ensures ReadIndex(SortValue(o), k) == ReadIndex(o, k)
  {
  }

  lemma SortOptionalText(o: Value, k: string)
    ensures ReadOptionalText(SortValue(o), k) == ReadOptionalText(o, k)
  {
    SortMember(o, k);
    var m := Member(o, k);
    if m.Some? { SortMember(m.value, "Text"); }
  }

  lemma SortStrings(o: Value, k: string)
    ensures ReadStrings(SortValue(o), k) == ReadStrings(o, k)
  {
    SortMember(o, k);
    var m := Member(o, k);
    if m.Some? && m.value.Array? {
      var items, sorted := m.value.items, SortValue(m.value).items;
      assert |items| == |sorted|;
      assert forall i :: 0 <= i < |items| ==> sorted[i] == SortValue(items[i]);
      var a, b := ReadStrings(SortValue(o), k), ReadStrings(o, k);
      assert a.Some? <==> b.Some?;
      if a.Some? { assert a.value == b.value; }
    }
  }

  lemma SortDynamic(o: Value, k: string)
    ensures ReadDynamic(SortValue(o), k) == ReadDynamic(o, k)
  {
    SortMember(o, k);
    var m := Member(o, k);
    if m.Some? {
      SortMember(m.value, "Type");
      SortMember(m.value, "ID");
      SortStrings(m.value, "Params");
    }
  }

  lemma SortAddressV2(v: Value, lenient: bool)
    ensures DecodeAddressV2(SortValue(v), lenient) == DecodeAddressV2(v, lenient)
  {
    SortMember(v, "Address");
    SortMember(v, "Name");
    SortMember(v, "Memo");
    SortMember(v, "AssetLabel");
    SortMember(v, "BadgeText");
  }

  lemma SortDiagnostic(v: Value)
    ensures DecodeDiagnostic(SortValue(v)) == DecodeDiagnostic(v)
  {
    SortMember(v, "Rule");
    SortMember(v, "Domain");
    SortMember(v, "Level");
    SortMember(v, "Message");
    SortMember(v, "InstructionIndex");
  }

  lemma {:induction false} SortItemsDecode(items: seq<Value>, lenient: bool)
    ensures DecodeItems(SortValue(Array(items)).items, lenient) == DecodeItems(items, lenient)
    decreases items, 0
  {
    forall i | 0 <= i < |items|
      ensures DecodeAnnotated(SortValue(items[i]), lenient) == DecodeAnnotated(items[i], lenient)
    { SortAnnotatedDecode(items[i], lenient); }
    var sorted := SortValue(Array(items)).items;
    assert DecodeEach(sorted, lenient) == DecodeEach(items, lenient);
  }

  lemma {:induction false} SortListDecode(v: Value, lenient: bool)
    ensures DecodeList(SortValue(v), lenient) == DecodeList(v, lenient)
    decreases v, 1
  {
    SortMember(v, "Fields");
    var m := Member(v, "Fields");
    if m.Some? && m.value.Array? { SortItemsDecode(m.value.items, lenient); }
  }

  lemma {:induction false} SortOptionalList(o: Value, k: string, lenient: bool)
    ensures ReadOptionalList(SortValue(o), k, lenient) == ReadOptionalList(o, k, lenient)
    decreases o, 0
  {
    SortMember(o, k);
    var m := Member(o, k);
    if m.Some? { SortListDecode(m.value, lenient); }
  }

  lemma {:induction false} SortBodyDecode(kind: Kind, v: Value, lenient: bool)
    ensures DecodeBody(kind, SortValue(v), lenient) == DecodeBody(kind, v, lenient)
    decreases v, 2
  {
    match kind
    case KPreviewLayout =>
      SortOptionalText(v, "Title");
      SortOptionalText(v, "Subtitle");
      SortOptionalList(v, "Condensed", lenient);
      SortOptionalList(v, "Expanded", lenient);
    case KListLayout => SortListDecode(v, lenient);
    case KAddressV2 => SortAddressV2(v, lenient);
    case KDiagnostic => SortDiagnostic(v);
    case _ =>
      SortMember(v, "Text");
      SortMember(v, "Address");
      SortMember(v, "Name");
      SortMember(v, "Number");
      SortMember(v, "Amount");
      SortMember(v, "Abbreviation");
      SortMember(v, "Style");
      SortMember(v, "Data");
      SortMember(v, "Explanation");
  }

  lemma {:induction false} SortFieldDecode(v: Value, lenient: bool)
    ensures DecodeField(SortValue(v), lenient) == DecodeField(v, lenient)
    decreases v, 3
  {
    SortMember(v, "Type");
    SortMember(v, "FallbackText");
    SortMember(v, "Label");
    var tag := ReadString(v, "Type");
    if tag.Some? && KindOfTag(tag.value).Some? {
      var kind := KindOfTag(tag.value).value;
      SortMember(v, ContentMember(kind));
      var content := Member(v, ContentMember(kind));
      if content.Some? { SortBodyDecode(kind, content.value, lenient); }
    }
  }

  lemma {:induction false} SortAnnotatedDecode(v: Value, lenient: bool)
    ensures DecodeAnnotated(SortValue(v), lenient) == DecodeAnnotated(v, lenient)
    decreases v, 4
  {
    SortFieldDecode(v, lenient);
    SortOptionalText(v, "StaticAnnotation");
    SortDynamic(v, "DynamicAnnotation");
  }

  lemma SortFieldsDecode(items: seq<Value>, lenient: bool)
    ensures DecodeFields(SortValue(Array(items)).items, lenient) == DecodeFields(items, lenient)
  {
    forall i | 0 <= i < |items|
      ensures DecodeField(SortValue(items[i]), lenient) == DecodeField(items[i], lenient)
    { SortFieldDecode(items[i], lenient); }
    var sorted := SortValue(Array(items)).items;
    assert DecodeEachField(sorted, lenient) == DecodeEachField(items, lenient);
  }

  lemma SortPayloadDecode(v: Value, lenient: bool)
    ensures DecodePayload(SortValue(v), lenient) == DecodePayload(v, lenient)
  {
    SortMember(v, "Fields");
    SortMember(v, "PayloadType");
    SortMember(v, "Subtitle");
    SortMember(v, "Title");
    SortMember(v, "Version");
    var m := Member(v, "Fields");
    if m.Some? && m.value.Array? { SortFieldsDecode(m.value.items, lenient); }
  }

  // ----- Reading undoes writing, up to the normal form -----

  /** No string that the JSON leaves out when empty is empty. */
  ghost predicate CompleteBody(body: Body)
    decreases body
  {
    match body
    case AddressV2(_, name, _, assetLabel, _) => name != "" && assetLabel != ""
    case PreviewLayout(_, _, condensed, expanded) =>
      && (condensed.Listed? ==> CompleteList(condensed.items))
      && (expanded.Listed? ==> CompleteList(expanded.items))
    case ListLayout(fields) => CompleteList(fields)
    case _ => true
  }

  ghost predicate CompleteList(items: seq<Annotated>)
    decreases items
  {
    forall i :: 0 <= i < |items| ==> CompleteAnnotated(items[i])
  }

  ghost predicate CompleteAnnotated(a: Annotated)
    decreases a
  {
    CompleteBody(a.field.body)
  }

  ghost predicate CompletePayload(p: SignablePayload) {
    p.payloadType != "" && forall i :: 0 <= i < |p.fields| ==> CompleteBody(p.fields[i].body)
  }

  ghost function When<T>(readable: bool, x: T): (r: Option<T>) {
    if readable then Some(x) else None
  }

  lemma CollectWhen<T>(xs: seq<Option<T>>, ys: seq<T>, all: bool)
    requires |xs| == |ys|
    requires forall i :: 0 <= i < |xs| && xs[i].Some? ==> xs[i].value == ys[i]
    requires all <==> forall i :: 0 <= i < |xs| ==> xs[i].Some?
    ensures Collect(xs) == When(all, ys)
  {
    if all { assert Collect(xs).value == ys; }
  }

  lemma TagRoundTrip(kind: Kind)
    ensures KindOfTag(Tag(kind)) == Some(kind)
  {
    assert "text_v2"[0] != "address"[0] && "text_v2"[0] != "divider"[0] && "text_v2"[0] != "unknown"[0];
    assert "address"[0] != "divider"[0] && "address"[0] != "unknown"[0] && "divider"[0] != "unknown"[0];
    assert "number"[0] != "amount"[0] && "address_v2"[0] != "diagnostic"[0];
  }

  ghost predicate DistinctKeys(ms: seq<Entry>) {
    forall i, j :: 0 <= i < j < |ms| ==> ms[i].key != ms[j].key
  }

  /** Each declared member of a record reads back as it was written. */
  lemma {:induction false} RecordMember(ms: seq<Entry>, ordered: bool, i: nat)
    requires WellFormedEntries(ms) && DistinctKeys(ms) && i < |ms|
    ensures Member(Record(ms, ordered), ms[i].key) == ms[i].value
  {
    var front := ms[..|ms| - 1];
    if i == |ms| - 1 {
      RecordAbsent(front, ordered, ms[i].key);
    } else {
      RecordMember(front, ordered, i);
    }
  }

  lemma {:induction false} RecordAbsent(ms: seq<Entry>, ordered: bool, k: string)
    requires WellFormedEntries(ms)
    requires forall j :: 0 <= j < |ms| ==> ms[j].key != k
    ensures Member(Record(ms, ordered), k) == None
  {
    if ms != [] { RecordAbsent(ms[..|ms| - 1], ordered, k); }
  }

  /** All declared members of `ms` are what `o` holds under their keys. */
  ghost predicate Holds(o: Value, ms: seq<Entry>) {
    forall i :: 0 <= i < |ms| ==> Member(o, ms[i].key) == ms[i].value
  }

  lemma RecordHolds(ms: seq<Entry>, ordered: bool)
    requires WellFormedEntries(ms) && DistinctKeys(ms)
    ensures Holds(Record(ms, ordered), ms)
  {
    forall i | 0 <= i < |ms| ensures Member(Record(ms, ordered), ms[i].key) == ms[i].value {
      RecordMember(ms, ordered, i);
    }
  }

  lemma OneHeld(o: Value, e: Entry)
    requires Holds(o, [e])
    ensures Member(o, e.key) == e.value
  {
    assert [e][0] == e;
  }

  lemma TwoHeld(o: Value, d: Entry, e: Entry)
    requires Holds(o, [d, e])
    ensures Member(o, d.key) == d.value && Member(o, e.key) == e.value
  {
    assert [d, e][0] == d && [d, e][1] == e;
  }

  lemma TextRoundTrip(text: string)
    ensures ReadString(EncodeText(text), "Text") == Some(text)
  {
    var e := Always("Text", text);
    RecordHolds([e], false);
    OneHeld(EncodeText(text), e);
  }

  lemma TwoRoundTrip(d: Entry, e: Entry, ordered: bool)
    requires d.key != e.key && WellFormedEntries([d, e])
    ensures Member(Record([d, e], ordered), d.key) == d.value
    ensures Member(Record([d, e], ordered), e.key) == e.value
  {
    RecordHolds([d, e], ordered);
    TwoHeld(Record([d, e], ordered), d, e);
  }

  lemma AmountRoundTrip(amount: string, abbreviation: Option<string>, ordered: bool)
    ensures ReadString(EncodeAmount(amount, abbreviation, ordered), "Amount") == Some(amount)
    ensures ReadOption(EncodeAmount(amount, abbreviation, ordered), "Abbreviation") == Some(abbreviation)
  {
    TwoRoundTrip(Always("Amount", amount), UnlessNone("Abbreviation", abbreviation), ordered);
  }

  lemma AddressV2Distinct(b: Body)
    requires b.AddressV2?
    ensures DistinctKeys(AddressV2Entries(b))
  {
    assert "Name"[0] != "Memo"[0];
  }

  lemma AddressV2Decode(o: Value, b: Body, lenient: bool)
    requires b.AddressV2? && Holds(o, AddressV2Entries(b))
    ensures DecodeAddressV2(o, lenient) == When(lenient || CompleteBody(b), b)
  {
    var ms := AddressV2Entries(b);
    assert Member(o, ms[0].key) == ms[0].value;
    assert Member(o, ms[1].key) == ms[1].value;
    assert Member(o, ms[2].key) == ms[2].value;
    assert Member(o, ms[3].key) == ms[3].value;
    assert Member(o, ms[4].key) == ms[4].value;
  }

  lemma DiagnosticDecode(o: Value, b: Body)
    requires b.Diagnostic? && Holds(o, DiagnosticEntries(b))
    ensures DecodeDiagnostic(o) == Some(b)
  {
    var ms := DiagnosticEntries(b);
    assert Member(o, ms[0].key) == ms[0].value;
    assert Member(o, ms[1].key) == ms[1].value;
    assert Member(o, ms[2].key) == ms[2].value;
    assert Member(o, ms[3].key) == ms[3].value;
    assert Member(o, ms[4].key) == ms[4].value;
  }

  /** Reading the encoded body gives its normal form, unless an omitted string is missed. */
  ghost predicate RoundTrips(common: Common, body: Body, lenient: bool) {
    ReadsBack(common, body, EncodeBody(common, body), lenient)
  }

  ghost predicate ReadsBack(common: Common, body: Body, v: Value, lenient: bool) {
    DecodeBody(WireKind(body), v, lenient) ==
    When(lenient || CompleteBody(body), NormalBody(common, body))
  }

  lemma TextsRoundTrip(common: Common, body: Body, lenient: bool)
    requires body.Text? || body.TextV2? || body.Divider?
    ensures RoundTrips(common, body, lenient)
  {
    if body.Divider? {
      RecordHolds([Always("Style", body.style)], false);
      OneHeld(EncodeBody(common, body), Always("Style", body.style));
    } else {
      TextRoundTrip(body.text);
    }
  }

  lemma AddressRoundTrip(common: Common, body: Body, lenient: bool)
    requires body.Address?
    ensures RoundTrips(common, body, lenient)
  {
    TwoRoundTrip(Always("Address", body.address), Always("Name", body.name), false);
  }

  lemma UnknownReadBack(data: string, explanation: string)
    ensures var o := Record([Always("Data", data), Always("Explanation", explanation)], false);
            ReadString(o, "Data") == Some(data) && ReadString(o, "Explanation") == Some(explanation)
  {
    TwoRoundTrip(Always("Data", data), Always("Explanation", explanation), false);
  }

  lemma UnknownReads(common: Common, body: Body, v: Value, lenient: bool)
    requires body.Unknown? && ReadString(v, "Data") == Some(body.data) && ReadString(v, "Explanation") == Some(body.explanation)
    ensures ReadsBack(common, body, v, lenient)
  {
  }

  lemma UnknownRoundTrip(common: Common, body: Body, lenient: bool)
    requires body.Unknown?
    ensures RoundTrips(common, body, lenient)
  {
    UnknownReadBack(body.data, body.explanation);
    UnknownReads(common, body, Record([Always("Data", body.data), Always("Explanation", body.explanation)], false), lenient);
  }

  lemma NumberRoundTrip(common: Common, body: Body, lenient: bool)
    requires body.Number?
    ensures RoundTrips(common, body, lenient)
  {
    AmountRoundTrip(body.number, Some(UnitOf(common.fallbackText, body.number)), true);
  }

  lemma PlainAmountRoundTrip(common: Common, body: Body, lenient: bool)
    requires body.Amount?
    ensures RoundTrips(common, body, lenient)
  {
    AmountRoundTrip(body.amount, body.abbreviation, false);
  }

  lemma AmountV2Reads(common: Common, body: Body, v: Value, lenient: bool)
    requires body.AmountV2? && ReadString(v, "Amount") == Some(body.amount) && ReadOption(v, "Abbreviation") == Some(body.abbreviation)
    ensures ReadsBack(common, body, v, lenient)
  {
  }

  lemma AmountV2RoundTrip(common: Common, body: Body, lenient: bool)
    requires body.AmountV2?
    ensures RoundTrips(common, body, lenient)
  {
    AmountRoundTrip(body.amount, body.abbreviation, true);
    AmountV2Reads(common, body, EncodeAmount(body.amount, body.abbreviation, true), lenient);
  }

  lemma AddressV2RoundTrip(common: Common, body: Body, lenient: bool)
    requires body.AddressV2?
    ensures RoundTrips(common, body, lenient)
  {
    AddressV2Distinct(body);
    RecordHolds(AddressV2Entries(body), false);
    AddressV2Decode(EncodeBody(common, body), body, lenient);
  }

  lemma DiagnosticDistinct(body: Body)
    requires body.Diagnostic?
    ensures DistinctKeys(DiagnosticEntries(body))
  {
  }

  lemma DiagnosticReadBack(body: Body)
    requires body.Diagnostic?
    ensures DecodeDiagnostic(EncodeDiagnostic(body)) == Some(body)
  {
    DiagnosticDistinct(body);
    RecordHolds(DiagnosticEntries(body), false);
    DiagnosticDecode(EncodeDiagnostic(body), body);
  }

  lemma DiagnosticReads(common: Common, body: Body, v: Value, lenient: bool)
    requires body.Diagnostic? && DecodeDiagnostic(v) == Some(body)
    ensures ReadsBack(common, body, v, lenient)
  {
  }

  lemma DiagnosticRoundTrip(common: Common, body: Body, lenient: bool)
    requires body.Diagnostic?
    ensures RoundTrips(common, body, lenient)
  {
    DiagnosticReadBack(body);
    DiagnosticReads(common, body, EncodeDiagnostic(body), lenient);
  }

  lemma {:induction false} BodyRoundTrip(common: Common, body: Body, lenient: bool)
    ensures RoundTrips(common, body, lenient)
    decreases body, 2
  {
    match body
    case AddressV2(_, _, _, _, _) => AddressV2RoundTrip(common, body, lenient);
    case Diagnostic(_, _, _, _, _) => DiagnosticRoundTrip(common, body, lenient);
    case PreviewLayout(_, _, _, _) => PreviewRoundTrip(common, body, lenient);
    case ListLayout(fields) => ListRoundTrip(fields, lenient);
    case Text(_) => TextsRoundTrip(common, body, lenient);
    case TextV2(_) => TextsRoundTrip(common, body, lenient);
    case Divider(_) => TextsRoundTrip(common, body, lenient);
    case Address(_, _) => AddressRoundTrip(common, body, lenient);
    case Unknown(_, _) => UnknownRoundTrip(common, body, lenient);
    case Number(_) => NumberRoundTrip(common, body, lenient);
    case Amount(_, _) => PlainAmountRoundTrip(common, body, lenient);
    case AmountV2(_, _) => AmountV2RoundTrip(common, body, lenient);
  }

  lemma {:induction false} ItemsRoundTrip(items: seq<Annotated>, list: seq<Value>, lenient: bool)
    requires |list| == |items|
    requires forall i :: 0 <= i < |items| ==> list[i] == EncodeAnnotated(items[i])
    ensures DecodeItems(list, lenient) == When(lenient || CompleteList(items), NormalList(items))
    decreases items, 0
  {
    var xs := DecodeEach(list, lenient);
    forall i | 0 <= i < |items|
      ensures xs[i] == When(lenient || CompleteAnnotated(items[i]), NormalAnnotated(items[i]))
    { AnnotatedRoundTrip(items[i], lenient); }
    CollectWhen(xs, NormalList(items), lenient || CompleteList(items));
  }

  lemma {:induction false} ListRoundTrip(items: seq<Annotated>, lenient: bool)
    ensures DecodeList(EncodeList(items), lenient) == When(lenient || CompleteList(items), NormalList(items))
    decreases items, 1
  {
    var list := seq(|items|, i requires 0 <= i < |items| => EncodeAnnotated(items[i]));
    var e := Entry("Fields", Some(Array(list)));
    RecordHolds([e], false);
    OneHeld(EncodeList(items), e);
    ItemsRoundTrip(items, list, lenient);
  }

  lemma EmptyListRoundTrip(lenient: bool)
    ensures DecodeList(EmptyList(), lenient) == Some([])
  {
    var e := Entry("Fields", Some(Array([])));
    RecordHolds([e], false);
    OneHeld(EmptyList(), e);
    assert DecodeEach([], lenient) == [];
    assert Collect<Annotated>([]).value == [];
  }

  lemma {:induction false} OptionalListRoundTrip(o: Value, k: string, list: OptionalList, lenient: bool)
    requires Member(o, k) == Some(if list.Listed? then EncodeList(list.items) else EmptyList())
    ensures ReadOptionalList(o, k, lenient) == ReadBackList(list, lenient)
    decreases list
  {
    if list.Listed? {
      ListRoundTrip(list.items, lenient);
    } else {
      EmptyListRoundTrip(lenient);
    }
  }

  lemma PreviewDistinct(b: Body)
    requires b.PreviewLayout?
    ensures DistinctKeys(PreviewEntries(b))
  {
    assert "Expanded"[0] != "Subtitle"[0];
  }

  lemma PreviewHeld(o: Value, b: Body)
    requires b.PreviewLayout? && Holds(o, PreviewEntries(b))
    ensures Member(o, "Condensed") == Some(if b.condensed.Listed? then EncodeList(b.condensed.items) else EmptyList())
    ensures Member(o, "Expanded") == Some(if b.expanded.Listed? then EncodeList(b.expanded.items) else EmptyList())
    ensures Member(o, "Subtitle") == OptionalText(b.subtitle)
    ensures Member(o, "Title") == OptionalText(b.title)
  {
    var ms := PreviewEntries(b);
    assert Member(o, ms[0].key) == ms[0].value;
    assert Member(o, ms[1].key) == ms[1].value;
    assert Member(o, ms[2].key) == ms[2].value;
    assert Member(o, ms[3].key) == ms[3].value;
  }

  /** What is read for a list of a preview: a set list, complete if its fields are. */
  ghost function ReadBackList(list: OptionalList, lenient: bool): (r: Option<OptionalList>) {
    When(lenient || (list.Listed? ==> CompleteList(list.items)),
         Listed(if list.Listed? then NormalList(list.items) else []))
  }

  lemma PreviewAssembled(o: Value, b: Body, lenient: bool)
    requires b.PreviewLayout?
    requires ReadOptionalList(o, "Condensed", lenient) == ReadBackList(b.condensed, lenient)
    requires ReadOptionalList(o, "Expanded", lenient) == ReadBackList(b.expanded, lenient)
    requires ReadOptionalText(o, "Subtitle") == Some(b.subtitle) && ReadOptionalText(o, "Title") == Some(b.title)
    ensures DecodePreview(o, lenient) == When(lenient || CompleteBody(b), NormalBody(Common("", ""), b))
  {
  }

  lemma {:induction false} PreviewDecode(o: Value, b: Body, lenient: bool)
    requires b.PreviewLayout? && Holds(o, PreviewEntries(b))
    ensures DecodePreview(o, lenient) == When(lenient || CompleteBody(b), NormalBody(Common("", ""), b))
    decreases b, 0
  {
    PreviewHeld(o, b);
    OptionalListRoundTrip(o, "Condensed", b.condensed, lenient);
    OptionalListRoundTrip(o, "Expanded", b.expanded, lenient);
    OptionalTextRoundTrip(o, "Subtitle", b.subtitle);
    OptionalTextRoundTrip(o, "Title", b.title);
    PreviewAssembled(o, b, lenient);
  }

  lemma {:induction false} PreviewRoundTrip(common: Common, body: Body, lenient: bool)
    requires body.PreviewLayout?
    ensures RoundTrips(common, body, lenient)
    decreases body, 1
  {
    PreviewDistinct(body);
    RecordHolds(PreviewEntries(body), true);
    PreviewDecode(EncodeBody(common, body), body, lenient);
  }

  lemma OptionalTextRoundTrip(o: Value, k: string, text: Option<string>)
    requires Member(o, k) == OptionalText(text)
    ensures ReadOptionalText(o, k) == Some(text)
  {
    if text.Some? { TextRoundTrip(text.value); }
  }

  lemma {:induction false} FieldRoundTrip(o: Value, f: Field, lenient: bool)
    requires Holds(o, FieldEntries(f))
    ensures DecodeField(o, lenient) == When(lenient || CompleteBody(f.body), NormalField(f))
    decreases f
  {
    var ms := FieldEntries(f);
    assert Member(o, ms[0].key) == ms[0].value;
    assert Member(o, ms[1].key) == ms[1].value;
    assert Member(o, ms[2].key) == ms[2].value;
    assert Member(o, ms[3].key) == ms[3].value;
    TagRoundTrip(WireKind(f.body));
    ContentNames(WireKind(f.body));
    BodyRoundTrip(f.common, f.body, lenient);
  }

  lemma DynamicRoundTrip(o: Value, k: string, d: Option<DynamicAnnotation>)
    requires Member(o, k) == if d.Some? then Some(EncodeDynamic(d.value)) else None
    ensures ReadDynamic(o, k) == Some(d)
  {
    if d.Some? {
      var params := Array(seq(|d.value.params|, i requires 0 <= i < |d.value.params| => Str(d.value.params[i])));
      var ms := [Always("ID", d.value.id), Entry("Params", Some(params)), Always("Type", d.value.fieldType)];
      assert WellFormed(params);
      assert DistinctKeys(ms);
      RecordHolds(ms, false);
      var v := EncodeDynamic(d.value);
      assert Member(v, ms[0].key) == ms[0].value;
      assert Member(v, ms[1].key) == ms[1].value;
      assert Member(v, ms[2].key) == ms[2].value;
      assert ReadStrings(v, "Params").Some?;
      assert ReadStrings(v, "Params").value == d.value.params;
    }
  }

  lemma AnnotatedDistinct(a: Annotated)
    ensures DistinctKeys(AnnotatedEntries(a))
  {
  }

  lemma {:induction false} AnnotatedRoundTrip(a: Annotated, lenient: bool)
    ensures DecodeAnnotated(EncodeAnnotated(a), lenient) ==
            When(lenient || CompleteAnnotated(a), NormalAnnotated(a))
    decreases a
  {
    var ms := AnnotatedEntries(a);
    var o := EncodeAnnotated(a);
    AnnotatedDistinct(a);
    RecordHolds(ms, true);
    var fs := FieldEntries(a.field);
    assert forall i :: 0 <= i < 4 ==> ms[i] == fs[i];
    FieldRoundTrip(o, a.field, lenient);
    assert Member(o, ms[4].key) == ms[4].value;
    assert Member(o, ms[5].key) == ms[5].value;
    OptionalTextRoundTrip(o, "StaticAnnotation", a.staticAnnotation);
    DynamicRoundTrip(o, "DynamicAnnotation", a.dynamicAnnotation);
  }

  lemma SerializedDistinct(f: Field)
    ensures DistinctKeys(FieldEntries(f))
  {
  }

  lemma SerializedRoundTrip(f: Field, lenient: bool)
    ensures DecodeField(SerializeToMap(f), lenient) ==
            When(lenient || CompleteBody(f.body), NormalField(f))
  {
    SerializedDistinct(f);
    RecordHolds(FieldEntries(f), true);
    FieldRoundTrip(SerializeToMap(f), f, lenient);
  }

  lemma EachFieldRoundTrip(fields: seq<Field>, lenient: bool)
    ensures |DecodeEachField(EncodeFields(fields), lenient)| == |fields|
    ensures forall i :: 0 <= i < |fields| ==>
                          DecodeEachField(EncodeFields(fields), lenient)[i] ==
                          When(lenient || CompleteBody(fields[i].body), NormalFields(fields)[i])
  {
    forall i | 0 <= i < |fields|
      ensures DecodeEachField(EncodeFields(fields), lenient)[i] ==
              When(lenient || CompleteBody(fields[i].body), NormalFields(fields)[i])
    { SerializedRoundTrip(fields[i], lenient); }
  }

  lemma CollectFields(decoded: seq<Option<Field>>, fields: seq<Field>, normal: seq<Field>, lenient: bool)
    requires |decoded| == |fields| == |normal|
    requires forall i :: 0 <= i < |fields| ==> decoded[i] == When(lenient || CompleteBody(fields[i].body), normal[i])
    ensures Collect(decoded) == When(lenient || (forall i :: 0 <= i < |fields| ==> CompleteBody(fields[i].body)), normal)
  {
    CollectWhen(decoded, normal, lenient || forall i :: 0 <= i < |fields| ==> CompleteBody(fields[i].body));
  }

  lemma FieldsRoundTrip(fields: seq<Field>, lenient: bool)
    ensures DecodeFields(EncodeFields(fields), lenient) ==
            When(lenient || (forall i :: 0 <= i < |fields| ==> CompleteBody(fields[i].body)),
                 NormalFields(fields))
  {
    EachFieldRoundTrip(fields, lenient);
    CollectFields(DecodeEachField(EncodeFields(fields), lenient), fields, NormalFields(fields), lenient);
  }

  lemma PayloadDistinct(p: SignablePayload)
    ensures DistinctKeys(PayloadEntries(p))
  {
  }

  lemma PayloadDecode(o: Value, p: SignablePayload, lenient: bool)
    requires Holds(o, PayloadEntries(p))
    ensures DecodePayload(o, lenient) == When(lenient || CompletePayload(p), NormalPayload(p))
  {
    var ms := PayloadEntries(p);
    assert Member(o, ms[0].key) == ms[0].value;
    assert Member(o, ms[1].key) == ms[1].value;
    assert Member(o, ms[2].key) == ms[2].value;
    assert Member(o, ms[3].key) == ms[3].value;
    assert Member(o, ms[4].key) == ms[4].value;
    FieldsRoundTrip(p.fields, lenient);
  }

  /**
   Reading the JSON of a payload gives its normal form exactly when no omitted string is
   missed; otherwise reading fails.
   */
  lemma PayloadRoundTrip(p: SignablePayload, lenient: bool)
    ensures DecodePayload(EncodePayload(p), lenient) ==
            When(lenient || CompletePayload(p), NormalPayload(p))
  {
    PayloadDistinct(p);
    RecordHolds(PayloadEntries(p), false);
    PayloadDecode(EncodePayload(p), p, lenient);
  }
}
