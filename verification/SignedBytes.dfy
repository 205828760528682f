/**
 The signed bytes: what `to_json` produces, what it determines, and the gate in front of it
 (src/visualsign/src/lib.rs, src/visualsign/src/field_builders.rs).
 */
module SignedBytes {
  import opened Wrappers
  import opened Texts
  import opened Json
  import opened JsonText
  import opened JsonReader
  import opened Charset
  import opened Payload
  import opened Wire

  /** The JSON document of a payload with all keys in order. */
  function Document(p: SignablePayload): (v: Value)
    ensures WellFormed(v)
  {
    SortWellFormed(EncodePayload(p));
    SortValue(EncodePayload(p))
  }

  /** The bytes a wallet signs. */
  function ToJson(p: SignablePayload): (text: string) {
    Print(Document(p))
  }

  // ----- The normal form has the same JSON -----

  lemma {:induction false} NormalBodyEncodes(common: Common, body: Body)
    ensures WireKind(NormalBody(common, body)) == WireKind(body)
    ensures EncodeBody(common, NormalBody(common, body)) == EncodeBody(common, body)
    decreases body
  {
    match body
    case ListLayout(fields) => NormalListEncodes(fields);
    case PreviewLayout(_, _, condensed, expanded) =>
      if condensed.Listed? { NormalListEncodes(condensed.items); }
      if expanded.Listed? { NormalListEncodes(expanded.items); }
      NormalPreviewEncodes(common, body);
    case _ =>
  }

  lemma NormalPreviewEncodes(common: Common, body: Body)
    requires body.PreviewLayout?
    requires body.condensed.Listed? ==>
               EncodeList(NormalList(body.condensed.items)) == EncodeList(body.condensed.items)
    requires body.expanded.Listed? ==>
               EncodeList(NormalList(body.expanded.items)) == EncodeList(body.expanded.items)
    ensures PreviewEntries(NormalBody(common, body)) == PreviewEntries(body)
  {
    EmptyListEncodes();
  }

  lemma EmptyListEncodes()
    ensures EncodeList([]) == EmptyList()
  {
    var items: seq<Annotated> := [];
    assert seq(|items|, i requires 0 <= i < |items| => EncodeAnnotated(items[i])) == [];
  }

  lemma {:induction false} NormalListEncodes(items: seq<Annotated>)
    ensures EncodeList(NormalList(items)) == EncodeList(items)
    decreases items
  {
    forall i | 0 <= i < |items|
      ensures EncodeAnnotated(NormalAnnotated(items[i])) == EncodeAnnotated(items[i])
    { NormalAnnotatedEncodes(items[i]); }
    var ns := NormalList(items);
    assert seq(|ns|, i requires 0 <= i < |ns| => EncodeAnnotated(ns[i])) ==
           seq(|items|, i requires 0 <= i < |items| => EncodeAnnotated(items[i]));
  }

  lemma {:induction false} NormalAnnotatedEncodes(a: Annotated)
    ensures EncodeAnnotated(NormalAnnotated(a)) == EncodeAnnotated(a)
    decreases a
  {
    NormalFieldEncodes(a.field);
  }

  lemma {:induction false} NormalFieldEncodes(f: Field)
    ensures FieldEntries(NormalField(f)) == FieldEntries(f)
    decreases f
  {
    NormalBodyEncodes(f.common, f.body);
  }

  lemma NormalPayloadEncodes(p: SignablePayload)
    ensures EncodePayload(NormalPayload(p)) == EncodePayload(p)
  {
    forall i | 0 <= i < |p.fields|
      ensures SerializeToMap(NormalField(p.fields[i])) == SerializeToMap(p.fields[i])
    { NormalFieldEncodes(p.fields[i]); }
    assert EncodeFields(NormalFields(p.fields)) == EncodeFields(p.fields);
  }

  // ----- What the bytes determine -----

  /** Two payloads have the same signed bytes exactly when they have the same normal form. */
  lemma SameBytesSameNormalForm(p: SignablePayload, q: SignablePayload)
    ensures ToJson(p) == ToJson(q) <==> NormalPayload(p) == NormalPayload(q)
  {
    if ToJson(p) == ToJson(q) {
      PrintInjective(Document(p), Document(q));
      SortPayloadDecode(EncodePayload(p), true);
      SortPayloadDecode(EncodePayload(q), true);
      PayloadRoundTrip(p, true);
      PayloadRoundTrip(q, true);
    } else if NormalPayload(p) == NormalPayload(q) {
      NormalPayloadEncodes(p);
      NormalPayloadEncodes(q);
    }
  }

  /** The normal form is a payload of its own, with the same bytes and nothing left to normalise. */
  lemma NormalFormCanonical(p: SignablePayload)
    ensures ToJson(NormalPayload(p)) == ToJson(p)
    ensures NormalPayload(NormalPayload(p)) == NormalPayload(p)
  {
    NormalPayloadEncodes(p);
    SameBytesSameNormalForm(NormalPayload(p), p);
  }

  /** What a wallet makes of signed bytes: the JSON document they spell, read by the declared field rules. */
  function ReadPayload(text: string): (r: Option<SignablePayload>) {
    var v :- Parse(text);
    DecodePayload(v, false)
  }

  /**
   The bytes read as the normal form, and are refused exactly when an omitted string without a
   default was empty. What is read has the same bytes again.
   */
  lemma SignedBytesReadBack(p: SignablePayload)
    ensures ReadPayload(ToJson(p)) == When(CompletePayload(p), NormalPayload(p))
    ensures ReadPayload(ToJson(p)).Some? ==> ToJson(ReadPayload(ToJson(p)).value) == ToJson(p)
  {
    ParsePrint(Document(p));
    SortPayloadDecode(EncodePayload(p), false);
    PayloadRoundTrip(p, false);
    NormalFormCanonical(p);
  }

  // ----- The charset gate -----

  lemma {:induction false} SortSafe(v: Value)
    ensures SafeStrings(SortValue(v)) <==> SafeStrings(v)
  {
    match v
    case Array(items) =>
      forall i | 0 <= i < |items| ensures SafeStrings(SortValue(items[i])) <==> SafeStrings(items[i]) {
        SortSafe(items[i]);
      }
      var sorted := SortValue(v).items;
      assert forall i :: 0 <= i < |items| ==> sorted[i] == SortValue(items[i]);
    case Object(_, fields) =>
      forall k | k in fields ensures SafeStrings(SortValue(fields[k])) <==> SafeStrings(fields[k]) {
        SortSafe(fields[k]);
      }
      var sorted := SortValue(v).fields;
      assert sorted.Keys == fields.Keys;
      assert forall k :: k in fields ==> sorted[k] == SortValue(fields[k]);
    case _ =>
  }

  /** The text is the JSON of the payload with the keys of every object in alphabetical order. */
  method ToJsonText(p: SignablePayload) returns (text: string)
    ensures text == ToJson(p)
    ensures exists v :: Parse(text) == Some(v) && Alphabetical(v) && Reordering(EncodePayload(p), v)
  {
    var sorted := SortJsonAlphabetically(EncodePayload(p));
    SortWellFormed(EncodePayload(p));
    text := Print(sorted);
    ParsePrint(sorted);
    SortIdempotent(EncodePayload(p));
    SortCanonicalForm(EncodePayload(p), sorted);
  }

  /** Accepts a payload exactly when every string of its JSON is safe once decoded. */
  method ValidateCharset(p: SignablePayload) returns (ok: bool)
    ensures ok <==> SafeStrings(EncodePayload(p))
  {
    var text := ToJsonText(p);
    ok := ScanText(text);
    EmitClean(Document(p), "");
    SortSafe(EncodePayload(p));
  }

  method ToValidatedJson(p: SignablePayload) returns (r: Option<string>)
    ensures r == When(SafeStrings(EncodePayload(p)), ToJson(p))
  {
    var ok := ValidateCharset(p);
    if !ok { return None; }
    var text := ToJsonText(p);
    return Some(text);
  }

  // ----- Numbers -----

  /** The fallback text that the number builder writes. */
  function NumberFallback(number: string, unit: string): (text: string) {
    if unit == "" then number else number + " " + unit
  }

  lemma FallbackUnit(number: string, unit: string)
    ensures UnitOf(NumberFallback(number, unit), number) == TrimStart(unit)
  {
    var text := NumberFallback(number, unit);
    if unit == "" {
      assert text[|number|..] == "";
    } else {
      assert number <= text;
      assert text[|number|..] == [' '] + unit;
      assert ([' '] + unit)[1..] == unit;
    }
  }

  lemma TrimStartFixed(u: string)
    ensures TrimStart(u) == u <==> u == "" || !IsWhitespace(u[0])
  {
  }

  /** The unit of any number field: what stands behind the number and whitespace, nothing if the text is another. */
  lemma NumberUnitRead(caption: string, number: string, gap: string, unit: string, other: string)
    requires forall i :: 0 <= i < |gap| ==> IsWhitespace(gap[i])
    requires unit == "" || !IsWhitespace(unit[0])
    requires !(number <= other)
    ensures NormalField(Field(Common(number + gap + unit, caption), Body.Number(number))).body == AmountV2(number, Some(unit))
    ensures NormalField(Field(Common(other, caption), Body.Number(number))).body == AmountV2(number, Some(""))
  {
    NumberOnWire(Common(number + gap + unit, caption), number);
    NumberOnWire(Common(other, caption), number);
    assert number <= number + gap + unit && (number + gap + unit)[|number|..] == gap + unit;
    TrimGap(gap, unit);
  }

  lemma {:induction false} TrimGap(gap: string, unit: string)
    requires forall i :: 0 <= i < |gap| ==> IsWhitespace(gap[i])
    requires unit == "" || !IsWhitespace(unit[0])
    ensures TrimStart(gap + unit) == unit
  {
    if gap == [] {
      assert gap + unit == unit;
    } else {
      assert (gap + unit)[0] == gap[0] && (gap + unit)[1..] == gap[1..] + unit;
      TrimGap(gap[1..], unit);
    }
  }

  lemma NumberOnWire(common: Common, number: string)
    ensures NormalField(Field(common, Body.Number(number))).body == AmountV2(number, Some(UnitOf(common.fallbackText, number)))
  {
  }

  /** The number builder writes the number, and a unit one space behind it. */
  lemma FallbackText(number: string, unit: string)
    ensures var text := NumberFallback(number, unit);
            && number <= text
            && (unit == "" ==> text == number)
            && (unit != "" ==> |text| == |number| + 1 + |unit| && text[|number|] == ' ' && text[|number| + 1..] == unit)
  {
  }

  /** The wire gives back the unit a number was built with, exactly if it has no leading space. */
  lemma NumberUnitRecovered(caption: string, number: string, unit: string)
    ensures var f := Field(Common(NumberFallback(number, unit), caption), Body.Number(number));
            NormalField(f).body == AmountV2(number, Some(unit)) <==>
            unit == "" || !IsWhitespace(unit[0])
  {
    FallbackUnit(number, unit);
    NumberOnWire(Common(NumberFallback(number, unit), caption), number);
    TrimStartFixed(unit);
  }
}
