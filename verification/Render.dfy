/**
 Which fields the Anchorage wallet cannot render (src/visualsign/src/anchorage_render.rs).
 */
module Render {
  import opened Wrappers
  import opened Decimals
  import opened Payload
  import opened Wire

  datatype Reason = UnsupportedFieldType | ListLayoutAsStandaloneField | ContainsUnsupportedNestedFields

  datatype Finding = Finding(path: string, caption: string, fieldType: string, reason: Reason)

  const RenderableLeafTypes: seq<string> := ["text_v2", "address_v2", "amount_v2", "diagnostic"]

  /** The `Type` a field has on the wire, read off its serialized form. */
  function WireType(f: Field): (t: string) {
    var t := ReadString(SerializeToMap(f), "Type");
    if t.Some? then t.value else Tag(KindOf(f.body))
  }

  lemma WireTypeIsTag(f: Field)
    ensures WireType(f) == Tag(WireKind(f.body))
  {
    SerializedDistinct(f);
    RecordHolds(FieldEntries(f), true);
    assert Member(SerializeToMap(f), FieldEntries(f)[2].key) == FieldEntries(f)[2].value;
  }

  function MakeFinding(path: string, f: Field, reason: Reason): (r: Finding) {
    Finding(path, f.common.caption, WireType(f), reason)
  }

  // ----- The walk -----

  /** Where a field sits in its container. */
  datatype Slot = TopLevel | InCondensed | InExpanded

  datatype Step = Step(slot: Slot, index: nat)

  function SlotText(slot: Slot): (t: string) {
    match slot
    case TopLevel => "Fields["
    case InCondensed => ".Condensed.Fields["
    case InExpanded => ".Expanded.Fields["
  }

  function StepText(s: Step): (t: string) {
    SlotText(s.slot) + (OfNat(s.index) + "]")
  }

  /** The findings for `f` and everything below it, in the order they are pushed. */
  function Findings(f: Field, path: string): (r: seq<Finding>)
    decreases f
  {
    match f.body
    case PreviewLayout(_, _, condensed, expanded) =>
      var nested := OptionalFindings(condensed, InCondensed, path) + OptionalFindings(expanded, InExpanded, path);
      if nested == [] then [] else nested + [MakeFinding(path, f, ContainsUnsupportedNestedFields)]
    case ListLayout(_) => [MakeFinding(path, f, ListLayoutAsStandaloneField)]
    case _ =>
      if WireType(f) in RenderableLeafTypes then [] else [MakeFinding(path, f, UnsupportedFieldType)]
  }

  function OptionalFindings(list: OptionalList, slot: Slot, path: string): (r: seq<Finding>)
    decreases list
  {
    if list.Listed? then ListFindings(list.items, |list.items|, slot, path) else []
  }

  /** The findings for the first `n` entries of a list. */
  function ListFindings(items: seq<Annotated>, n: nat, slot: Slot, path: string): (r: seq<Finding>)
    requires n <= |items|
    decreases items, n
  {
    if n == 0 then []
    else ListFindings(items, n - 1, slot, path) +
         AnnotatedFindings(items[n - 1], path + StepText(Step(slot, n - 1)))
  }

  function AnnotatedFindings(a: Annotated, path: string): (r: seq<Finding>)
    decreases a
  {
    Findings(a.field, path)
  }

  function FieldsFindings(fields: seq<Field>, n: nat): (r: seq<Finding>)
    requires n <= |fields|
  {
    if n == 0 then []
    else FieldsFindings(fields, n - 1) + Findings(fields[n - 1], StepText(Step(TopLevel, n - 1)))
  }

  function RenderFindings(p: SignablePayload): (r: seq<Finding>) {
    FieldsFindings(p.fields, |p.fields|)
  }

  class FindingSink {
    var out: seq<Finding>

    constructor ()
      ensures out == []
    {
      out := [];
    }
  }

  /** Pushes the findings of `f` and tells whether there were none. */
  method CheckField(f: Field, path: string, sink: FindingSink) returns (ok: bool)
    modifies sink
    ensures sink.out == old(sink.out) + Findings(f, path)
    ensures ok <==> Findings(f, path) == []
    decreases f
  {
    match f.body
    case PreviewLayout(_, _, condensed, expanded) =>
      var condensedOk := CheckOptional(condensed, InCondensed, path, sink);
      var expandedOk := CheckOptional(expanded, InExpanded, path, sink);
      ghost var first := OptionalFindings(condensed, InCondensed, path);
      ghost var second := OptionalFindings(expanded, InExpanded, path);
      AppendAssociative(old(sink.out), first, second);
      ok := condensedOk && expandedOk;
      if !ok {
        var last := MakeFinding(path, f, ContainsUnsupportedNestedFields);
        AppendAssociative(old(sink.out), first + second, [last]);
        sink.out := sink.out + [last];
      }
    case ListLayout(_) =>
      sink.out := sink.out + [MakeFinding(path, f, ListLayoutAsStandaloneField)];
      ok := false;
    case _ =>
      ok := WireType(f) in RenderableLeafTypes;
      if !ok {
        sink.out := sink.out + [MakeFinding(path, f, UnsupportedFieldType)];
      }
  }

  method CheckOptional(list: OptionalList, slot: Slot, path: string, sink: FindingSink) returns (ok: bool)
    modifies sink
    ensures sink.out == old(sink.out) + OptionalFindings(list, slot, path)
    ensures ok <==> OptionalFindings(list, slot, path) == []
    decreases list
  {
    ok := true;
    if list.Listed? {
      ok := CheckList(list.items, slot, path, sink);
    }
  }

  method CheckList(items: seq<Annotated>, slot: Slot, path: string, sink: FindingSink) returns (ok: bool)
    modifies sink
    ensures sink.out == old(sink.out) + ListFindings(items, |items|, slot, path)
    ensures ok <==> ListFindings(items, |items|, slot, path) == []
    decreases items
  {
    ok := true;
    for i := 0 to |items|
      invariant sink.out == old(sink.out) + ListFindings(items, i, slot, path)
      invariant ok <==> ListFindings(items, i, slot, path) == []
    {
      var childPath := path + StepText(Step(slot, i));
      ghost var earlier := ListFindings(items, i, slot, path);
      ghost var next := ListFindings(items, i + 1, slot, path);
      assert next == earlier + AnnotatedFindings(items[i], childPath);
      var child := CheckAnnotated(items[i], childPath, sink);
      AppendAssociative(old(sink.out), earlier, AnnotatedFindings(items[i], childPath));
      ok := ok && child;
    }
  }

  lemma AppendAssociative(a: seq<Finding>, b: seq<Finding>, c: seq<Finding>)
    ensures (a + b) + c == a + (b + c)
  {
  }

  method CheckAnnotated(a: Annotated, path: string, sink: FindingSink) returns (ok: bool)
    modifies sink
    ensures sink.out == old(sink.out) + AnnotatedFindings(a, path)
    ensures ok <==> AnnotatedFindings(a, path) == []
    decreases a
  {
    ok := CheckField(a.field, path, sink);
  }

  method AnchorageRenderFindings(p: SignablePayload) returns (findings: seq<Finding>)
    ensures findings == RenderFindings(p)
  {
    var sink := new FindingSink();
    for i := 0 to |p.fields|
      invariant sink.out == FieldsFindings(p.fields, i)
    {
      var ok := CheckField(p.fields[i], StepText(Step(TopLevel, i)), sink);
    }
    findings := sink.out;
  }

  // ----- What should be reported -----

  type Position = seq<Step>

  function PositionText(pos: Position): (t: string) {
    if pos == [] then "" else StepText(pos[0]) + PositionText(pos[1..])
  }

  function ListAt(body: Body, slot: Slot): (items: seq<Annotated>) {
    if !body.PreviewLayout? then []
    else match slot
         case TopLevel => []
         case InCondensed => if body.condensed.Listed? then body.condensed.items else []
         case InExpanded => if body.expanded.Listed? then body.expanded.items else []
  }

  /** The field at a position below `f`, going through preview layouts only. */
  function Resolve(f: Field, pos: Position): (r: Option<Field>)
    decreases |pos|
  {
    if pos == [] then Some(f)
    else
      var items := ListAt(f.body, pos[0].slot);
      if pos[0].index < |items| then Resolve(items[pos[0].index].field, pos[1..]) else None
  }

  /** Not renderable in itself, whatever it contains. */
  ghost predicate BadInItself(f: Field) {
    f.body.ListLayout? ||
    (!f.body.PreviewLayout? && Tag(WireKind(f.body)) !in {"text_v2", "address_v2", "amount_v2", "diagnostic"})
  }

  ghost predicate BadAt(f: Field, pos: Position) {
    Resolve(f, pos).Some? && BadInItself(Resolve(f, pos).value)
  }

  /** Some field at or below `f` is not renderable in itself. */
  ghost predicate Unrenderable(f: Field) {
    exists pos :: BadAt(f, pos)
  }

  /** The positions of the findings for `f`, in the order they are pushed. */
  ghost function Positions(f: Field): (r: seq<Position>)
    decreases f
  {
    match f.body
    case PreviewLayout(_, _, condensed, expanded) =>
      var nested := OptionalPositions(condensed, InCondensed) + OptionalPositions(expanded, InExpanded);
      if nested == [] then [] else nested + [[]]
    case _ => if BadInItself(f) then [[]] else []
  }

  ghost function OptionalPositions(list: OptionalList, slot: Slot): (r: seq<Position>)
    decreases list
  {
    if list.Listed? then ListPositions(list.items, |list.items|, slot) else []
  }

  ghost function ListPositions(items: seq<Annotated>, n: nat, slot: Slot): (r: seq<Position>)
    requires n <= |items|
    decreases items, n
  {
    if n == 0 then []
    else ListPositions(items, n - 1, slot) + Below(Step(slot, n - 1), AnnotatedPositions(items[n - 1]))
  }

  ghost function AnnotatedPositions(a: Annotated): (r: seq<Position>)
    decreases a
  {
    Positions(a.field)
  }

  ghost function Below(s: Step, ps: seq<Position>): (r: seq<Position>)
    ensures |r| == |ps|
    ensures forall i :: 0 <= i < |ps| ==> r[i] == [s] + ps[i]
  {
    seq(|ps|, i requires 0 <= i < |ps| => [s] + ps[i])
  }
}
