/**
 The findings report: complete, without repetition, innermost first, and a function of the
 signed bytes (src/visualsign/src/anchorage_render.rs).
 */
module RenderReport {
  import opened Wrappers
  import opened Decimals
  import opened Payload
  import opened Wire
  import opened SignedBytes
  import opened Render

  // ----- Positions are exactly the unrenderable fields -----

  ghost predicate Reported(f: Field, pos: Position) {
    Resolve(f, pos).Some? && Unrenderable(Resolve(f, pos).value)
  }

  ghost predicate ReportedIn(items: seq<Annotated>, n: nat, slot: Slot, pos: Position)
    requires n <= |items|
  {
    pos != [] && pos[0].slot == slot && pos[0].index < n && Reported(items[pos[0].index].field, pos[1..])
  }

  lemma {:induction false} ResolveJoin(f: Field, p: Position, q: Position)
    requires Resolve(f, p).Some?
    ensures Resolve(f, p + q) == Resolve(Resolve(f, p).value, q)
    decreases |p|
  {
    if p == [] {
      assert p + q == q;
    } else {
      assert (p + q)[0] == p[0] && (p + q)[1..] == p[1..] + q;
      ResolveJoin(ListAt(f.body, p[0].slot)[p[0].index].field, p[1..], q);
    }
  }

  lemma UnrenderableAbove(f: Field, pos: Position)
    requires Reported(f, pos)
    ensures Unrenderable(f)
  {
    var q :| BadAt(Resolve(f, pos).value, q);
    ResolveJoin(f, pos, q);
    assert BadAt(f, pos + q);
  }

  lemma UnrenderableChild(f: Field) returns (s: Step)
    requires f.body.PreviewLayout? && Unrenderable(f)
    ensures Reported(f, [s])
  {
    var pos :| BadAt(f, pos);
    s := pos[0];
    var child := ListAt(f.body, s.slot)[s.index].field;
    assert BadAt(child, pos[1..]);
    assert Resolve(f, [s]) == Some(child);
  }

  lemma UnrenderableInItself(f: Field)
    requires !f.body.PreviewLayout?
    ensures Unrenderable(f) <==> BadInItself(f)
  {
    assert BadAt(f, []) <==> BadInItself(f);
    assert forall pos: Position :: pos != [] ==> Resolve(f, pos) == None;
  }

  lemma BelowMember(s: Step, ps: seq<Position>, pos: Position)
    ensures pos in Below(s, ps) <==> pos != [] && pos[0] == s && pos[1..] in ps
  {
    var below := Below(s, ps);
    if pos in below {
      var i :| 0 <= i < |ps| && below[i] == pos;
      assert pos[1..] == ps[i];
    }
    if pos != [] && pos[0] == s && pos[1..] in ps {
      var i :| 0 <= i < |ps| && ps[i] == pos[1..];
      assert pos == [s] + pos[1..];
      assert below[i] == pos;
    }
  }

  lemma {:induction false} ListPositionsExact(items: seq<Annotated>, n: nat, slot: Slot, pos: Position)
    requires n <= |items|
    ensures pos in ListPositions(items, n, slot) <==> ReportedIn(items, n, slot, pos)
    decreases items, n
  {
    if n > 0 {
      ListPositionsExact(items, n - 1, slot, pos);
      BelowMember(Step(slot, n - 1), AnnotatedPositions(items[n - 1]), pos);
      if pos != [] { AnnotatedPositionsExact(items[n - 1], pos[1..]); }
    }
  }

  lemma {:induction false} AnnotatedPositionsExact(a: Annotated, pos: Position)
    ensures pos in AnnotatedPositions(a) <==> Reported(a.field, pos)
    decreases a
  {
    PositionsExact(a.field, pos);
  }

  lemma {:induction false} OptionalPositionsExact(f: Field, slot: Slot, list: OptionalList, pos: Position)
    requires f.body.PreviewLayout?
    requires (slot == InCondensed && list == f.body.condensed) || (slot == InExpanded && list == f.body.expanded)
    ensures pos in OptionalPositions(list, slot) <==> pos != [] && pos[0].slot == slot && Reported(f, pos)
    decreases list
  {
    if list.Listed? { ListPositionsExact(list.items, |list.items|, slot, pos); }
  }

  ghost function NestedPositions(f: Field): (r: seq<Position>)
    requires f.body.PreviewLayout?
  {
    OptionalPositions(f.body.condensed, InCondensed) + OptionalPositions(f.body.expanded, InExpanded)
  }

  lemma {:induction false} NestedExact(f: Field, pos: Position)
    requires f.body.PreviewLayout?
    ensures pos in NestedPositions(f) <==> pos != [] && Reported(f, pos)
    decreases f, 0
  {
    OptionalPositionsExact(f, InCondensed, f.body.condensed, pos);
    OptionalPositionsExact(f, InExpanded, f.body.expanded, pos);
    if pos != [] && pos[0].slot == TopLevel { assert Resolve(f, pos) == None; }
  }

  /** A field is listed exactly when something at or below it is not renderable. */
  lemma {:induction false} PositionsExact(f: Field, pos: Position)
    ensures pos in Positions(f) <==> Reported(f, pos)
    decreases f, 1
  {
    if f.body.PreviewLayout? {
      var nested := NestedPositions(f);
      NestedExact(f, pos);
      if nested != [] {
        NestedExact(f, nested[0]);
        UnrenderableAbove(f, nested[0]);
      } else if Unrenderable(f) {
        var s := UnrenderableChild(f);
        NestedExact(f, [s]);
      }
      assert Resolve(f, []) == Some(f);
    } else {
      UnrenderableInItself(f);
      assert pos != [] ==> Resolve(f, pos) == None;
    }
  }

  // ----- Each once, innermost first -----

  /** No position is followed by itself or by one below it. */
  ghost predicate Innermost(ps: seq<Position>) {
    forall i, j :: 0 <= i < j < |ps| ==> !(ps[i] <= ps[j])
  }

  lemma InnermostAppend(s: seq<Position>, t: seq<Position>)
    requires Innermost(s) && Innermost(t)
    requires forall a, b :: a in s && b in t ==> !(a <= b)
    ensures Innermost(s + t)
  {
    var r := s + t;
    forall i, j | 0 <= i < j < |r| ensures !(r[i] <= r[j]) {
      if i < |s| && |s| <= j { assert r[i] in s && r[j] in t; }
    }
  }

  lemma InnermostBelow(s: Step, ps: seq<Position>)
    requires Innermost(ps)
    ensures Innermost(Below(s, ps))
  {
    var below := Below(s, ps);
    forall i, j | 0 <= i < j < |below| ensures !(below[i] <= below[j]) {
      PrefixBelow(s, ps[i], ps[j]);
    }
  }

  lemma PrefixBelow(s: Step, a: Position, b: Position)
    ensures [s] + a <= [s] + b <==> a <= b
  {
    if [s] + a <= [s] + b {
      assert forall k :: 0 <= k < |a| ==> a[k] == ([s] + a)[k + 1] && b[k] == ([s] + b)[k + 1];
    }
  }

  lemma {:induction false} ListInnermost(items: seq<Annotated>, n: nat, slot: Slot)
    requires n <= |items|
    ensures Innermost(ListPositions(items, n, slot))
    decreases items, n
  {
    if n > 0 {
      ListInnermost(items, n - 1, slot);
      AnnotatedInnermost(items[n - 1]);
      var s := ListPositions(items, n - 1, slot);
      forall a: Position | a in s ensures a != [] && a[0].slot == slot && a[0].index < n - 1 {
        ListPositionsExact(items, n - 1, slot, a);
      }
      InnermostNext(s, Step(slot, n - 1), AnnotatedPositions(items[n - 1]));
    }
  }

  lemma InnermostNext(s: seq<Position>, next: Step, ps: seq<Position>)
    requires Innermost(s) && Innermost(ps)
    requires forall a: Position :: a in s ==> a != [] && a[0].slot == next.slot && a[0].index < next.index
    ensures Innermost(s + Below(next, ps))
  {
    InnermostBelow(next, ps);
    forall a, b | a in s && b in Below(next, ps) ensures !(a <= b) {
      BelowMember(next, ps, b);
      assert a[0] != b[0];
    }
    InnermostAppend(s, Below(next, ps));
  }

  lemma {:induction false} AnnotatedInnermost(a: Annotated)
    ensures Innermost(AnnotatedPositions(a))
    decreases a
  {
    PositionsInnermost(a.field);
  }

  lemma {:induction false} OptionalInnermost(list: OptionalList, slot: Slot)
    ensures Innermost(OptionalPositions(list, slot))
    decreases list
  {
    if list.Listed? { ListInnermost(list.items, |list.items|, slot); }
  }

  lemma {:induction false} PositionsInnermost(f: Field)
    ensures Innermost(Positions(f))
    decreases f
  {
    if f.body.PreviewLayout? {
      var s, t := OptionalPositions(f.body.condensed, InCondensed), OptionalPositions(f.body.expanded, InExpanded);
      OptionalInnermost(f.body.condensed, InCondensed);
      OptionalInnermost(f.body.expanded, InExpanded);
      forall a, b | a in s && b in t ensures !(a <= b) {
        OptionalPositionsExact(f, InCondensed, f.body.condensed, a);
        OptionalPositionsExact(f, InExpanded, f.body.expanded, b);
        assert a[0] != b[0];
      }
      InnermostAppend(s, t);
      forall a | a in s + t ensures a != [] { NestedExact(f, a); }
      InnermostAppend(s + t, [[]]);
    }
  }

  // ----- Paths -----

  lemma StepTextPrefixFree(s: Step, x: string, t: Step, y: string)
    requires StepText(s) + x == StepText(t) + y
    ensures s == t && x == y
  {
    var text := StepText(s) + x;
    var p, q := SlotText(s.slot), SlotText(t.slot);
    assert text == p + (OfNat(s.index) + ([']'] + x)) by { assert "]" == [']']; }
    assert text == q + (OfNat(t.index) + ([']'] + y)) by { assert "]" == [']']; }
    assert text[0] == p[0] == q[0];
    assert text[1] == p[1] == q[1];
    assert p == q;
    assert text[|p|..] == OfNat(s.index) + ([']'] + x) && text[|p|..] == OfNat(t.index) + ([']'] + y);
    OfNatPrefixFree(s.index, [']'] + x, t.index, [']'] + y);
    assert ([']'] + x)[1..] == x && ([']'] + y)[1..] == y;
  }

  lemma PositionTextHead(p: Position)
    ensures PositionText(p) == "" <==> p == []
    ensures p != [] ==> PositionText(p) == StepText(p[0]) + PositionText(p[1..])
  {
  }

  /** A path names one position only. */
  lemma {:induction false} PositionTextInjective(p: Position, q: Position)
    requires PositionText(p) == PositionText(q)
    ensures p == q
    decreases |p|
  {
    PositionTextHead(p);
    PositionTextHead(q);
    if p != [] && q != [] {
      StepTextPrefixFree(p[0], PositionText(p[1..]), q[0], PositionText(q[1..]));
      PositionTextInjective(p[1..], q[1..]);
      assert p == [p[0]] + p[1..] && q == [q[0]] + q[1..];
    }
  }

  /** The path of a position, spelled out. */
  function PathOf(pos: Position): (t: string) {
    if pos == [] then ""
    else
      (match pos[0].slot
       case TopLevel => "Fields["
       case InCondensed => ".Condensed.Fields["
       case InExpanded => ".Expanded.Fields[")
      + OfNat(pos[0].index) + "]" + PathOf(pos[1..])
  }

  lemma {:induction false} PathReads(pos: Position)
    ensures PositionText(pos) == PathOf(pos)
  {
    if pos != [] {
      PathReads(pos[1..]);
      assert SlotText(pos[0].slot) + (OfNat(pos[0].index) + "]") == SlotText(pos[0].slot) + OfNat(pos[0].index) + "]";
    }
  }

  // ----- The findings are the positions -----

  function ReasonFor(f: Field): (r: Reason) {
    match f.body
    case PreviewLayout(_, _, _, _) => ContainsUnsupportedNestedFields
    case ListLayout(_) => ListLayoutAsStandaloneField
    case _ => UnsupportedFieldType
  }

  /** The lists are related one by one. */
  ghost predicate Paired(findings: seq<Finding>, ps: seq<Position>, rel: (Finding, Position) -> bool) {
    |findings| == |ps| && forall i :: 0 <= i < |ps| ==> rel(findings[i], ps[i])
  }

  lemma PairedAppend(a: seq<Finding>, ps: seq<Position>, b: seq<Finding>, qs: seq<Position>, rel: (Finding, Position) -> bool)
    requires Paired(a, ps, rel) && Paired(b, qs, rel)
    ensures Paired(a + b, ps + qs, rel)
  {
  }

  lemma PairedBelow(findings: seq<Finding>, ps: seq<Position>, s: Step,
                    below: (Finding, Position) -> bool, above: (Finding, Position) -> bool)
    requires Paired(findings, ps, below)
    requires forall d, pos :: below(d, pos) ==> above(d, [s] + pos)
    ensures Paired(findings, Below(s, ps), above)
  {
  }

  /** The finding has the path of the position, and the type, label and reason of the field there. */
  ghost predicate Describes(finding: Finding, f: Field, path: string, pos: Position) {
    && Resolve(f, pos).Some?
    && finding == MakeFinding(path + PositionText(pos), Resolve(f, pos).value, ReasonFor(Resolve(f, pos).value))
  }

  ghost function Description(f: Field, path: string): (rel: (Finding, Position) -> bool) {
    (finding, pos) => Describes(finding, f, path, pos)
  }

  /** `findings` describe the fields at `ps`, below `path`, one by one. */
  ghost predicate Describe(findings: seq<Finding>, f: Field, path: string, ps: seq<Position>) {
    Paired(findings, ps, Description(f, path))
  }

  lemma DescribesBelow(finding: Finding, f: Field, s: Step, path: string, pos: Position)
    requires s.index < |ListAt(f.body, s.slot)|
    requires Describes(finding, ListAt(f.body, s.slot)[s.index].field, path + StepText(s), pos)
    ensures Describes(finding, f, path, [s] + pos)
  {
    assert ([s] + pos)[1..] == pos;
    assert path + (StepText(s) + PositionText(pos)) == (path + StepText(s)) + PositionText(pos);
  }

  lemma DescribeBelow(findings: seq<Finding>, f: Field, s: Step, path: string, ps: seq<Position>)
    requires s.index < |ListAt(f.body, s.slot)|
    requires Describe(findings, ListAt(f.body, s.slot)[s.index].field, path + StepText(s), ps)
    ensures Describe(findings, f, path, Below(s, ps))
  {
    var child := ListAt(f.body, s.slot)[s.index].field;
    forall d, pos | Description(child, path + StepText(s))(d, pos) ensures Description(f, path)(d, [s] + pos) {
      DescribesBelow(d, f, s, path, pos);
    }
    PairedBelow(findings, ps, s, Description(child, path + StepText(s)), Description(f, path));
  }

  lemma DescribeSelf(f: Field, path: string)
    ensures Describe([MakeFinding(path, f, ReasonFor(f))], f, path, [[]])
  {
    assert path + "" == path;
    assert Resolve(f, []) == Some(f);
    assert Describes(MakeFinding(path, f, ReasonFor(f)), f, path, []);
  }

  lemma {:induction false} ListDescribed(f: Field, slot: Slot, list: OptionalList, n: nat, path: string)
    requires list.Listed? && ListAt(f.body, slot) == list.items && n <= |list.items|
    ensures Describe(ListFindings(list.items, n, slot, path), f, path, ListPositions(list.items, n, slot))
    decreases list, n
  {
    if n > 0 {
      ListDescribed(f, slot, list, n - 1, path);
      var s, child := Step(slot, n - 1), list.items[n - 1];
      AnnotatedDescribed(child, path + StepText(s));
      DescribeNext(ListFindings(list.items, n - 1, slot, path), ListPositions(list.items, n - 1, slot), f, s, path,
                   AnnotatedFindings(child, path + StepText(s)), AnnotatedPositions(child));
    }
  }

  lemma DescribeNext(a: seq<Finding>, ps: seq<Position>, f: Field, s: Step, path: string,
                     b: seq<Finding>, qs: seq<Position>)
    requires Describe(a, f, path, ps)
    requires s.index < |ListAt(f.body, s.slot)|
    requires Describe(b, ListAt(f.body, s.slot)[s.index].field, path + StepText(s), qs)
    ensures Describe(a + b, f, path, ps + Below(s, qs))
  {
    DescribeBelow(b, f, s, path, qs);
    PairedAppend(a, ps, b, Below(s, qs), Description(f, path));
  }

  lemma {:induction false} AnnotatedDescribed(a: Annotated, path: string)
    ensures Describe(AnnotatedFindings(a, path), a.field, path, AnnotatedPositions(a))
    decreases a
  {
    FindingsDescribed(a.field, path);
  }

  lemma {:induction false} OptionalDescribed(f: Field, slot: Slot, list: OptionalList, path: string)
    requires f.body.PreviewLayout?
    requires (slot == InCondensed && list == f.body.condensed) || (slot == InExpanded && list == f.body.expanded)
    ensures Describe(OptionalFindings(list, slot, path), f, path, OptionalPositions(list, slot))
    decreases list
  {
    if list.Listed? { ListDescribed(f, slot, list, |list.items|, path); }
  }

  lemma {:induction false} FindingsDescribed(f: Field, path: string)
    ensures Describe(Findings(f, path), f, path, Positions(f))
    decreases f
  {
    DescribeSelf(f, path);
    if f.body.PreviewLayout? {
      OptionalDescribed(f, InCondensed, f.body.condensed, path);
      OptionalDescribed(f, InExpanded, f.body.expanded, path);
      var a, b := OptionalFindings(f.body.condensed, InCondensed, path), OptionalFindings(f.body.expanded, InExpanded, path);
      PairedAppend(a, OptionalPositions(f.body.condensed, InCondensed),
                   b, OptionalPositions(f.body.expanded, InExpanded), Description(f, path));
      PairedAppend(a + b, NestedPositions(f), [MakeFinding(path, f, ReasonFor(f))], [[]], Description(f, path));
    } else {
      LeafFindings(f, path);
    }
  }

  lemma LeafFindings(f: Field, path: string)
    requires !f.body.PreviewLayout?
    ensures Findings(f, path) == if BadInItself(f) then [MakeFinding(path, f, ReasonFor(f))] else []
  {
    WireTypeIsTag(f);
    assert forall t :: t in RenderableLeafTypes <==> t in {"text_v2", "address_v2", "amount_v2", "diagnostic"};
  }

  // ----- The whole payload -----

  function ResolveIn(fields: seq<Field>, pos: Position): (r: Option<Field>) {
    if pos != [] && pos[0].slot == TopLevel && pos[0].index < |fields|
    then Resolve(fields[pos[0].index], pos[1..]) else None
  }

  ghost function FieldsPositions(fields: seq<Field>, n: nat): (r: seq<Position>)
    requires n <= |fields|
  {
    if n == 0 then []
    else FieldsPositions(fields, n - 1) + Below(Step(TopLevel, n - 1), Positions(fields[n - 1]))
  }

  ghost predicate ReportedTop(fields: seq<Field>, n: nat, pos: Position) {
    && pos != [] && pos[0].index < n
    && ResolveIn(fields, pos).Some? && Unrenderable(ResolveIn(fields, pos).value)
  }

  lemma {:induction false} FieldsPositionsExact(fields: seq<Field>, n: nat, pos: Position)
    requires n <= |fields|
    ensures pos in FieldsPositions(fields, n) <==> ReportedTop(fields, n, pos)
  {
    if n > 0 {
      FieldsPositionsExact(fields, n - 1, pos);
      BelowMember(Step(TopLevel, n - 1), Positions(fields[n - 1]), pos);
      if pos != [] { PositionsExact(fields[n - 1], pos[1..]); }
      ReportedTopStep(fields, n, pos);
    }
  }

  lemma ReportedTopStep(fields: seq<Field>, n: nat, pos: Position)
    requires 0 < n <= |fields|
    ensures ReportedTop(fields, n, pos) <==>
            || ReportedTop(fields, n - 1, pos)
            || (pos != [] && pos[0] == Step(TopLevel, n - 1) && Reported(fields[n - 1], pos[1..]))
  {
  }

  lemma {:induction false} FieldsInnermost(fields: seq<Field>, n: nat)
    requires n <= |fields|
    ensures Innermost(FieldsPositions(fields, n))
  {
    if n > 0 {
      FieldsInnermost(fields, n - 1);
      PositionsInnermost(fields[n - 1]);
      var s := FieldsPositions(fields, n - 1);
      forall a: Position | a in s ensures a != [] && a[0].slot == TopLevel && a[0].index < n - 1 {
        FieldsPositionsExact(fields, n - 1, a);
      }
      InnermostNext(s, Step(TopLevel, n - 1), Positions(fields[n - 1]));
    }
  }

  ghost predicate DescribesTop(finding: Finding, fields: seq<Field>, pos: Position) {
    && ResolveIn(fields, pos).Some?
    && finding == MakeFinding(PositionText(pos), ResolveIn(fields, pos).value, ReasonFor(ResolveIn(fields, pos).value))
  }

  ghost function TopDescription(fields: seq<Field>): (rel: (Finding, Position) -> bool) {
    (finding, pos) => DescribesTop(finding, fields, pos)
  }

  /** `findings` describe the fields of a payload at `ps`, one by one. */
  ghost predicate DescribeTop(findings: seq<Finding>, fields: seq<Field>, ps: seq<Position>) {
    Paired(findings, ps, TopDescription(fields))
  }

  lemma DescribesTopBelow(finding: Finding, fields: seq<Field>, i: nat, pos: Position)
    requires i < |fields| && Describes(finding, fields[i], StepText(Step(TopLevel, i)), pos)
    ensures DescribesTop(finding, fields, [Step(TopLevel, i)] + pos)
  {
    assert ([Step(TopLevel, i)] + pos)[1..] == pos;
  }

  lemma DescribeTopBelow(findings: seq<Finding>, fields: seq<Field>, i: nat, ps: seq<Position>)
    requires i < |fields| && Describe(findings, fields[i], StepText(Step(TopLevel, i)), ps)
    ensures DescribeTop(findings, fields, Below(Step(TopLevel, i), ps))
  {
    var s := Step(TopLevel, i);
    forall d, pos | Description(fields[i], StepText(s))(d, pos) ensures TopDescription(fields)(d, [s] + pos) {
      DescribesTopBelow(d, fields, i, pos);
    }
    PairedBelow(findings, ps, s, Description(fields[i], StepText(s)), TopDescription(fields));
  }

  lemma {:induction false} FieldsDescribed(fields: seq<Field>, n: nat)
    requires n <= |fields|
    ensures DescribeTop(FieldsFindings(fields, n), fields, FieldsPositions(fields, n))
  {
    if n > 0 {
      var s := Step(TopLevel, n - 1);
      FieldsDescribed(fields, n - 1);
      FindingsDescribed(fields[n - 1], StepText(s));
      DescribeTopNext(FieldsFindings(fields, n - 1), FieldsPositions(fields, n - 1), fields, n - 1,
                      Findings(fields[n - 1], StepText(s)), Positions(fields[n - 1]));
    }
  }

  lemma DescribeTopNext(a: seq<Finding>, ps: seq<Position>, fields: seq<Field>, i: nat,
                        b: seq<Finding>, qs: seq<Position>)
    requires DescribeTop(a, fields, ps)
    requires i < |fields| && Describe(b, fields[i], StepText(Step(TopLevel, i)), qs)
    ensures DescribeTop(a + b, fields, ps + Below(Step(TopLevel, i), qs))
  {
    DescribeTopBelow(b, fields, i, qs);
    PairedAppend(a, ps, b, Below(Step(TopLevel, i), qs), TopDescription(fields));
  }

  lemma TopPath(findings: seq<Finding>, fields: seq<Field>, ps: seq<Position>, i: nat)
    requires DescribeTop(findings, fields, ps) && i < |ps|
    ensures findings[i].path == PositionText(ps[i])
    ensures FindingTells(findings[i], fields, ps[i])
  {
    assert TopDescription(fields)(findings[i], ps[i]);
    PathReads(ps[i]);
    var f := ResolveIn(fields, ps[i]).value;
    WireTypeIsTag(f);
    TagRoundTrip(WireKind(f.body));
  }

  /** A finding spells the path of the field and carries its label, its type on the wire, and why it is there. */
  ghost predicate FindingTells(d: Finding, fields: seq<Field>, pos: Position) {
    && ResolveIn(fields, pos).Some?
    && var f := ResolveIn(fields, pos).value;
    && d.path == PathOf(pos)
    && d.caption == f.common.caption
    && KindOfTag(d.fieldType) == Some(WireKind(f.body))
    && (f.body.PreviewLayout? ==> d.reason == ContainsUnsupportedNestedFields)
    && (f.body.ListLayout? ==> d.reason == ListLayoutAsStandaloneField)
    && (!f.body.PreviewLayout? && !f.body.ListLayout? ==> d.reason == UnsupportedFieldType)
  }

  /**
   The report of a payload: one finding for each unrenderable field, described where it is, at
   a path of its own, and with everything below a container ahead of the container.
   */
  lemma ReportExact(p: SignablePayload)
    ensures DescribeTop(RenderFindings(p), p.fields, FieldsPositions(p.fields, |p.fields|))
    ensures |RenderFindings(p)| == |FieldsPositions(p.fields, |p.fields|)|
    ensures forall i :: 0 <= i < |RenderFindings(p)| ==>
                          FindingTells(RenderFindings(p)[i], p.fields, FieldsPositions(p.fields, |p.fields|)[i])
    ensures forall pos :: pos in FieldsPositions(p.fields, |p.fields|) <==>
                          ResolveIn(p.fields, pos).Some? && Unrenderable(ResolveIn(p.fields, pos).value)
    ensures Innermost(FieldsPositions(p.fields, |p.fields|))
    ensures forall i, j :: 0 <= i < j < |RenderFindings(p)| ==>
                             RenderFindings(p)[i].path != RenderFindings(p)[j].path
  {
    var ps, findings := FieldsPositions(p.fields, |p.fields|), RenderFindings(p);
    FieldsDescribed(p.fields, |p.fields|);
    FieldsInnermost(p.fields, |p.fields|);
    forall pos ensures pos in ps <==> ReportedTop(p.fields, |p.fields|, pos) {
      FieldsPositionsExact(p.fields, |p.fields|, pos);
    }
    forall i | 0 <= i < |findings| ensures FindingTells(findings[i], p.fields, ps[i]) {
      TopPath(findings, p.fields, ps, i);
    }
    forall i, j | 0 <= i < j < |findings| ensures findings[i].path != findings[j].path {
      TopPath(findings, p.fields, ps, i);
      TopPath(findings, p.fields, ps, j);
      if PositionText(ps[i]) == PositionText(ps[j]) {
        PositionTextInjective(ps[i], ps[j]);
        assert false;
      }
    }
  }

  /** Wherever an unrenderable field is, the report has a finding for it. */
  lemma FindingAt(p: SignablePayload, pos: Position) returns (d: Finding)
    requires ResolveIn(p.fields, pos).Some? && Unrenderable(ResolveIn(p.fields, pos).value)
    ensures d in RenderFindings(p) && FindingTells(d, p.fields, pos)
  {
    ReportExact(p);
    var ps := FieldsPositions(p.fields, |p.fields|);
    assert pos in ps;
    var i :| 0 <= i < |ps| && ps[i] == pos;
    d := RenderFindings(p)[i];
  }

  /** The paths of top-level fields and of the fields in their condensed and expanded lists. */
  lemma FindingPaths(p: SignablePayload, i: nat, list: OptionalList, j: nat, condensed: bool)
    requires i < |p.fields| && p.fields[i].body.PreviewLayout?
    requires list == if condensed then p.fields[i].body.condensed else p.fields[i].body.expanded
    requires list.Listed? && j < |list.items| && Unrenderable(list.items[j].field)
    ensures exists d :: d in RenderFindings(p) && d.caption == list.items[j].field.common.caption
                        && d.path == "Fields[" + OfNat(i) + "]" + (if condensed then ".Condensed.Fields[" else ".Expanded.Fields[")
                                     + OfNat(j) + "]"
    ensures exists d :: d in RenderFindings(p) && d.caption == p.fields[i].common.caption
                        && d.path == "Fields[" + OfNat(i) + "]" && d.reason == ContainsUnsupportedNestedFields
  {
    var outer, inner := Step(TopLevel, i), Step(if condensed then InCondensed else InExpanded, j);
    assert [outer, inner][1..] == [inner] && [inner][1..] == [] && [outer][1..] == [];
    assert Resolve(p.fields[i], [inner]) == Some(list.items[j].field);
    UnrenderableAbove(p.fields[i], [inner]);
    var d := FindingAt(p, [outer, inner]);
    var e := FindingAt(p, [outer]);
    PathOfOne(outer);
    PathOfTwo(outer, inner);
  }

  lemma PathOfOne(s: Step)
    requires s.slot == TopLevel
    ensures PathOf([s]) == "Fields[" + OfNat(s.index) + "]"
  {
    assert [s][1..] == [];
    assert "Fields[" + OfNat(s.index) + "]" + "" == "Fields[" + OfNat(s.index) + "]";
  }

  lemma PathOfTwo(s: Step, t: Step)
    requires s.slot == TopLevel && t.slot != TopLevel
    ensures PathOf([s, t]) == "Fields[" + OfNat(s.index) + "]"
                              + (if t.slot == InCondensed then ".Condensed.Fields[" else ".Expanded.Fields[") + OfNat(t.index) + "]"
  {
    var slot := if t.slot == InCondensed then ".Condensed.Fields[" else ".Expanded.Fields[";
    assert [s, t][1..] == [t] && [t][1..] == [];
    assert PathOf([t]) == slot + OfNat(t.index) + "]" + "";
    JoinPath("Fields[" + OfNat(s.index) + "]", slot, OfNat(t.index));
  }

  lemma JoinPath(front: string, slot: string, digits: string)
    ensures front + (slot + digits + "]" + "") == front + slot + digits + "]"
  {
  }

  // ----- A function of the signed bytes -----

  lemma NormalWireType(f: Field)
    ensures WireType(NormalField(f)) == WireType(f)
    ensures ReasonFor(NormalField(f)) == ReasonFor(f)
    ensures BadInItself(NormalField(f)) <==> BadInItself(f)
  {
    WireTypeIsTag(f);
    WireTypeIsTag(NormalField(f));
    NormalKind(f.common, f.body);
  }

  lemma NormalKind(common: Common, body: Body)
    ensures WireKind(NormalBody(common, body)) == WireKind(body)
    ensures NormalBody(common, body).ListLayout? <==> body.ListLayout?
    ensures NormalBody(common, body).PreviewLayout? <==> body.PreviewLayout?
  {
  }

  lemma {:induction false} NormalFieldFindings(f: Field, path: string)
    ensures Findings(NormalField(f), path) == Findings(f, path)
    decreases f
  {
    NormalWireType(f);
    if f.body.PreviewLayout? {
      NormalOptionalFindings(f.body.condensed, InCondensed, path);
      NormalOptionalFindings(f.body.expanded, InExpanded, path);
    } else {
      LeafFindings(f, path);
      LeafFindings(NormalField(f), path);
    }
  }

  lemma {:induction false} NormalOptionalFindings(list: OptionalList, slot: Slot, path: string)
    ensures OptionalFindings(Listed(if list.Listed? then NormalList(list.items) else []), slot, path) ==
            OptionalFindings(list, slot, path)
    decreases list
  {
    if list.Listed? { NormalListFindings(list, |list.items|, slot, path); }
  }

  lemma {:induction false} NormalListFindings(list: OptionalList, n: nat, slot: Slot, path: string)
    requires list.Listed? && n <= |list.items|
    ensures ListFindings(NormalList(list.items), n, slot, path) == ListFindings(list.items, n, slot, path)
    decreases list, n
  {
    if n > 0 {
      NormalListFindings(list, n - 1, slot, path);
      NormalAnnotatedFindings(list.items[n - 1], path + StepText(Step(slot, n - 1)));
    }
  }

  lemma {:induction false} NormalAnnotatedFindings(a: Annotated, path: string)
    ensures AnnotatedFindings(NormalAnnotated(a), path) == AnnotatedFindings(a, path)
    decreases a
  {
    NormalFieldFindings(a.field, path);
  }

  lemma {:induction false} NormalFieldsFindings(fields: seq<Field>, n: nat)
    requires n <= |fields|
    ensures FieldsFindings(NormalFields(fields), n) == FieldsFindings(fields, n)
  {
    if n > 0 {
      NormalFieldsFindings(fields, n - 1);
      assert NormalFields(fields)[n - 1] == NormalField(fields[n - 1]);
      NormalFieldFindings(fields[n - 1], StepText(Step(TopLevel, n - 1)));
    }
  }

  lemma NormalFindings(p: SignablePayload)
    ensures RenderFindings(NormalPayload(p)) == RenderFindings(p)
  {
    NormalFieldsFindings(p.fields, |p.fields|);
  }

  /** Payloads with the same signed bytes have the same findings. */
  lemma SameBytesSameFindings(p: SignablePayload, q: SignablePayload)
    requires ToJson(p) == ToJson(q)
    ensures RenderFindings(p) == RenderFindings(q)
  {
    SameBytesSameNormalForm(p, q);
    NormalFindings(p);
    NormalFindings(q);
  }
}
