/**
 Which deployments `prune` deletes (tools/tvc-deploy/src/invite.rs).
 */
module Retention {
  import opened Wrappers
  import opened Texts
  import opened OrderedSeqs

  datatype ParsedDeployment = ParsedDeployment(id: string, isLive: bool)

  datatype DatedDeployment = DatedDeployment(id: string, createdAt: int)

  // ----- Reading the status listing -----

  function Lines(s: string): (r: seq<string>) {
    if s == [] then []
    else
      var k := LineEnd(s);
      [s[..k]] + if k < |s| then Lines(s[k + 1..]) else []
  }

  /** The lines again, each with its line break. */
  function JoinLines(ls: seq<string>): (s: string) {
    if ls == [] then "" else ls[0] + ['\n'] + JoinLines(ls[1..])
  }

  /** The text ends its last line. */
  function Terminated(s: string): (r: string) {
    if s == "" || s[|s| - 1] == '\n' then s else s + ['\n']
  }

  /** The lines are what stands between line breaks; the last one may lack its own. */
  lemma {:induction false} LinesExact(s: string)
    ensures forall i :: 0 <= i < |Lines(s)| ==> '\n' !in Lines(s)[i]
    ensures JoinLines(Lines(s)) == Terminated(s)
    decreases |s|
  {
    if s != "" {
      var k := LineEnd(s);
      LineEndExact(s);
      if k < |s| {
        LinesExact(s[k + 1..]);
        JoinFirst(s[..k], Lines(s[k + 1..]));
        TerminatedRest(s, k);
      } else {
        JoinFirst(s, []);
        assert s[..k] == s && [s] + [] == [s];
        assert s[|s| - 1] in s;
      }
    }
  }

  lemma JoinFirst(line: string, more: seq<string>)
    ensures JoinLines([line] + more) == line + ['\n'] + JoinLines(more)
  {
    assert ([line] + more)[1..] == more;
  }

  lemma TerminatedRest(s: string, k: nat)
    requires k < |s| && s[k] == '\n'
    ensures Terminated(s) == s[..k] + ['\n'] + Terminated(s[k + 1..])
  {
    var rest := s[k + 1..];
    assert s == s[..k] + ['\n'] + rest;
    assert rest != "" ==> rest[|rest| - 1] == s[|s| - 1];
  }

  lemma {:induction false} LineEndExact(s: string)
    ensures '\n' !in s[..LineEnd(s)]
    ensures LineEnd(s) < |s| ==> s[LineEnd(s)] == '\n'
  {
    if s != [] && s[0] != '\n' {
      LineEndExact(s[1..]);
      assert s[..LineEnd(s)] == [s[0]] + s[1..][..LineEnd(s[1..])];
    }
  }

  function LineEnd(s: string): (k: nat)
    ensures k <= |s|
    ensures s != [] && s[0] != '\n' ==> k > 0
  {
    if s == [] || s[0] == '\n' then 0 else 1 + LineEnd(s[1..])
  }

  datatype Row = Header(target: Option<string>) | Listed(id: string) | Ignored

  function NonEmpty(s: string): (r: Option<string>) {
    if s == "" then None else Some(s)
  }

  function ParseRow(line: string): (row: Row) {
    var t := Trim(line);
    var header := StripPrefix(t, "Targeted Deployment:");
    if header.Some? then Header(NonEmpty(Trim(header.value)))
    else
      var entry := StripPrefix(t, "Deployment:");
      if entry.Some? && Trim(entry.value) != "" then Listed(Trim(entry.value)) else Ignored
  }

  function ParseRows(lines: seq<string>): (rows: seq<Row>) {
    seq(|lines|, i requires 0 <= i < |lines| => ParseRow(lines[i]))
  }

  /** The id of the last `Targeted Deployment:` header, if it names one. */
  function Targeted(rows: seq<Row>): (id: Option<string>) {
    if rows == [] then None
    else if rows[|rows| - 1].Header? then rows[|rows| - 1].target
    else Targeted(rows[..|rows| - 1])
  }

  /** The listed ids, in order. */
  function ListedIds(rows: seq<Row>): (ids: seq<string>) {
    if rows == [] then []
    else ListedIds(rows[..|rows| - 1]) + if rows[|rows| - 1].Listed? then [rows[|rows| - 1].id] else []
  }

  /** One row per id, live exactly if it is the targeted one. */
  function Flagged(ids: seq<string>, targeted: Option<string>): (r: seq<ParsedDeployment>) {
    seq(|ids|, i requires 0 <= i < |ids| => ParsedDeployment(ids[i], targeted == Some(ids[i])))
  }

  function Parsed(status: string): (r: seq<ParsedDeployment>) {
    Flagged(ListedIds(ParseRows(Lines(status))), Targeted(ParseRows(Lines(status))))
  }

  lemma RowStep(rows: seq<Row>, i: nat)
    requires i < |rows|
    ensures Targeted(rows[..i + 1]) == if rows[i].Header? then rows[i].target else Targeted(rows[..i])
    ensures ListedIds(rows[..i + 1]) == ListedIds(rows[..i]) + if rows[i].Listed? then [rows[i].id] else []
  {
    assert rows[..i + 1][..i] == rows[..i];
  }

  method CollectRows(lines: seq<string>) returns (ids: seq<string>, targeted: Option<string>)
    ensures ids == ListedIds(ParseRows(lines)) && targeted == Targeted(ParseRows(lines))
  {
    ghost var rows := ParseRows(lines);
    targeted, ids := None, [];
    for i := 0 to |lines|
      invariant targeted == Targeted(rows[..i])
      invariant ids == ListedIds(rows[..i])
    {
      RowStep(rows, i);
      var row := ParseRow(lines[i]);
      match row
      case Header(target) => targeted := target;
      case Listed(id) => ids := ids + [id];
      case Ignored =>
    }
    assert rows[..|lines|] == rows;
  }

  method FlagLive(ids: seq<string>, targeted: Option<string>) returns (r: seq<ParsedDeployment>)
    ensures r == Flagged(ids, targeted)
  {
    r := [];
    for i := 0 to |ids|
      invariant |r| == i
      invariant forall j :: 0 <= j < i ==> r[j] == ParsedDeployment(ids[j], targeted == Some(ids[j]))
    {
      r := r + [ParsedDeployment(ids[i], targeted == Some(ids[i]))];
    }
  }

  /** Collects the ids first and flags the live one once the last header is known. */
  method ParseDeployments(status: string) returns (deployments: seq<ParsedDeployment>)
    ensures deployments == Parsed(status)
  {
    var ids, targeted := CollectRows(Lines(status));
    deployments := FlagLive(ids, targeted);
  }

  // ----- The plan -----

  /** Newest first; among equally old ones the greater id first. */
  predicate Newer(a: DatedDeployment, b: DatedDeployment) {
    a.createdAt > b.createdAt || (a.createdAt == b.createdAt && Before(b.id, a.id))
  }

  lemma NewerStrictTotal()
    ensures StrictTotal(Newer)
  {
    BeforeStrictTotal();
    forall x, y, z: DatedDeployment
      ensures !Newer(x, x)
      ensures x == y || Newer(x, y) || Newer(y, x)
      ensures Newer(x, y) && Newer(y, z) ==> Newer(x, z)
    {
      BeforeTotal(x.id, x.id);
      BeforeTotal(x.id, y.id);
      if Newer(x, y) && Newer(y, z) && x.createdAt == z.createdAt { BeforeTransitive(z.id, y.id, x.id); }
    }
  }

  function LiveId(parsed: seq<ParsedDeployment>): (id: Option<string>) {
    if parsed == [] then None
    else if parsed[0].isLive then Some(parsed[0].id)
    else LiveId(parsed[1..])
  }

  /** The deployments whose age is known. */
  function Dated(parsed: seq<ParsedDeployment>, created: map<string, int>): (r: seq<DatedDeployment>) {
    if parsed == [] then []
    else
      (if parsed[0].id in created then [DatedDeployment(parsed[0].id, created[parsed[0].id])] else []) +
      Dated(parsed[1..], created)
  }

  function NonLive(ds: seq<DatedDeployment>, live: Option<string>): (r: seq<DatedDeployment>) {
    if ds == [] then []
    else (if live == Some(ds[0].id) then [] else [ds[0]]) + NonLive(ds[1..], live)
  }

  function Ids(ds: seq<DatedDeployment>): (r: seq<string>) {
    seq(|ds|, i requires 0 <= i < |ds| => ds[i].id)
  }

  /** Everything beyond the `keep` first of those that are not live. */
  function Beyond(ds: seq<DatedDeployment>, live: Option<string>, keep: nat): (r: seq<string>) {
    var candidates := NonLive(ds, live);
    if keep <= |candidates| then Ids(candidates[keep..]) else []
  }

  function Plan(parsed: seq<ParsedDeployment>, created: map<string, int>, keep: nat): (r: seq<string>) {
    Beyond(Sort(Dated(parsed, created), Newer), LiveId(parsed), keep)
  }

  lemma {:induction false} NonLiveAppend(ds: seq<DatedDeployment>, d: DatedDeployment, live: Option<string>)
    ensures NonLive(ds + [d], live) == NonLive(ds, live) + if live == Some(d.id) then [] else [d]
  {
    if ds == [] {
      assert ds + [d] == [d];
    } else {
      assert (ds + [d])[0] == ds[0] && (ds + [d])[1..] == ds[1..] + [d];
      NonLiveAppend(ds[1..], d, live);
    }
  }

  lemma BeyondStep(ds: seq<DatedDeployment>, i: nat, live: Option<string>, keep: nat)
    requires i < |ds|
    ensures NonLive(ds[..i + 1], live) == NonLive(ds[..i], live) + if live == Some(ds[i].id) then [] else [ds[i]]
    ensures Beyond(ds[..i + 1], live, keep) == Beyond(ds[..i], live, keep) +
                                               if live != Some(ds[i].id) && |NonLive(ds[..i], live)| >= keep then [ds[i].id] else []
  {
    assert ds[..i + 1] == ds[..i] + [ds[i]];
    NonLiveAppend(ds[..i], ds[i], live);
    if live != Some(ds[i].id) { BeyondOneMore(NonLive(ds[..i], live), ds[i], keep); }
  }

  lemma BeyondOneMore(cs: seq<DatedDeployment>, d: DatedDeployment, keep: nat)
    ensures (if keep <= |cs| + 1 then Ids((cs + [d])[keep..]) else []) ==
            (if keep <= |cs| then Ids(cs[keep..]) else []) + if |cs| >= keep then [d.id] else []
  {
    if keep <= |cs| { assert (cs + [d])[keep..] == cs[keep..] + [d]; }
  }

  method SelectForDeletion(ds: seq<DatedDeployment>, live: Option<string>, keep: nat) returns (r: seq<string>)
    ensures r == Beyond(ds, live, keep)
  {
    r := [];
    var rank := 0;
    for i := 0 to |ds|
      invariant rank == |NonLive(ds[..i], live)|
      invariant r == Beyond(ds[..i], live, keep)
    {
      BeyondStep(ds, i, live, keep);
      if live != Some(ds[i].id) {
        if rank >= keep { r := r + [ds[i].id]; }
        rank := rank + 1;
      }
    }
    assert ds[..|ds|] == ds;
  }

  datatype PruneError = KeepTooSmall | RefusedLive(id: string)

  /** Submits the deletions one by one, stopping at the live deployment. */
  method SubmitDeletions(toDelete: seq<string>, live: Option<string>) returns (r: Result<seq<string>, PruneError>)
    ensures r == if live.Some? && live.value in toDelete then Err(RefusedLive(live.value)) else Ok(toDelete)
  {
    var submitted := [];
    for i := 0 to |toDelete|
      invariant submitted == toDelete[..i]
      invariant live.Some? ==> live.value !in submitted
    {
      if live == Some(toDelete[i]) { return Err(RefusedLive(toDelete[i])); }
      submitted := submitted + [toDelete[i]];
    }
    assert submitted == toDelete;
    return Ok(submitted);
  }

  /** The deletions `prune` submits. The guard against deleting the live one never fires. */
  method Prune(status: string, created: map<string, int>, keep: int) returns (r: Result<seq<string>, PruneError>)
    ensures r == if keep < 1 then Err(KeepTooSmall) else Ok(Plan(Parsed(status), created, keep))
  {
    if keep < 1 { return Err(KeepTooSmall); }
    var parsed := ParseDeployments(status);
    if parsed == [] {
      EmptyPlan(created, keep);
      return Ok([]);
    }
    var sorted := Sort(Dated(parsed, created), Newer);
    var toDelete := SelectForDeletion(sorted, LiveId(parsed), keep);
    BeyondNotLive(sorted, LiveId(parsed), keep);
    r := SubmitDeletions(toDelete, LiveId(parsed));
  }

  lemma EmptyPlan(created: map<string, int>, keep: nat)
    ensures Plan([], created, keep) == []
  {
  }

  lemma {:induction false} NonLiveMembers(ds: seq<DatedDeployment>, live: Option<string>)
    ensures forall d :: d in NonLive(ds, live) <==> d in ds && live != Some(d.id)
  {
    if ds != [] {
      NonLiveMembers(ds[1..], live);
      assert ds == [ds[0]] + ds[1..];
    }
  }

  lemma BeyondNotLive(ds: seq<DatedDeployment>, live: Option<string>, keep: nat)
    ensures forall i :: 0 <= i < |Beyond(ds, live, keep)| ==> live != Some(Beyond(ds, live, keep)[i])
  {
    NonLiveMembers(ds, live);
    forall i | 0 <= i < |Beyond(ds, live, keep)| ensures live != Some(Beyond(ds, live, keep)[i]) {
      assert NonLive(ds, live)[keep + i] in NonLive(ds, live);
    }
  }

  // ----- What the plan deletes -----

  lemma {:induction false} DatedMembers(parsed: seq<ParsedDeployment>, created: map<string, int>)
    ensures forall d :: d in Dated(parsed, created) <==>
                        d.id in created && d.createdAt == created[d.id] && exists i :: 0 <= i < |parsed| && parsed[i].id == d.id
  {
    if parsed != [] {
      DatedMembers(parsed[1..], created);
      forall d ensures d in Dated(parsed, created) <==>
                       d.id in created && d.createdAt == created[d.id] && exists i :: 0 <= i < |parsed| && parsed[i].id == d.id
      {
        assert forall i :: 0 < i < |parsed| ==> parsed[i] == parsed[1..][i - 1];
      }
    }
  }

  /** How many rows that are not live are at least as new as `d`, its own rows included. */
  function AtLeastAsNew(ds: seq<DatedDeployment>, live: Option<string>, d: DatedDeployment): (n: nat) {
    if ds == [] then 0
    else (if live == Some(ds[0].id) || Newer(d, ds[0]) then 0 else 1) + AtLeastAsNew(ds[1..], live, d)
  }

  lemma {:induction false} CountAfterInsert(ds: seq<DatedDeployment>, x: DatedDeployment, live: Option<string>, d: DatedDeployment)
    ensures AtLeastAsNew(Insert(ds, x, Newer), live, d) == AtLeastAsNew([x], live, d) + AtLeastAsNew(ds, live, d)
  {
    assert [x][1..] == [];
    if ds == [] || Newer(x, ds[0]) {
      assert ([x] + ds)[1..] == ds;
    } else {
      CountAfterInsert(ds[1..], x, live, d);
      assert ([ds[0]] + Insert(ds[1..], x, Newer))[1..] == Insert(ds[1..], x, Newer);
    }
  }

  lemma {:induction false} CountAppend(ds: seq<DatedDeployment>, x: DatedDeployment, live: Option<string>, d: DatedDeployment)
    ensures AtLeastAsNew(ds + [x], live, d) == AtLeastAsNew(ds, live, d) + AtLeastAsNew([x], live, d)
  {
    if ds == [] {
      assert ds + [x] == [x];
    } else {
      assert (ds + [x])[1..] == ds[1..] + [x];
      CountAppend(ds[1..], x, live, d);
    }
  }

  lemma {:induction false} CountSorted(ds: seq<DatedDeployment>, live: Option<string>, d: DatedDeployment)
    ensures AtLeastAsNew(Sort(ds, Newer), live, d) == AtLeastAsNew(ds, live, d)
  {
    if ds != [] {
      var front, last := ds[..|ds| - 1], ds[|ds| - 1];
      assert ds == front + [last];
      CountSorted(front, live, d);
      CountAfterInsert(Sort(front, Newer), last, live, d);
      CountAppend(front, last, live, d);
    }
  }

  lemma {:induction false} CountNonLive(ds: seq<DatedDeployment>, live: Option<string>, d: DatedDeployment)
    ensures AtLeastAsNew(NonLive(ds, live), live, d) == AtLeastAsNew(ds, live, d)
  {
    if ds != [] {
      CountNonLive(ds[1..], live, d);
      if live == Some(ds[0].id) {
        assert [] + NonLive(ds[1..], live) == NonLive(ds[1..], live);
      } else {
        assert ([ds[0]] + NonLive(ds[1..], live))[1..] == NonLive(ds[1..], live);
      }
    }
  }

  lemma {:induction false} NoneAsNew(ds: seq<DatedDeployment>, live: Option<string>, d: DatedDeployment)
    requires forall e :: e in ds ==> Newer(d, e)
    ensures AtLeastAsNew(ds, live, d) == 0
  {
    if ds != [] { NoneAsNew(ds[1..], live, d); }
  }

  /** In a newest-first list without the live one, `d` is beyond the `keep` first exactly by its count. */
  lemma {:induction false} BeyondByCount(cs: seq<DatedDeployment>, live: Option<string>, keep: nat, d: DatedDeployment)
    requires StrictTotal(Newer) && Ordered(cs, Newer) && d in cs
    requires forall e :: e in cs ==> live != Some(e.id)
    ensures (keep < |cs| && d in cs[keep..]) <==> AtLeastAsNew(cs, live, d) > keep
  {
    var t := cs[1..];
    assert cs == [cs[0]] + t;
    var k :| 0 <= k < |cs| && cs[k] == d;
    assert !Newer(d, cs[0]);
    if keep > 0 {
      assert keep < |cs| ==> cs[keep..] == t[keep - 1..];
      if d in t {
        BeyondByCount(t, live, keep - 1, d);
      } else {
        forall e | e in t ensures Newer(d, e) {
          var j :| 0 <= j < |t| && t[j] == e;
          assert !Newer(cs[j + 1], cs[0]);
        }
        NoneAsNew(t, live, d);
      }
    }
  }

  lemma {:induction false} NonLiveOrdered(ds: seq<DatedDeployment>, live: Option<string>)
    requires Ordered(ds, Newer)
    ensures Ordered(NonLive(ds, live), Newer)
  {
    if ds != [] {
      var rest := ds[1..];
      assert forall i :: 0 <= i < |rest| ==> rest[i] == ds[i + 1];
      NonLiveOrdered(rest, live);
      NonLiveMembers(rest, live);
      var tail := NonLive(rest, live);
      forall i | 0 <= i < |tail| ensures !Newer(tail[i], ds[0]) {
        assert tail[i] in rest;
      }
    }
  }

  lemma BeyondExact(ds: seq<DatedDeployment>, live: Option<string>, keep: nat, d: DatedDeployment)
    requires forall e :: e in ds && e.id == d.id ==> e == d
    ensures d.id in Beyond(Sort(ds, Newer), live, keep) <==>
            d in ds && live != Some(d.id) && AtLeastAsNew(ds, live, d) > keep
  {
    var sorted := Sort(ds, Newer);
    var cs := NonLive(sorted, live);
    NewerStrictTotal();
    SortOrdered(ds, Newer);
    SortMembers(ds, Newer);
    SameMembers(sorted, ds);
    NonLiveMembers(sorted, live);
    NonLiveOrdered(sorted, live);
    CountSorted(ds, live, d);
    CountNonLive(sorted, live, d);
    BeyondIds(cs, keep, d);
    if d in cs { BeyondByCount(cs, live, keep, d); }
  }

  lemma BeyondIds(cs: seq<DatedDeployment>, keep: nat, d: DatedDeployment)
    requires forall e :: e in cs && e.id == d.id ==> e == d
    ensures d.id in (if keep <= |cs| then Ids(cs[keep..]) else []) <==> keep < |cs| && d in cs[keep..]
  {
    if keep < |cs| {
      var tail := cs[keep..];
      if d.id in Ids(tail) {
        var i :| 0 <= i < |tail| && Ids(tail)[i] == d.id;
        assert tail[i] in cs;
      }
      if d in tail {
        var i :| 0 <= i < |tail| && tail[i] == d;
        assert Ids(tail)[i] == d.id;
      }
    }
  }

  /** `x` was created before `y`, or at the same time and comes before it in alphabetical order. */
  ghost predicate Older(created: map<string, int>, x: string, y: string)
    requires x in created && y in created
  {
    created[x] < created[y] || (created[x] == created[y] && Precedes(x, y))
  }

  lemma NewerIsYounger(created: map<string, int>, x: string, y: string)
    requires x in created && y in created
    ensures Newer(DatedDeployment(y, created[y]), DatedDeployment(x, created[x])) <==> Older(created, x, y)
  {
    BeforeIsAlphabetical(x, y);
  }

  ghost predicate Names(parsed: seq<ParsedDeployment>, id: string) {
    exists i :: 0 <= i < |parsed| && parsed[i].id == id
  }

  /** How many dated rows that are not live are not older than `id`, its own rows included. */
  ghost function NotOlder(parsed: seq<ParsedDeployment>, created: map<string, int>, live: Option<string>, id: string): (n: nat)
    requires id in created
  {
    if parsed == [] then 0
    else
      var x := parsed[0].id;
      (if x in created && live != Some(x) && !Older(created, x, id) then 1 else 0) + NotOlder(parsed[1..], created, live, id)
  }

  lemma {:induction false} CountsAgree(parsed: seq<ParsedDeployment>, created: map<string, int>, live: Option<string>, id: string)
    requires id in created
    ensures NotOlder(parsed, created, live, id) ==
            AtLeastAsNew(Dated(parsed, created), live, DatedDeployment(id, created[id]))
  {
    if parsed != [] {
      CountsAgree(parsed[1..], created, live, id);
      var x, rest := parsed[0].id, Dated(parsed[1..], created);
      if x in created {
        NewerIsYounger(created, x, id);
        assert ([DatedDeployment(x, created[x])] + rest)[1..] == rest;
      } else {
        assert [] + rest == rest;
      }
    }
  }

  /**
   The plan deletes exactly the listed and dated deployments that are not live and have more than
   `keep` rows that are not older, their own included. Ids may be listed more than once.
   */
  lemma PlanExact(parsed: seq<ParsedDeployment>, created: map<string, int>, keep: nat, id: string)
    ensures id in Plan(parsed, created, keep) <==>
            && Names(parsed, id) && id in created && LiveId(parsed) != Some(id)
            && NotOlder(parsed, created, LiveId(parsed), id) > keep
  {
    DatedMembers(parsed, created);
    if id in created {
      BeyondExact(Dated(parsed, created), LiveId(parsed), keep, DatedDeployment(id, created[id]));
      CountsAgree(parsed, created, LiveId(parsed), id);
    } else {
      PlanIsDated(parsed, created, keep, id);
    }
  }

  lemma PlanIsDated(parsed: seq<ParsedDeployment>, created: map<string, int>, keep: nat, id: string)
    ensures id in Plan(parsed, created, keep) ==> id in created
  {
    var ds := Dated(parsed, created);
    DatedMembers(parsed, created);
    SortMembers(ds, Newer);
    SameMembers(Sort(ds, Newer), ds);
    NonLiveMembers(Sort(ds, Newer), LiveId(parsed));
    var cs := NonLive(Sort(ds, Newer), LiveId(parsed));
    if id in Plan(parsed, created, keep) {
      var i :| 0 <= i < |cs[keep..]| && Ids(cs[keep..])[i] == id;
      assert cs[keep..][i] in cs;
    }
  }

  /** The listing names each deployment once. */
  ghost predicate DistinctIds(parsed: seq<ParsedDeployment>) {
    forall i, j :: 0 <= i < j < |parsed| ==> parsed[i].id != parsed[j].id
  }

  /** The listed and dated ids, not live, that are younger than `id`. */
  ghost function Younger(parsed: seq<ParsedDeployment>, created: map<string, int>, live: Option<string>, id: string): (r: set<string>)
    requires id in created
  {
    set i | 0 <= i < |parsed| && parsed[i].id in created && live != Some(parsed[i].id) && Older(created, id, parsed[i].id)
      :: parsed[i].id
  }

  lemma YoungerCons(d: ParsedDeployment, rest: seq<ParsedDeployment>, created: map<string, int>, live: Option<string>, id: string)
    requires id in created && !Names(rest, d.id)
    ensures |Younger([d] + rest, created, live, id)| ==
            |Younger(rest, created, live, id)| + if d.id in created && live != Some(d.id) && Older(created, id, d.id) then 1 else 0
  {
    var all, less := Younger([d] + rest, created, live, id), Younger(rest, created, live, id);
    var counts := d.id in created && live != Some(d.id) && Older(created, id, d.id);
    forall x ensures x in all <==> x in less || (counts && x == d.id) {
      if x in less {
        var i :| 0 <= i < |rest| && rest[i].id == x;
        assert ([d] + rest)[i + 1].id == x;
      }
      if counts && x == d.id { assert ([d] + rest)[0].id == x; }
    }
    assert all == less + if counts then {d.id} else {};
  }

  lemma OlderTotal(created: map<string, int>, x: string, y: string)
    requires x in created && y in created
    ensures x == y || Older(created, x, y) || Older(created, y, x)
    ensures !(Older(created, x, y) && Older(created, y, x))
  {
    BeforeIsAlphabetical(x, y);
    BeforeIsAlphabetical(y, x);
    BeforeTotal(x, y);
  }

  lemma {:induction false} CountDistinct(parsed: seq<ParsedDeployment>, created: map<string, int>, live: Option<string>, id: string)
    requires id in created && DistinctIds(parsed)
    ensures NotOlder(parsed, created, live, id) ==
            |Younger(parsed, created, live, id)| + if Names(parsed, id) && live != Some(id) then 1 else 0
  {
    if parsed == [] {
      assert Younger(parsed, created, live, id) == {};
    } else {
      var d, rest := parsed[0], parsed[1..];
      assert parsed == [d] + rest;
      assert forall i :: 0 <= i < |rest| ==> rest[i] == parsed[i + 1];
      CountDistinct(rest, created, live, id);
      assert !Names(rest, d.id);
      YoungerCons(d, rest, created, live, id);
      ListedCons(d, rest, id);
      if d.id in created { OlderTotal(created, d.id, id); }
    }
  }

  lemma ListedCons(d: ParsedDeployment, rest: seq<ParsedDeployment>, id: string)
    ensures Names([d] + rest, id) <==> d.id == id || Names(rest, id)
  {
    var all := [d] + rest;
    if Names(rest, id) {
      var i :| 0 <= i < |rest| && rest[i].id == id;
      assert all[i + 1].id == id;
    }
    if d.id == id { assert all[0].id == id; }
  }

  /** When each id is listed once: those with at least `keep` younger ones that are not live. */
  lemma PlanExactDistinct(parsed: seq<ParsedDeployment>, created: map<string, int>, keep: nat, id: string)
    requires DistinctIds(parsed)
    ensures id in Plan(parsed, created, keep) <==>
            && Names(parsed, id) && id in created && LiveId(parsed) != Some(id)
            && |Younger(parsed, created, LiveId(parsed), id)| >= keep
  {
    PlanExact(parsed, created, keep, id);
    if id in created { CountDistinct(parsed, created, LiveId(parsed), id); }
  }

  lemma {:induction false} CountMonotone(parsed: seq<ParsedDeployment>, created: map<string, int>, live: Option<string>, x: string, y: string)
    requires x in created && y in created && Older(created, x, y)
    ensures NotOlder(parsed, created, live, y) <= NotOlder(parsed, created, live, x)
  {
    if parsed != [] {
      CountMonotone(parsed[1..], created, live, x, y);
      if parsed[0].id in created { OlderTransitive(created, parsed[0].id, x, y); }
    }
  }

  lemma OlderTransitive(created: map<string, int>, x: string, y: string, z: string)
    requires x in created && y in created && z in created
    ensures Older(created, x, y) && Older(created, y, z) ==> Older(created, x, z)
  {
    BeforeIsAlphabetical(x, y);
    BeforeIsAlphabetical(y, z);
    BeforeIsAlphabetical(x, z);
    if Before(x, y) && Before(y, z) { BeforeTransitive(x, y, z); }
  }

  /** Every dated deployment that is kept and not live was created after every one that is deleted, or wins the tie. */
  lemma KeptAreNewer(parsed: seq<ParsedDeployment>, created: map<string, int>, keep: nat, kept: string, gone: string)
    requires Names(parsed, kept) && kept in created && LiveId(parsed) != Some(kept) && kept !in Plan(parsed, created, keep)
    requires gone in Plan(parsed, created, keep)
    ensures gone in created
    ensures created[kept] > created[gone] || (created[kept] == created[gone] && Precedes(gone, kept))
  {
    PlanExact(parsed, created, keep, kept);
    PlanExact(parsed, created, keep, gone);
    OlderTotal(created, kept, gone);
    if Older(created, kept, gone) { CountMonotone(parsed, created, LiveId(parsed), kept, gone); }
  }

  /** Live and undated deployments are never in the plan. */
  lemma ProtectedSurvive(parsed: seq<ParsedDeployment>, created: map<string, int>, keep: nat, id: string)
    requires id !in created || LiveId(parsed) == Some(id)
    ensures id !in Plan(parsed, created, keep)
  {
    PlanExact(parsed, created, keep, id);
  }

  // ----- The order of the listing does not matter -----

  /** The live flags come from one targeted id. */
  ghost predicate OneLive(parsed: seq<ParsedDeployment>) {
    forall d, e :: d in parsed && e in parsed && d.isLive && e.isLive ==> d.id == e.id
  }

  lemma ParsedOneLive(status: string)
    ensures OneLive(Parsed(status))
  {
  }

  // ----- From the text of the listing -----

  lemma StripExact(t: string, prefix: string, rest: string)
    ensures StripPrefix(t, prefix) == Some(rest) <==> t == prefix + rest
  {
    if t == prefix + rest { assert prefix <= t && t[|prefix|..] == rest; }
  }

  /** Which lines are headers and which list a deployment. */
  lemma ParseRowExact(line: string, rest: string)
    ensures Trim(line) == "Targeted Deployment:" + rest ==>
              ParseRow(line) == Row.Header(if Trim(rest) == "" then None else Some(Trim(rest)))
    ensures Trim(line) == "Deployment:" + rest ==>
              ParseRow(line) == if Trim(rest) == "" then Ignored else Row.Listed(Trim(rest))
    ensures ParseRow(line).Header? ==> "Targeted Deployment:" <= Trim(line)
    ensures ParseRow(line).Listed? ==> "Deployment:" <= Trim(line)
  {
    var t := Trim(line);
    StripExact(t, "Targeted Deployment:", rest);
    StripExact(t, "Deployment:", rest);
    if t == "Deployment:" + rest { assert t[0] == 'D'; }
  }

  /** The last header names `id`. */
  ghost predicate LastHeader(rows: seq<Row>, id: string) {
    exists i :: 0 <= i < |rows| && rows[i] == Row.Header(Some(id)) && forall j :: i < j < |rows| ==> !rows[j].Header?
  }

  lemma {:induction false} TargetedExact(rows: seq<Row>, id: string)
    ensures Targeted(rows) == Some(id) <==> LastHeader(rows, id)
  {
    if rows != [] {
      var front, last := rows[..|rows| - 1], rows[|rows| - 1];
      TargetedExact(front, id);
      if last == Row.Header(Some(id)) { assert rows[|rows| - 1] == last; }
      if !last.Header? { LastHeaderBefore(rows, id); }
    }
  }

  lemma LastHeaderBefore(rows: seq<Row>, id: string)
    requires rows != [] && !rows[|rows| - 1].Header?
    ensures LastHeader(rows, id) <==> LastHeader(rows[..|rows| - 1], id)
  {
    var front := rows[..|rows| - 1];
    if LastHeader(rows, id) {
      var i :| 0 <= i < |rows| && rows[i] == Row.Header(Some(id)) && forall j :: i < j < |rows| ==> !rows[j].Header?;
      assert front[i] == Row.Header(Some(id));
      assert forall j :: i < j < |front| ==> front[j] == rows[j];
    }
    if LastHeader(front, id) {
      var i :| 0 <= i < |front| && front[i] == Row.Header(Some(id)) && forall j :: i < j < |front| ==> !front[j].Header?;
      assert rows[i] == Row.Header(Some(id));
      assert forall j :: i < j < |front| ==> rows[j] == front[j];
    }
  }

  lemma {:induction false} ListedIdsExact(rows: seq<Row>, id: string)
    ensures id in ListedIds(rows) <==> Row.Listed(id) in rows
  {
    if rows != [] {
      ListedIdsExact(rows[..|rows| - 1], id);
      assert rows == rows[..|rows| - 1] + [rows[|rows| - 1]];
    }
  }

  lemma FlaggedExact(ids: seq<string>, targeted: Option<string>, id: string)
    ensures Names(Flagged(ids, targeted), id) <==> id in ids
    ensures LiveId(Flagged(ids, targeted)) == Some(id) <==> id in ids && targeted == Some(id)
  {
    var parsed := Flagged(ids, targeted);
    assert forall i :: 0 <= i < |parsed| ==> parsed[i] == ParsedDeployment(ids[i], targeted == Some(ids[i]));
    LiveIdFound(parsed);
    if id in ids {
      var i :| 0 <= i < |ids| && ids[i] == id;
      assert parsed[i].id == id && parsed[i] in parsed;
    }
  }

  /** What `prune` deletes, from the lines of the listing and the dates. */
  lemma PrunedExactly(status: string, created: map<string, int>, keep: nat, id: string)
    ensures var rows := ParseRows(Lines(status));
            id in Plan(Parsed(status), created, keep) <==>
                  && Row.Listed(id) in rows && id in created && !LastHeader(rows, id)
                  && NotOlder(Parsed(status), created, LiveId(Parsed(status)), id) > keep
  {
    var rows := ParseRows(Lines(status));
    TargetedExact(rows, id);
    ListedIdsExact(rows, id);
    FlaggedExact(ListedIds(rows), Targeted(rows), id);
    PlanExact(Parsed(status), created, keep, id);
  }

  lemma {:induction false} LiveIdFound(parsed: seq<ParsedDeployment>)
    ensures LiveId(parsed).Some? ==> ParsedDeployment(LiveId(parsed).value, true) in parsed
    ensures LiveId(parsed).None? ==> forall d :: d in parsed ==> !d.isLive
  {
    if parsed != [] {
      LiveIdFound(parsed[1..]);
      assert parsed == [parsed[0]] + parsed[1..];
    }
  }

  lemma {:induction false} DatedAppend(p: seq<ParsedDeployment>, q: seq<ParsedDeployment>, created: map<string, int>)
    ensures Dated(p + q, created) == Dated(p, created) + Dated(q, created)
  {
    if p == [] {
      assert p + q == q;
    } else {
      assert (p + q)[0] == p[0] && (p + q)[1..] == p[1..] + q;
      DatedAppend(p[1..], q, created);
    }
  }

  /** The listing without its row `k`. */
  function Without(q: seq<ParsedDeployment>, k: nat): (r: seq<ParsedDeployment>)
    requires k < |q|
  {
    q[..k] + q[k + 1..]
  }

  lemma WithoutRow(q: seq<ParsedDeployment>, k: nat)
    requires k < |q|
    ensures multiset(Without(q, k)) == multiset(q) - multiset{q[k]}
  {
    assert q == q[..k] + [q[k]] + q[k + 1..];
  }

  lemma DatedWithout(q: seq<ParsedDeployment>, k: nat, created: map<string, int>)
    requires k < |q|
    ensures multiset(Dated(q, created)) == multiset(Dated(Without(q, k), created)) + multiset(Dated([q[k]], created))
  {
    var a, b := q[..k], q[k + 1..];
    assert q == a + [q[k]] + b;
    DatedAppend(a + [q[k]], b, created);
    DatedAppend(a, [q[k]], created);
    DatedAppend(a, b, created);
  }

  lemma {:induction false} DatedRearranged(p: seq<ParsedDeployment>, q: seq<ParsedDeployment>, created: map<string, int>)
    requires multiset(p) == multiset(q)
    ensures multiset(Dated(p, created)) == multiset(Dated(q, created))
    decreases |p|
  {
    SameMembers(p, q);
    if p != [] {
      assert p[0] in p;
      var k :| 0 <= k < |q| && q[k] == p[0];
      WithoutRow(p, 0);
      WithoutRow(q, k);
      DatedRearranged(Without(p, 0), Without(q, k), created);
      DatedWithout(p, 0, created);
      DatedWithout(q, k, created);
    }
  }

  /** Two listings of the same rows, in whatever order, have the same plan. */
  lemma PlanOrderFree(p: seq<ParsedDeployment>, q: seq<ParsedDeployment>, created: map<string, int>, keep: nat)
    requires multiset(p) == multiset(q) && OneLive(p)
    ensures Plan(p, created, keep) == Plan(q, created, keep)
  {
    SameMembers(p, q);
    LiveIdFound(p);
    LiveIdFound(q);
    assert LiveId(p) == LiveId(q);
    DatedRearranged(p, q, created);
    NewerStrictTotal();
    SortCanonical(Dated(p, created), Dated(q, created), Newer);
  }
}
