/** An ordered map from names to ABIs, as Rust's `BTreeMap` keeps it: its entries by ascending name. */
module AbiEntries {
  import opened Wrappers
  import opened OrderedSeqs
  import opened AbiMetadata

  ghost predicate Ascending(ms: seq<Mapping>) {
    forall i, j :: 0 <= i < j < |ms| ==> Before(ms[i].name, ms[j].name)
  }

  function Put(ms: seq<Mapping>, name: string, abi: Abi): (r: seq<Mapping>) {
    if ms == [] || Before(name, ms[0].name) then [Mapping(name, abi)] + ms
    else if ms[0].name == name then [Mapping(name, abi)] + ms[1..]
    else [ms[0]] + Put(ms[1..], name, abi)
  }

  function Find(ms: seq<Mapping>, name: string): (r: Option<Abi>) {
    if ms == [] then None
    else if ms[0].name == name then Some(ms[0].abi)
    else Find(ms[1..], name)
  }

  lemma {:induction false} FindAfterPut(ms: seq<Mapping>, name: string, abi: Abi, key: string)
    ensures Find(Put(ms, name, abi), key) == if key == name then Some(abi) else Find(ms, key)
  {
    if ms == [] || Before(name, ms[0].name) {
      assert ([Mapping(name, abi)] + ms)[1..] == ms;
    } else if ms[0].name != name {
      FindAfterPut(ms[1..], name, abi, key);
    }
  }

  lemma {:induction false} PutMembers(ms: seq<Mapping>, name: string, abi: Abi, m: Mapping)
    requires m in Put(ms, name, abi)
    ensures m == Mapping(name, abi) || m in ms
  {
    if !(ms == [] || Before(name, ms[0].name)) && ms[0].name != name && m != ms[0] {
      PutMembers(ms[1..], name, abi, m);
    }
  }

  lemma {:induction false} PutAscending(ms: seq<Mapping>, name: string, abi: Abi)
    requires Ascending(ms)
    ensures Ascending(Put(ms, name, abi))
    ensures |Put(ms, name, abi)| == |ms| + if Find(ms, name).None? then 1 else 0
  {
    BeforeStrictTotal();
    if ms == [] {
    } else if Before(name, ms[0].name) {
      PutInFront(ms, name, abi);
    } else if ms[0].name != name {
      var rest := Put(ms[1..], name, abi);
      PutAscending(ms[1..], name, abi);
      forall j | 0 <= j < |rest| ensures Before(ms[0].name, rest[j].name) {
        PutMembers(ms[1..], name, abi, rest[j]);
      }
      AscendingCons(ms[0], rest);
    }
  }

  lemma AscendingCons(m: Mapping, rest: seq<Mapping>)
    requires Ascending(rest) && forall j :: 0 <= j < |rest| ==> Before(m.name, rest[j].name)
    ensures Ascending([m] + rest)
  {
  }

  lemma PutInFront(ms: seq<Mapping>, name: string, abi: Abi)
    requires Ascending(ms) && ms != [] && Before(name, ms[0].name)
    ensures Ascending([Mapping(name, abi)] + ms)
    ensures Find(ms, name).None?
  {
    BeforeStrictTotal();
    assert forall j :: 0 <= j < |ms| ==> Before(name, ms[j].name);
    FindAbsent(ms, name);
  }

  lemma {:induction false} FindAbsent(ms: seq<Mapping>, name: string)
    requires forall j :: 0 <= j < |ms| ==> ms[j].name != name
    ensures Find(ms, name).None?
  {
    if ms != [] { FindAbsent(ms[1..], name); }
  }

  lemma AscendingDistinct(ms: seq<Mapping>)
    requires Ascending(ms)
    ensures DistinctNames(ms)
  {
    BeforeStrictTotal();
  }

  /** In a map, finding an entry and holding it are the same. */
  lemma {:induction false} FindExact(ms: seq<Mapping>, name: string, abi: Abi)
    requires DistinctNames(ms)
    ensures Find(ms, name) == Some(abi) <==> Mapping(name, abi) in ms
  {
    if ms != [] {
      FindExact(ms[1..], name, abi);
      assert ms == [ms[0]] + ms[1..];
    }
  }

  // ----- Inserting one after the other -----

  function PutAll(es: seq<Mapping>): (ms: seq<Mapping>) {
    if es == [] then []
    else Put(PutAll(es[..|es| - 1]), es[|es| - 1].name, es[|es| - 1].abi)
  }

  lemma PutAllStep(es: seq<Mapping>, i: nat)
    requires i < |es|
    ensures PutAll(es[..i + 1]) == Put(PutAll(es[..i]), es[i].name, es[i].abi)
  {
    assert es[..i + 1][..i] == es[..i];
  }

  /** The last entry of this name. */
  function LastOf(es: seq<Mapping>, name: string): (r: Option<Abi>) {
    if es == [] then None
    else if es[|es| - 1].name == name then Some(es[|es| - 1].abi)
    else LastOf(es[..|es| - 1], name)
  }

  lemma {:induction false} PutAllExact(es: seq<Mapping>, name: string)
    ensures Find(PutAll(es), name) == LastOf(es, name)
  {
    if es != [] {
      PutAllExact(es[..|es| - 1], name);
      FindAfterPut(PutAll(es[..|es| - 1]), es[|es| - 1].name, es[|es| - 1].abi, name);
    }
  }

  lemma {:induction false} PutAllAscending(es: seq<Mapping>)
    ensures Ascending(PutAll(es))
  {
    if es != [] {
      PutAllAscending(es[..|es| - 1]);
      PutAscending(PutAll(es[..|es| - 1]), es[|es| - 1].name, es[|es| - 1].abi);
    }
  }

  lemma PutAllMore(es: seq<Mapping>, e: Mapping)
    ensures PutAll(es + [e]) == Put(PutAll(es), e.name, e.abi)
    ensures |PutAll(es + [e])| == |PutAll(es)| + if Find(PutAll(es), e.name).None? then 1 else 0
  {
    assert (es + [e])[..|es|] == es;
    PutAllAscending(es);
    PutAscending(PutAll(es), e.name, e.abi);
  }

  lemma {:induction false} PutAllMembers(es: seq<Mapping>, m: Mapping)
    requires m in PutAll(es)
    ensures m in es
  {
    if es != [] {
      var last := es[|es| - 1];
      PutMembers(PutAll(es[..|es| - 1]), last.name, last.abi, m);
      if m != last { PutAllMembers(es[..|es| - 1], m); }
    }
  }
}
