/**
 JSON documents as `serde_json` holds them, and their canonical ordering
 (src/visualsign/src/lib.rs).

 An object keeps the order its keys were inserted in, next to the value of each key.
 */
module Json {
  import opened OrderedSeqs

  datatype Value =
    | Null
    | Bool(b: bool)
    | Number(n: int)
    | Str(s: string)
    | Array(items: seq<Value>)
    | Object(keys: seq<string>, fields: map<string, Value>)

  /** What the map type guarantees: every object lists each of its keys once. */
  ghost predicate WellFormed(v: Value) {
    match v
    case Array(items) => forall i :: 0 <= i < |items| ==> WellFormed(items[i])
    case Object(keys, fields) =>
      && Distinct(keys)
      && fields.Keys == Elements(keys)
      && forall k :: k in fields ==> WellFormed(fields[k])
    case _ => true
  }

  const EmptyObject := Object([], map[])

  /** Insertion at the end, or replacement in place when the key is already there. */
  function Put(o: Value, k: string, v: Value): (r: Value)
    requires o.Object?
    ensures r.Object? && r.fields == o.fields[k := v]
    ensures WellFormed(o) && WellFormed(v) ==> WellFormed(r)
  {
    if k in o.keys then o.(fields := o.fields[k := v])
    else Object(o.keys + [k], o.fields[k := v])
  }

  /** `BTreeMap::insert`: the key goes to its place in the key order. */
  function PutSorted(o: Value, k: string, v: Value): (r: Value)
    requires o.Object?
    ensures r.Object? && r.fields == o.fields[k := v]
    ensures WellFormed(o) && WellFormed(v) ==> WellFormed(r)
  {
    if k in o.keys then o.(fields := o.fields[k := v])
    else
      InsertKeepsDistinct(o.keys, k);
      Object(Insert(o.keys, k, Before), o.fields[k := v])
  }

  lemma InsertKeepsDistinct(keys: seq<string>, k: string)
    requires k !in keys
    ensures Distinct(keys) ==> Distinct(Insert(keys, k, Before))
    ensures Elements(Insert(keys, k, Before)) == Elements(keys) + {k}
  {
    var r := Insert(keys, k, Before);
    InsertMembers(keys, k, Before);
    assert multiset(r) == multiset(keys + [k]);
    SameMembers(r, keys + [k]);
    DistinctMultiset(r);
    DistinctMultiset(keys + [k]);
  }

  // ----- Canonical ordering -----

  /** The document with the keys of every object in ascending order. */
  function SortValue(v: Value): (r: Value) {
    match v
    case Array(items) => Array(seq(|items|, i requires 0 <= i < |items| => SortValue(items[i])))
    case Object(keys, fields) =>
      Object(Sort(keys, Before), map k | k in fields :: SortValue(fields[k]))
    case _ => v
  }

  /** `a` and `b` differ only in the order of object entries, at any depth. */
  ghost predicate Reordering(a: Value, b: Value) {
    match (a, b)
    case (Array(s), Array(t)) =>
      |s| == |t| && forall i :: 0 <= i < |s| ==> Reordering(s[i], t[i])
    case (Object(ks, f), Object(ls, g)) =>
      && multiset(ks) == multiset(ls)
      && f.Keys == g.Keys
      && forall k :: k in f ==> Reordering(f[k], g[k])
    case _ => a == b
  }

  /** Sorting is canonical: equal results mean equal documents up to entry order. */
  lemma {:induction false} SortCanonicalForm(a: Value, b: Value)
    ensures SortValue(a) == SortValue(b) <==> Reordering(a, b)
  {
    match (a, b)
    case (Array(s), Array(t)) =>
      forall i | 0 <= i < |s| && i < |t|
        ensures SortValue(s[i]) == SortValue(t[i]) <==> Reordering(s[i], t[i])
      { SortCanonicalForm(s[i], t[i]); }
      SortItems(a, b);
    case (Object(ks, f), Object(ls, g)) =>
      forall k | k in f && k in g
        ensures SortValue(f[k]) == SortValue(g[k]) <==> Reordering(f[k], g[k])
      { SortCanonicalForm(f[k], g[k]); }
      SortFields(a, b);
    case _ =>
  }

  lemma SortItems(a: Value, b: Value)
    requires a.Array? && b.Array?
    ensures SortValue(a) == SortValue(b) <==>
            && |a.items| == |b.items|
            && forall i :: 0 <= i < |a.items| ==> SortValue(a.items[i]) == SortValue(b.items[i])
  {
    var s, t := SortValue(a).items, SortValue(b).items;
    if s == t {
      forall i | 0 <= i < |a.items| ensures SortValue(a.items[i]) == SortValue(b.items[i]) {
        assert s[i] == t[i];
      }
    }
  }

  lemma SortFields(a: Value, b: Value)
    requires a.Object? && b.Object?
    ensures SortValue(a) == SortValue(b) <==>
            && multiset(a.keys) == multiset(b.keys)
            && a.fields.Keys == b.fields.Keys
            && forall k :: k in a.fields ==> SortValue(a.fields[k]) == SortValue(b.fields[k])
  {
    BeforeStrictTotal();
    SortCanonical(a.keys, b.keys, Before);
    var f, g := SortValue(a).fields, SortValue(b).fields;
    assert f.Keys == a.fields.Keys && g.Keys == b.fields.Keys;
    if f == g {
      forall k | k in a.fields ensures SortValue(a.fields[k]) == SortValue(b.fields[k]) {
        assert f[k] == g[k];
      }
    }
  }

  lemma {:induction false} SortIdempotent(v: Value)
    ensures SortValue(SortValue(v)) == SortValue(v)
  {
    match v
    case Array(items) =>
      forall i | 0 <= i < |items| { SortIdempotent(items[i]); }
      assert SortValue(SortValue(v)).items == SortValue(v).items;
    case Object(keys, fields) =>
      forall k | k in fields { SortIdempotent(fields[k]); }
      SortTwice(v);
    case _ =>
  }

  lemma SortTwice(o: Value)
    requires o.Object?
    requires forall k :: k in o.fields ==> SortValue(SortValue(o.fields[k])) == SortValue(o.fields[k])
    ensures SortValue(SortValue(o)) == SortValue(o)
  {
    BeforeStrictTotal();
    SortMembers(o.keys, Before);
    SortCanonical(Sort(o.keys, Before), o.keys, Before);
    assert SortValue(SortValue(o)).fields == SortValue(o).fields;
  }

  lemma {:induction false} SortWellFormed(v: Value)
    requires WellFormed(v)
    ensures WellFormed(SortValue(v))
  {
    match v
    case Array(items) =>
      forall i | 0 <= i < |items| { SortWellFormed(items[i]); }
    case Object(keys, fields) =>
      SortKeysFaithful(keys);
      forall k | k in fields { SortWellFormed(fields[k]); }
    case _ =>
  }

  lemma SortKeysFaithful(keys: seq<string>)
    ensures Distinct(keys) ==> Distinct(Sort(keys, Before))
    ensures Elements(Sort(keys, Before)) == Elements(keys)
  {
    SortMembers(keys, Before);
    SameMembers(Sort(keys, Before), keys);
    DistinctMultiset(keys);
    DistinctMultiset(Sort(keys, Before));
  }

  /** The keys of every object are in alphabetical order. */
  ghost predicate Alphabetical(v: Value) {
    match v
    case Array(items) => forall i :: 0 <= i < |items| ==> Alphabetical(items[i])
    case Object(keys, fields) =>
      && AlphabeticalKeys(keys)
      && forall k :: k in fields ==> Alphabetical(fields[k])
    case _ => true
  }

  ghost predicate AlphabeticalKeys(keys: seq<string>) {
    forall i, j :: 0 <= i < j < |keys| ==> Precedes(keys[i], keys[j])
  }

  lemma SortedKeys(keys: seq<string>)
    requires Distinct(keys)
    ensures Sort(keys, Before) == keys <==> AlphabeticalKeys(keys)
  {
    BeforeStrictTotal();
    SortFixed(keys, Before);
    forall i, j | 0 <= i < j < |keys| ensures Precedes(keys[i], keys[j]) <==> !Before(keys[j], keys[i]) {
      BeforeIsAlphabetical(keys[i], keys[j]);
      BeforeTotal(keys[i], keys[j]);
    }
  }

  /** Sorting leaves exactly the alphabetical documents unchanged. */
  lemma {:induction false} SortedExactly(v: Value)
    requires WellFormed(v)
    ensures SortValue(v) == v <==> Alphabetical(v)
  {
    match v
    case Array(items) =>
      forall i | 0 <= i < |items| ensures SortValue(items[i]) == items[i] <==> Alphabetical(items[i]) {
        SortedExactly(items[i]);
      }
      SortedItems(v);
    case Object(keys, fields) =>
      SortedKeys(keys);
      forall k | k in fields ensures SortValue(fields[k]) == fields[k] <==> Alphabetical(fields[k]) {
        SortedExactly(fields[k]);
      }
      SortedFields(v);
    case _ =>
  }

  lemma SortedItems(v: Value)
    requires v.Array?
    ensures SortValue(v) == v <==> forall i :: 0 <= i < |v.items| ==> SortValue(v.items[i]) == v.items[i]
  {
    var sorted := SortValue(v).items;
    assert forall i :: 0 <= i < |v.items| ==> sorted[i] == SortValue(v.items[i]);
    if forall i :: 0 <= i < |v.items| ==> SortValue(v.items[i]) == v.items[i] { assert sorted == v.items; }
  }

  lemma SortedFields(v: Value)
    requires v.Object?
    ensures SortValue(v) == v <==>
            Sort(v.keys, Before) == v.keys && forall k :: k in v.fields ==> SortValue(v.fields[k]) == v.fields[k]
  {
    var sorted := SortValue(v).fields;
    assert sorted.Keys == v.fields.Keys;
    assert forall k :: k in v.fields ==> sorted[k] == SortValue(v.fields[k]);
    if forall k :: k in v.fields ==> SortValue(v.fields[k]) == v.fields[k] { assert sorted == v.fields; }
  }

  /** The sorted document is alphabetical at every depth. */
  lemma SortAlphabetical(v: Value)
    requires WellFormed(v)
    ensures Alphabetical(SortValue(v))
  {
    SortIdempotent(v);
    SortWellFormed(v);
    SortedExactly(SortValue(v));
  }

  // ----- The walks of the original -----

  /** Rebuilds `v` with ordered maps, object by object. */
  method SortJsonAlphabetically(v: Value) returns (r: Value)
    requires WellFormed(v)
    ensures r == SortValue(v) && Alphabetical(r)
    decreases v, 1
  {
    SortAlphabetical(v);
    match v
    case Object(_, _) => r := SortObject(v);
    case Array(_) => r := SortArray(v);
    case _ => r := v;
  }

  method SortObject(v: Value) returns (r: Value)
    requires WellFormed(v) && v.Object?
    ensures r == SortValue(v)
    decreases v, 0
  {
    var keys := v.keys;
    r := EmptyObject;
    for i := 0 to |keys|
      invariant r.Object?
      invariant r.keys == Sort(keys[..i], Before)
      invariant r.fields.Keys == Elements(keys[..i])
      invariant forall k :: k in r.fields ==> r.fields[k] == SortValue(v.fields[k])
    {
      var inner := SortJsonAlphabetically(v.fields[keys[i]]);
      NextKey(keys, i);
      r := PutSorted(r, keys[i], inner);
    }
    assert keys[..|keys|] == keys;
    assert r.fields == SortValue(v).fields;
  }

  lemma NextKey(keys: seq<string>, i: nat)
    requires Distinct(keys) && i < |keys|
    ensures keys[i] !in Sort(keys[..i], Before)
    ensures Sort(keys[..i + 1], Before) == Insert(Sort(keys[..i], Before), keys[i], Before)
    ensures Elements(keys[..i + 1]) == Elements(keys[..i]) + {keys[i]}
  {
    SortMembers(keys[..i], Before);
    SameMembers(Sort(keys[..i], Before), keys[..i]);
    assert keys[..i + 1][..i] == keys[..i];
  }

  method SortArray(v: Value) returns (r: Value)
    requires WellFormed(v) && v.Array?
    ensures r == SortValue(v)
    decreases v, 0
  {
    var sorted := [];
    for i := 0 to |v.items|
      invariant |sorted| == i
      invariant forall j :: 0 <= j < i ==> sorted[j] == SortValue(v.items[j])
    {
      var inner := SortJsonAlphabetically(v.items[i]);
      sorted := sorted + [inner];
    }
    assert sorted == SortValue(v).items;
    r := Array(sorted);
  }

  /** Accepts exactly the documents that sorting leaves unchanged. */
  method VerifyJsonDeterministic(v: Value) returns (ok: bool)
    requires WellFormed(v)
    ensures ok <==> SortValue(v) == v
    ensures ok <==> Alphabetical(v)
    decreases v, 1
  {
    SortedExactly(v);
    match v
    case Object(_, _) => ok := VerifyObject(v);
    case Array(_) => ok := VerifyArray(v);
    case _ => ok := true;
  }

  method VerifyObject(v: Value) returns (ok: bool)
    requires WellFormed(v) && v.Object?
    ensures ok <==> SortValue(v) == v
    decreases v, 0
  {
    if v.keys != Sort(v.keys, Before) { return false; }
    for i := 0 to |v.keys|
      invariant forall j :: 0 <= j < i ==> SortValue(v.fields[v.keys[j]]) == v.fields[v.keys[j]]
    {
      var nested := VerifyJsonDeterministic(v.fields[v.keys[i]]);
      if !nested {
        assert SortValue(v).fields[v.keys[i]] != v.fields[v.keys[i]];
        return false;
      }
    }
    assert SortValue(v).fields == v.fields;
    return true;
  }

  method VerifyArray(v: Value) returns (ok: bool)
    requires WellFormed(v) && v.Array?
    ensures ok <==> SortValue(v) == v
    decreases v, 0
  {
    for i := 0 to |v.items|
      invariant forall j :: 0 <= j < i ==> SortValue(v.items[j]) == v.items[j]
    {
      var nested := VerifyJsonDeterministic(v.items[i]);
      if !nested {
        assert SortValue(v).items[i] != v.items[i];
        return false;
      }
    }
    assert SortValue(v).items == v.items;
    return true;
  }
}
