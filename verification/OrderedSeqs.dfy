/**
 Ordered insertion, and the order on strings that Rust's `BTreeMap<String, _>` uses.

 Inserting element by element is how the library containers of the original keep their
 order, and it serves both the sorted key lists of JSON objects and the newest-first
 listing of deployments.
 */
module OrderedSeqs {

  ghost predicate StrictTotal<T(!new)>(less: (T, T) -> bool) {
    && (forall x :: !less(x, x))
    && (forall x, y :: x == y || less(x, y) || less(y, x))
    && (forall x, y, z :: less(x, y) && less(y, z) ==> less(x, z))
  }

  /** No element is followed by one that should precede it. */
  ghost predicate Ordered<T>(s: seq<T>, less: (T, T) -> bool) {
    forall i, j :: 0 <= i < j < |s| ==> !less(s[j], s[i])
  }

  ghost predicate Distinct<T>(s: seq<T>) {
    forall i, j :: 0 <= i < j < |s| ==> s[i] != s[j]
  }

  function Elements<T>(s: seq<T>): (r: set<T>) {
    set x | x in s
  }

  function Insert<T>(s: seq<T>, x: T, less: (T, T) -> bool): (r: seq<T>) {
    if s == [] || less(x, s[0]) then [x] + s
    else [s[0]] + Insert(s[1..], x, less)
  }

  function Sort<T>(s: seq<T>, less: (T, T) -> bool): (r: seq<T>) {
    if s == [] then []
    else Insert(Sort(s[..|s| - 1], less), s[|s| - 1], less)
  }

  lemma {:induction false} InsertMembers<T>(s: seq<T>, x: T, less: (T, T) -> bool)
    ensures multiset(Insert(s, x, less)) == multiset(s) + multiset{x}
  {
    if !(s == [] || less(x, s[0])) {
      assert s == [s[0]] + s[1..];
      InsertMembers(s[1..], x, less);
    }
  }

  lemma {:induction false} SortMembers<T>(s: seq<T>, less: (T, T) -> bool)
    ensures multiset(Sort(s, less)) == multiset(s)
  {
    if s != [] {
      assert s == s[..|s| - 1] + [s[|s| - 1]];
      SortMembers(s[..|s| - 1], less);
      InsertMembers(Sort(s[..|s| - 1], less), s[|s| - 1], less);
    }
  }

  lemma SameMembers<T>(s: seq<T>, t: seq<T>)
    requires multiset(s) == multiset(t)
    ensures |s| == |t|
    ensures forall x :: x in s <==> x in t
  {
    assert |multiset(s)| == |multiset(t)|;
    forall x ensures x in s <==> x in t {
      assert x in multiset(s) <==> x in multiset(t);
    }
  }

  lemma {:induction false} InsertOrdered<T(!new)>(s: seq<T>, x: T, less: (T, T) -> bool)
    requires StrictTotal(less) && Ordered(s, less)
    ensures Ordered(Insert(s, x, less), less)
  {
    if s == [] || less(x, s[0]) {
      var r := [x] + s;
      forall i, j | 0 <= i < j < |r| ensures !less(r[j], r[i]) {
        if i == 0 && j > 1 { assert !less(s[j - 1], s[0]); }
      }
    } else {
      var rest := Insert(s[1..], x, less);
      InsertOrdered(s[1..], x, less);
      InsertMembers(s[1..], x, less);
      var r := [s[0]] + rest;
      forall i, j | 0 <= i < j < |r| ensures !less(r[j], r[i]) {
        if i == 0 {
          assert rest[j - 1] in multiset(rest);
          assert rest[j - 1] in multiset(s[1..]) || rest[j - 1] == x;
        }
      }
    }
  }

  lemma {:induction false} SortOrdered<T(!new)>(s: seq<T>, less: (T, T) -> bool)
    requires StrictTotal(less)
    ensures Ordered(Sort(s, less), less)
  {
    if s != [] {
      SortOrdered(s[..|s| - 1], less);
      InsertOrdered(Sort(s[..|s| - 1], less), s[|s| - 1], less);
    }
  }

  lemma SameHead<T(!new)>(s: seq<T>, t: seq<T>, less: (T, T) -> bool)
    requires StrictTotal(less)
    requires Ordered(s, less) && Ordered(t, less)
    requires s != [] && multiset(s) == multiset(t)
    ensures t != [] && s[0] == t[0]
    ensures multiset(s[1..]) == multiset(t[1..])
  {
    SameMembers(s, t);
    assert s[0] in s && t[0] in t;
    assert s[0] == t[0];
    assert s == [s[0]] + s[1..] && t == [t[0]] + t[1..];
    assert multiset(s[1..]) == multiset(s) - multiset{s[0]};
    assert multiset(t[1..]) == multiset(t) - multiset{t[0]};
  }

  lemma OrderedTail<T>(s: seq<T>, less: (T, T) -> bool)
    requires Ordered(s, less) && s != []
    ensures Ordered(s[1..], less)
  {
  }

  /** An order leaves exactly one arrangement of a given bag of elements. */
  lemma {:induction false} OrderedUnique<T(!new)>(s: seq<T>, t: seq<T>, less: (T, T) -> bool)
    requires StrictTotal(less)
    requires Ordered(s, less) && Ordered(t, less)
    requires multiset(s) == multiset(t)
    ensures s == t
  {
    if s == [] {
      SameMembers(s, t);
    } else {
      SameHead(s, t, less);
      OrderedTail(s, less);
      OrderedTail(t, less);
      OrderedUnique(s[1..], t[1..], less);
      assert s == [s[0]] + s[1..] && t == [t[0]] + t[1..];
    }
  }

  /** Sorting depends only on which elements are present, never on their arrival order. */
  lemma SortCanonical<T(!new)>(s: seq<T>, t: seq<T>, less: (T, T) -> bool)
    requires StrictTotal(less)
    ensures Sort(s, less) == Sort(t, less) <==> multiset(s) == multiset(t)
  {
    SortMembers(s, less);
    SortMembers(t, less);
    if multiset(s) == multiset(t) {
      SortOrdered(s, less);
      SortOrdered(t, less);
      OrderedUnique(Sort(s, less), Sort(t, less), less);
    }
  }

  lemma SortFixed<T(!new)>(s: seq<T>, less: (T, T) -> bool)
    requires StrictTotal(less)
    ensures Sort(s, less) == s <==> Ordered(s, less)
  {
    SortOrdered(s, less);
    SortMembers(s, less);
    if Ordered(s, less) { OrderedUnique(Sort(s, less), s, less); }
  }

  lemma {:induction false} DistinctMultiset<T>(s: seq<T>)
    ensures Distinct(s) <==> forall x :: multiset(s)[x] <= 1
  {
    if s != [] {
      var head, tail := s[0], s[1..];
      assert s == [head] + tail;
      DistinctMultiset(tail);
      if Distinct(s) {
        assert forall i :: 0 <= i < |tail| ==> tail[i] == s[i + 1];
        forall i, j | 0 <= i < j < |tail| ensures tail[i] != tail[j] { assert s[i + 1] != s[j + 1]; }
        assert head !in tail;
      }
      if forall x :: multiset(s)[x] <= 1 {
        forall x ensures multiset(tail)[x] <= 1 { assert multiset(s)[x] <= 1; }
        assert multiset(s)[head] <= 1;
        assert head !in multiset(tail);
        forall i, j | 0 <= i < j < |s| ensures s[i] != s[j] {
          if i == 0 { assert tail[j - 1] in tail; } else { assert tail[i - 1] != tail[j - 1]; }
        }
      }
    }
  }

  lemma {:induction false} DistinctSize<T>(s: seq<T>)
    requires Distinct(s)
    ensures |Elements(s)| == |s|
  {
    if s == [] {
      assert Elements(s) == {};
    } else {
      var front, last := s[..|s| - 1], s[|s| - 1];
      DistinctSize(front);
      assert s == front + [last];
      assert Elements(s) == Elements(front) + {last};
    }
  }

  // ----- Strings -----

  /** Lexicographic order on code points, which is also the byte order of UTF-8 text. */
  predicate Before(a: string, b: string) {
    b != [] && (a == [] || a[0] < b[0] || (a[0] == b[0] && Before(a[1..], b[1..])))
  }

  lemma {:induction false} BeforeTotal(a: string, b: string)
    ensures a == b || Before(a, b) || Before(b, a)
    ensures !(Before(a, b) && Before(b, a))
  {
    if a != [] && b != [] && a[0] == b[0] {
      BeforeTotal(a[1..], b[1..]);
      assert a == [a[0]] + a[1..] && b == [b[0]] + b[1..];
    }
  }

  lemma {:induction false} BeforeTransitive(a: string, b: string, c: string)
    requires Before(a, b) && Before(b, c)
    ensures Before(a, c)
  {
    if a != [] && a[0] == b[0] && b[0] == c[0] {
      BeforeTransitive(a[1..], b[1..], c[1..]);
    }
  }

  /** `a` ends at place `n` or has the smaller character there, and they agree before it. */
  predicate DiffersAt(a: string, b: string, n: nat) {
    n <= |a| && n < |b| && a[..n] == b[..n] && (n == |a| || a[n] < b[n])
  }

  /** Alphabetical order, by the first place where the texts differ. */
  ghost predicate Precedes(a: string, b: string) {
    exists n: nat :: DiffersAt(a, b, n)
  }

  lemma DiffersLater(a: string, b: string, n: nat)
    requires a != [] && b != [] && a[0] == b[0]
    ensures DiffersAt(a, b, n + 1) <==> DiffersAt(a[1..], b[1..], n)
  {
    if n < |a| && n + 1 < |b| {
      assert a[..n + 1] == [a[0]] + a[1..][..n] && b[..n + 1] == [b[0]] + b[1..][..n];
    }
  }

  lemma {:induction false} BeforeIsAlphabetical(a: string, b: string)
    ensures Before(a, b) <==> Precedes(a, b)
  {
    if a == [] || b == [] || a[0] != b[0] {
      assert DiffersAt(a, b, 0) <==> Before(a, b);
      assert forall n: nat :: n > 0 && n <= |a| && n < |b| ==> a[..n][0] == a[0] && b[..n][0] == b[0];
    } else {
      BeforeIsAlphabetical(a[1..], b[1..]);
      if Precedes(a[1..], b[1..]) {
        var n: nat :| DiffersAt(a[1..], b[1..], n);
        DiffersLater(a, b, n);
      }
      if Precedes(a, b) {
        var n: nat :| DiffersAt(a, b, n);
        assert n > 0;
        DiffersLater(a, b, n - 1);
      }
    }
  }

  lemma BeforeStrictTotal()
    ensures StrictTotal(Before)
  {
    forall x, y, z: string
      ensures !Before(x, x)
      ensures x == y || Before(x, y) || Before(y, x)
      ensures Before(x, y) && Before(y, z) ==> Before(x, z)
    {
      BeforeTotal(x, x);
      BeforeTotal(x, y);
      if Before(x, y) && Before(y, z) { BeforeTransitive(x, y, z); }
    }
  }
}
