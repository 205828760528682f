/**
 `{{PLACEHOLDER}}` substitution in policy files (tools/tvc-deploy/src/invite.rs).
 */
module Template {
  import opened Wrappers

  /** `str::find` for a doubled character: the first place it occurs. */
  function FindPair(s: string, c: char): (r: Option<nat>)
    ensures r.Some? ==> r.value + 1 < |s| && s[r.value] == c && s[r.value + 1] == c
    ensures r.Some? ==> forall i :: 0 <= i < r.value ==> !(s[i] == c && s[i + 1] == c)
    ensures r.None? ==> forall i :: 0 <= i < |s| - 1 ==> !(s[i] == c && s[i + 1] == c)
  {
    if |s| < 2 then None
    else if s[0] == c && s[1] == c then Some(0)
    else
      var r :- FindPair(s[1..], c);
      Some(r + 1)
  }

  /** The placeholder token of a name. */
  function Token(name: string): (t: string) {
    ['{', '{'] + name + ['}', '}']
  }

  predicate OpensHole(s: string) {
    |s| >= 2 && s[0] == '{' && s[1] == '{'
  }

  /** The names of the placeholders of `s`, in order of appearance. */
  function Placeholders(s: string): (names: seq<string>)
    decreases |s|
  {
    if s == [] then []
    else if OpensHole(s) then
      var end := FindPair(s[2..], '}');
      if end.None? then [] else [s[2..][..end.value]] + Placeholders(s[2..][end.value + 2..])
    else Placeholders(s[1..])
  }

  /** All placeholders filled in at once; one without a value stays as it is. */
  function Substitute(s: string, vars: map<string, string>): (r: string)
    decreases |s|
  {
    if s == [] then []
    else if OpensHole(s) then
      var end := FindPair(s[2..], '}');
      if end.None? then s
      else
        var name := s[2..][..end.value];
        (if name in vars then vars[name] else Token(name)) + Substitute(s[2..][end.value + 2..], vars)
    else [s[0]] + Substitute(s[1..], vars)
  }

  /** `str::replace`: every occurrence, left to right, without overlaps. */
  function Replace(s: string, pattern: string, value: string): (r: string)
    requires pattern != []
    decreases |s|
  {
    if s == [] then []
    else if pattern <= s then value + Replace(s[|pattern|..], pattern, value)
    else [s[0]] + Replace(s[1..], pattern, value)
  }

  /** One variable after the other, in the order the map happens to be walked in. */
  function Rendered(s: string, order: seq<string>, vars: map<string, string>): (r: string)
    requires forall k :: k in order ==> k in vars
    decreases |order|
  {
    if order == [] then s
    else Rendered(Replace(s, Token(order[0]), vars[order[0]]), order[1..], vars)
  }

  // ----- The methods of the original -----

  lemma {:induction false} SkipToHole(s: string, start: nat)
    requires start <= |s|
    requires forall i :: 0 <= i < start ==> !OpensHole(s[i..])
    ensures Placeholders(s) == Placeholders(s[start..])
  {
    if start > 0 {
      assert s[0..] == s;
      assert !OpensHole(s);
      assert forall i :: 0 <= i < start - 1 ==> s[1..][i..] == s[i + 1..];
      SkipToHole(s[1..], start - 1);
      assert s[1..][start - 1..] == s[start..];
    } else {
      assert s[start..] == s;
    }
  }

  /** The first placeholder of `s`, if it has one, by two searches. */
  lemma FirstPlaceholder(s: string)
    ensures var start := FindPair(s, '{');
            if start.None? then Placeholders(s) == []
            else
              var after := s[start.value + 2..];
              var end := FindPair(after, '}');
              Placeholders(s) == if end.None? then [] else [after[..end.value]] + Placeholders(after[end.value + 2..])
  {
    var start := FindPair(s, '{');
    if start.None? { NoPlaceholder(s); } else { OpenPlaceholder(s, start.value); }
  }

  lemma NoPlaceholder(s: string)
    requires FindPair(s, '{').None?
    ensures Placeholders(s) == []
  {
    assert forall i :: 0 <= i < |s| ==> !OpensHole(s[i..]);
    SkipToHole(s, |s|);
  }

  lemma OpenPlaceholder(s: string, start: nat)
    requires FindPair(s, '{') == Some(start)
    ensures var after := s[start + 2..];
            var end := FindPair(after, '}');
            Placeholders(s) == if end.None? then [] else [after[..end.value]] + Placeholders(after[end.value + 2..])
  {
    assert forall i :: 0 <= i < start ==> !OpensHole(s[i..]);
    SkipToHole(s, start);
    HoleNames(s[start..]);
    assert s[start..][2..] == s[start + 2..];
  }

  lemma HoleNames(s: string)
    requires OpensHole(s)
    ensures var end := FindPair(s[2..], '}');
            Placeholders(s) == if end.None? then [] else [s[2..][..end.value]] + Placeholders(s[2..][end.value + 2..])
  {
  }

  method FindPlaceholders(content: string) returns (names: seq<string>)
    ensures names == Placeholders(content)
  {
    names := [];
    var rest := content;
    while true
      invariant names + Placeholders(rest) == Placeholders(content)
      decreases |rest|
    {
      FirstPlaceholder(rest);
      var start := FindPair(rest, '{');
      if start.None? { break; }
      var after := rest[start.value + 2..];
      var end := FindPair(after, '}');
      if end.None? { break; }
      MoveName(names, after[..end.value], Placeholders(after[end.value + 2..]));
      names := names + [after[..end.value]];
      rest := after[end.value + 2..];
    }
  }

  lemma MoveName(names: seq<string>, name: string, more: seq<string>)
    ensures names + ([name] + more) == (names + [name]) + more
  {
  }

  method RenderTemplate(content: string, vars: map<string, string>, order: seq<string>) returns (rendered: string)
    requires forall k :: k in order ==> k in vars
    ensures rendered == Rendered(content, order, vars)
  {
    rendered := content;
    for i := 0 to |order|
      invariant Rendered(rendered, order[i..], vars) == Rendered(content, order, vars)
    {
      assert order[i..][0] == order[i] && order[i..][1..] == order[i + 1..];
      rendered := Replace(rendered, Token(order[i]), vars[order[i]]);
    }
  }

  // ----- Rendering is simultaneous substitution -----

  predicate BraceFree(s: string) {
    forall i :: 0 <= i < |s| ==> s[i] != '{' && s[i] != '}'
  }

  /** No variable name or value contains a brace. */
  ghost predicate Plain(vars: map<string, string>) {
    forall k :: k in vars ==> BraceFree(k) && BraceFree(vars[k])
  }

  ghost predicate AllFound(s: string, vars: map<string, string>) {
    forall n :: n in Placeholders(s) ==> n in vars
  }

  /** A hole with a brace-free name closes at its own braces. */
  lemma HoleCloses(name: string, rest: string)
    requires BraceFree(name)
    ensures var s := Token(name) + rest;
            OpensHole(s) && FindPair(s[2..], '}') == Some(|name|)
            && s[2..][..|name|] == name && s[2..][|name| + 2..] == rest
  {
    var s := Token(name) + rest;
    var t := s[2..];
    assert t == name + (['}', '}'] + rest);
    assert t[|name|] == '}' && t[|name| + 1] == '}';
    assert forall i :: 0 <= i < |name| ==> t[i] == name[i];
  }

  lemma TokenThen(name: string, rest: string)
    ensures Token(name) + rest == ['{', '{'] + (name + (['}', '}'] + rest))
  {
  }

  /** Text that opens a hole which closes is the token of the name found there. */
  lemma HoleIsToken(s: string, end: nat)
    requires OpensHole(s) && FindPair(s[2..], '}') == Some(end)
    ensures s == Token(s[2..][..end]) + s[2..][end + 2..]
  {
    var t := s[2..];
    assert s == ['{', '{'] + t;
    SplitAtPair(t, end);
    TokenThen(t[..end], t[end + 2..]);
  }

  lemma SplitAtPair(t: string, end: nat)
    requires end + 1 < |t| && t[end] == '}' && t[end + 1] == '}'
    ensures t == t[..end] + (['}', '}'] + t[end + 2..])
  {
  }

  lemma {:induction false} PlainPrefix(v: string, y: string, vars: map<string, string>)
    requires BraceFree(v)
    ensures Substitute(v + y, vars) == v + Substitute(y, vars)
  {
    if v == [] {
      assert v + y == y;
    } else {
      assert (v + y)[0] == v[0] && (v + y)[1..] == v[1..] + y;
      PlainPrefix(v[1..], y, vars);
      assert v == [v[0]] + v[1..];
    }
  }

  lemma {:induction false} PlainPrefixNames(v: string, y: string)
    requires BraceFree(v)
    ensures Placeholders(v + y) == Placeholders(y)
  {
    if v == [] {
      assert v + y == y;
    } else {
      assert (v + y)[0] == v[0] && (v + y)[1..] == v[1..] + y;
      PlainPrefixNames(v[1..], y);
    }
  }

  ghost predicate AbsentIn(pattern: string, s: string, n: nat)
    requires n <= |s|
  {
    forall i :: 0 <= i < n ==> !(pattern <= s[i..])
  }

  /** Where the pattern does not start, replacement copies. */
  lemma {:induction false} ReplaceCopies(u: string, rest: string, pattern: string, value: string)
    requires pattern != [] && AbsentIn(pattern, u + rest, |u|)
    ensures Replace(u + rest, pattern, value) == u + Replace(rest, pattern, value)
  {
    var s := u + rest;
    if u == [] {
      assert s == rest;
    } else {
      assert s[0..] == s;
      assert s[1..] == u[1..] + rest;
      assert forall i :: 0 <= i < |u| - 1 ==> s[1..][i..] == s[i + 1..];
      ReplaceCopies(u[1..], rest, pattern, value);
    }
  }

  lemma SameToken(k: string, name: string, rest: string)
    requires BraceFree(k) && BraceFree(name) && Token(k) <= Token(name) + rest
    ensures k == name
  {
    var s := Token(name) + rest;
    assert s == Token(k) + s[|Token(k)|..];
    HoleCloses(name, rest);
    HoleCloses(k, s[|Token(k)|..]);
  }

  lemma OtherTokenAbsent(k: string, name: string, rest: string)
    requires BraceFree(k) && BraceFree(name) && k != name
    ensures AbsentIn(Token(k), Token(name) + rest, |Token(name)|)
  {
    var s := Token(name) + rest;
    forall i | 0 <= i < |Token(name)| ensures !(Token(k) <= s[i..]) {
      assert s[i..][0] == s[i] == Token(name)[i];
      if i == 0 {
        assert s[0..] == s;
        if Token(k) <= s { SameToken(k, name, rest); }
      } else if i == 1 {
        assert s[1..][1] == s[2] == Token(name)[2];
      }
    }
  }

  lemma TokenCloses(k: string, s: string, i: nat)
    requires i <= |s| && Token(k) <= s[i..]
    ensures FindPair(s[2..], '}').Some?
  {
    var j := i + 2 + |k|;
    assert s[i..][2 + |k|] == Token(k)[2 + |k|] && s[i..][3 + |k|] == Token(k)[3 + |k|];
    assert s[2..][j - 2] == '}' && s[2..][j - 1] == '}';
  }

  lemma UnclosedAbsent(k: string, s: string)
    requires OpensHole(s) && FindPair(s[2..], '}').None?
    ensures AbsentIn(Token(k), s, |s|)
  {
    forall i | 0 <= i < |s| ensures !(Token(k) <= s[i..]) {
      if Token(k) <= s[i..] { TokenCloses(k, s, i); }
    }
  }

  function Without(names: seq<string>, k: string): (r: seq<string>) {
    if names == [] then []
    else (if names[0] == k then [] else [names[0]]) + Without(names[1..], k)
  }

  /** What replacing the token of `k` does to the text: the same text, with one hole less to fill. */
  ghost predicate Fills(s: string, k: string, vars: map<string, string>)
    requires k in vars
  {
    var r := Replace(s, Token(k), vars[k]);
    && Substitute(r, vars) == Substitute(s, vars)
    && Placeholders(r) == Without(Placeholders(s), k)
  }

  /** A token in front of text is one hole in front of it. */
  lemma TokenFirst(name: string, rest: string, vars: map<string, string>)
    requires BraceFree(name) && name in vars
    ensures Placeholders(Token(name) + rest) == [name] + Placeholders(rest)
    ensures Substitute(Token(name) + rest, vars) == vars[name] + Substitute(rest, vars)
  {
    HoleCloses(name, rest);
  }

  lemma WithoutFirst(name: string, names: seq<string>, k: string)
    ensures Without([name] + names, k) == (if name == k then [] else [name]) + Without(names, k)
  {
    assert ([name] + names)[1..] == names;
  }

  lemma FillsOwnToken(rest: string, k: string, vars: map<string, string>)
    requires Plain(vars) && k in vars && Fills(rest, k, vars)
    ensures Fills(Token(k) + rest, k, vars)
  {
    var s, more := Token(k) + rest, Replace(rest, Token(k), vars[k]);
    assert Token(k) <= s && s[|Token(k)|..] == rest;
    assert Replace(s, Token(k), vars[k]) == vars[k] + more;
    PlainPrefix(vars[k], more, vars);
    PlainPrefixNames(vars[k], more);
    TokenFirst(k, rest, vars);
    WithoutFirst(k, Placeholders(rest), k);
  }

  lemma FillsOtherToken(name: string, rest: string, k: string, vars: map<string, string>)
    requires Plain(vars) && k in vars && name in vars && name != k && Fills(rest, k, vars)
    ensures Fills(Token(name) + rest, k, vars)
  {
    OtherTokenAbsent(k, name, rest);
    ReplaceCopies(Token(name), rest, Token(k), vars[k]);
    TokenFirst(name, Replace(rest, Token(k), vars[k]), vars);
    TokenFirst(name, rest, vars);
    WithoutFirst(name, Placeholders(rest), k);
  }

  lemma FillsHole(s: string, end: nat, k: string, vars: map<string, string>)
    requires Plain(vars) && k in vars
    requires OpensHole(s) && FindPair(s[2..], '}') == Some(end) && s[2..][..end] in vars
    requires Fills(s[2..][end + 2..], k, vars)
    ensures Fills(s, k, vars)
  {
    var name, rest := s[2..][..end], s[2..][end + 2..];
    HoleIsToken(s, end);
    if name == k { FillsOwnToken(rest, k, vars); } else { FillsOtherToken(name, rest, k, vars); }
  }

  lemma FillsUnclosed(s: string, k: string, vars: map<string, string>)
    requires k in vars && OpensHole(s) && FindPair(s[2..], '}').None?
    ensures Fills(s, k, vars)
  {
    UnclosedAbsent(k, s);
    assert s + [] == s;
    ReplaceCopies(s, [], Token(k), vars[k]);
  }

  lemma FillsPlain(s: string, k: string, vars: map<string, string>)
    requires k in vars && s != [] && !OpensHole(s) && Fills(s[1..], k, vars)
    ensures Fills(s, k, vars)
  {
    var more := Replace(s[1..], Token(k), vars[k]);
    assert Token(k)[0] == '{' && Token(k)[1] == '{';
    assert Replace(s, Token(k), vars[k]) == [s[0]] + more;
    assert ([s[0]] + more)[1..] == more;
    if s[0] == '{' && |s| > 1 {
      assert !(Token(k) <= s[1..]);
      assert more[0] == s[1];
    }
  }

  lemma {:induction false} ReplaceFills(s: string, k: string, vars: map<string, string>)
    requires Plain(vars) && k in vars && AllFound(s, vars)
    ensures Fills(s, k, vars)
    decreases |s|
  {
    if s == [] {
    } else if OpensHole(s) {
      var end := FindPair(s[2..], '}');
      if end.None? {
        FillsUnclosed(s, k, vars);
      } else {
        var rest := s[2..][end.value + 2..];
        assert Placeholders(s) == [s[2..][..end.value]] + Placeholders(rest);
        ReplaceFills(rest, k, vars);
        FillsHole(s, end.value, k, vars);
      }
    } else {
      assert Placeholders(s) == Placeholders(s[1..]);
      ReplaceFills(s[1..], k, vars);
      FillsPlain(s, k, vars);
    }
  }

  lemma {:induction false} WithoutMembers(names: seq<string>, k: string)
    ensures forall n :: n in Without(names, k) <==> n in names && n != k
  {
    if names != [] {
      WithoutMembers(names[1..], k);
      assert names == [names[0]] + names[1..];
    }
  }

  /** Rendering in any order that covers the placeholders fills them all at once. */
  lemma {:induction false} RenderedFills(s: string, order: seq<string>, vars: map<string, string>)
    requires Plain(vars) && AllFound(s, vars)
    requires forall k :: k in order ==> k in vars
    ensures Substitute(Rendered(s, order, vars), vars) == Substitute(s, vars)
    ensures forall n :: n in Placeholders(Rendered(s, order, vars)) <==> n in Placeholders(s) && n !in order
    decreases |order|
  {
    if order != [] {
      var k := order[0];
      var r := Replace(s, Token(k), vars[k]);
      ReplaceFills(s, k, vars);
      WithoutMembers(Placeholders(s), k);
      RenderedFills(r, order[1..], vars);
      assert order == [k] + order[1..];
    }
  }

  lemma {:induction false} NothingToFill(s: string, vars: map<string, string>)
    requires Placeholders(s) == []
    ensures Substitute(s, vars) == s
    decreases |s|
  {
    if s != [] && !OpensHole(s) {
      NothingToFill(s[1..], vars);
      assert s == [s[0]] + s[1..];
    }
  }

  lemma SomeMember(names: seq<string>)
    requires names != []
    ensures exists n :: n in names
  {
    assert names[0] in names;
  }

  /**
   With brace-free names and values and a value for every placeholder, rendering is
   simultaneous substitution, leaves no placeholder, and does not depend on the order.
   */
  lemma RenderIsSubstitution(s: string, order: seq<string>, vars: map<string, string>)
    requires Plain(vars) && AllFound(s, vars)
    requires forall k :: k in order <==> k in vars
    ensures Rendered(s, order, vars) == Substitute(s, vars)
    ensures Placeholders(Rendered(s, order, vars)) == []
  {
    var r := Rendered(s, order, vars);
    RenderedFills(s, order, vars);
    if Placeholders(r) != [] { SomeMember(Placeholders(r)); }
    NothingToFill(r, vars);
  }

  lemma ReplaceToken(k: string, value: string)
    ensures Replace(Token(k), Token(k), value) == value
  {
    assert Token(k)[|Token(k)|..] == [];
  }

  // ----- Braces make the order matter -----

  /** Nothing in the text opens a placeholder. */
  ghost predicate NoHole(s: string) {
    forall i :: 0 <= i < |s| ==> !OpensHole(s[i..])
  }

  lemma NoHoleRest(s: string)
    requires NoHole(s) && s != []
    ensures !OpensHole(s) && NoHole(s[1..])
  {
    assert s[0..] == s;
    assert forall i :: 0 <= i < |s| - 1 ==> s[1..][i..] == s[i + 1..];
  }

  lemma {:induction false} NoHoleCopies(s: string, k: string, value: string)
    requires NoHole(s)
    ensures Replace(s, Token(k), value) == s
    decreases |s|
  {
    if s != [] {
      NoHoleRest(s);
      NoHoleCopies(s[1..], k, value);
    }
  }

  lemma {:induction false} NoHoleNoNames(s: string)
    requires NoHole(s)
    ensures Placeholders(s) == []
    decreases |s|
  {
    if s != [] {
      NoHoleRest(s);
      NoHoleNoNames(s[1..]);
    }
  }

  lemma ReplaceInFront(k: string, tail: string, value: string)
    requires NoHole(tail)
    ensures Replace(Token(k) + tail, Token(k), value) == value + tail
  {
    var s := Token(k) + tail;
    assert Token(k) <= s && s[|Token(k)|..] == tail;
    NoHoleCopies(tail, k, value);
  }

  /** Behind its first character, the token of a brace-free name opens nothing. */
  lemma TokenTail(k: string, n: nat)
    requires BraceFree(k) && 0 < n <= |Token(k)|
    ensures NoHole(Token(k)[n..])
  {
    var t := Token(k)[n..];
    assert forall i :: 2 <= i < |Token(k)| ==> Token(k)[i] != '{';
    forall i | 0 <= i < |t| ensures !OpensHole(t[i..]) {
      if |t[i..]| >= 2 { assert t[i..][1] == Token(k)[n + i + 1]; }
    }
  }

  lemma ReplaceBehind(u: string, k: string, value: string)
    requires BraceFree(u)
    ensures Replace(u + Token(k), Token(k), value) == u + value
  {
    var s := u + Token(k);
    forall i | 0 <= i < |u| ensures !(Token(k) <= s[i..]) {
      assert s[i..][0] == u[i] && Token(k)[0] == '{';
    }
    ReplaceCopies(u, Token(k), Token(k), value);
    ReplaceToken(k, value);
  }

  lemma TwoInTurn(s: string, j: string, k: string, vars: map<string, string>)
    requires j in vars && k in vars
    ensures Rendered(s, [j, k], vars) == Replace(Replace(s, Token(j), vars[j]), Token(k), vars[k])
  {
    var t := Replace(s, Token(j), vars[j]);
    assert [j, k][1..] == [k] && [k][1..] == [];
    assert Rendered(t, [k], vars) == Rendered(Replace(t, Token(k), vars[k]), [], vars);
  }

  /** A template with one placeholder, followed by the end of the token of `k`. */
  function Completed(j: string, k: string, n: nat): (s: string)
    requires n <= |Token(k)|
  {
    Token(j) + Token(k)[n..]
  }

  lemma CompletedNames(j: string, k: string, n: nat)
    requires BraceFree(j) && BraceFree(k) && 0 < n <= |Token(k)|
    ensures Placeholders(Completed(j, k, n)) == [j]
  {
    TokenTail(k, n);
    NoHoleNoNames(Token(k)[n..]);
    HoleCloses(j, Token(k)[n..]);
    HoleNames(Completed(j, k, n));
  }

  /**
   A value that ends in the beginning of a placeholder, in front of the rest of it, makes the result
   depend on the order: the token it completes is replaced in one order and left over in the other.
   */
  lemma BracesMakeOrderMatter(j: string, k: string, u: string, n: nat, value: string, vars: map<string, string>)
    requires BraceFree(j) && BraceFree(k) && BraceFree(u) && j != k && 0 < n <= |Token(k)|
    requires vars == map[j := u + Token(k)[..n], k := value]
    ensures AllFound(Completed(j, k, n), vars)
    ensures Rendered(Completed(j, k, n), [j, k], vars) == u + value
    ensures Rendered(Completed(j, k, n), [k, j], vars) == u + Token(k)
  {
    CompletedNames(j, k, n);
    TokenCompleted(j, k, u, n);
    ReplaceBehind(u, k, value);
    TwoInTurn(Completed(j, k, n), j, k, vars);
    NotYetCompleted(j, k, n, value);
    TwoInTurn(Completed(j, k, n), k, j, vars);
  }

  lemma TokenCompleted(j: string, k: string, u: string, n: nat)
    requires BraceFree(k) && 0 < n <= |Token(k)|
    ensures Replace(Completed(j, k, n), Token(j), u + Token(k)[..n]) == u + Token(k)
  {
    TokenTail(k, n);
    ReplaceInFront(j, Token(k)[n..], u + Token(k)[..n]);
    assert (u + Token(k)[..n]) + Token(k)[n..] == u + Token(k);
  }

  lemma NotYetCompleted(j: string, k: string, n: nat, value: string)
    requires BraceFree(j) && BraceFree(k) && j != k && 0 < n <= |Token(k)|
    ensures Replace(Completed(j, k, n), Token(k), value) == Completed(j, k, n)
  {
    TokenTail(k, n);
    OtherTokenAbsent(k, j, Token(k)[n..]);
    ReplaceCopies(Token(j), Token(k)[n..], Token(k), value);
    NoHoleCopies(Token(k)[n..], k, value);
  }

  // ----- The checks around rendering -----

  datatype LoadError = MissingValues(names: seq<string>) | Unresolved(names: seq<string>)

  /** The names without a value, in the order they are found. */
  function Missing(names: seq<string>, vars: map<string, string>): (r: seq<string>) {
    if names == [] then []
    else Missing(names[..|names| - 1], vars) + if names[|names| - 1] in vars then [] else [names[|names| - 1]]
  }

  lemma {:induction false} MissingNone(names: seq<string>, vars: map<string, string>)
    ensures Missing(names, vars) == [] <==> forall n :: n in names ==> n in vars
  {
    if names != [] {
      assert names == names[..|names| - 1] + [names[|names| - 1]];
      MissingNone(names[..|names| - 1], vars);
    }
  }

  /** What the file yields: rendered text, or the names that were missing or left over. */
  function Loaded(content: string, order: seq<string>, vars: map<string, string>): (r: Result<string, LoadError>)
    requires forall k :: k in order ==> k in vars
  {
    var missing, rendered := Missing(Placeholders(content), vars), Rendered(content, order, vars);
    if missing != [] then Err(MissingValues(missing))
    else if Placeholders(rendered) != [] then Err(Unresolved(Placeholders(rendered)))
    else Ok(rendered)
  }

  method LoadTemplate(content: string, vars: map<string, string>, order: seq<string>)
    returns (r: Result<string, LoadError>)
    requires forall k :: k in order <==> k in vars
    ensures r == Loaded(content, order, vars)
    ensures r.Err? && r.error.MissingValues? <==> !AllFound(content, vars)
    ensures Plain(vars) && AllFound(content, vars) ==> r == Ok(Substitute(content, vars))
  {
    var found := FindPlaceholders(content);
    var missing := [];
    for i := 0 to |found|
      invariant missing == Missing(found[..i], vars)
    {
      assert found[..i + 1][..i] == found[..i];
      if found[i] !in vars { missing := missing + [found[i]]; }
    }
    assert found[..|found|] == found;
    MissingNone(found, vars);
    if missing != [] { return Err(MissingValues(missing)); }
    var rendered := RenderTemplate(content, vars, order);
    var unresolved := FindPlaceholders(rendered);
    if Plain(vars) { RenderIsSubstitution(content, order, vars); }
    if unresolved != [] { return Err(Unresolved(unresolved)); }
    return Ok(rendered);
  }

  /** The loader accepts the first of those orders and refuses the second. */
  lemma LoaderDependsOnOrder(j: string, k: string, u: string, n: nat, value: string, vars: map<string, string>)
    requires BraceFree(j) && BraceFree(k) && BraceFree(u) && BraceFree(value) && j != k && 0 < n <= |Token(k)|
    requires vars == map[j := u + Token(k)[..n], k := value]
    ensures Loaded(Completed(j, k, n), [j, k], vars) == Ok(u + value)
    ensures Loaded(Completed(j, k, n), [k, j], vars) == Err(Unresolved([k]))
  {
    BracesMakeOrderMatter(j, k, u, n, value, vars);
    CompletedNames(j, k, n);
    MissingNone([j], vars);
    NoHoleNoNames(u + value);
    PlainPrefixNames(u, Token(k));
    assert Completed(k, k, |Token(k)|) == Token(k);
    CompletedNames(k, k, |Token(k)|);
  }

  /** The token of `k` between two more braces, which is also a token and a brace. */
  function Tripled(k: string): (s: string) {
    ['{'] + Token(k) + ['}']
  }

  lemma TripledIsToken(k: string)
    ensures Tripled(k) == Token(['{'] + k) + ['}']
  {
    assert Token(['{'] + k) == ['{', '{'] + (['{'] + k) + ['}', '}'];
  }

  lemma TripledNames(k: string)
    requires BraceFree(k)
    ensures Placeholders(Tripled(k)) == [['{'] + k]
  {
    var s := Tripled(k);
    var name, t := ['{'] + k, s[2..];
    assert t == name + ['}', '}', '}'];
    assert forall i :: 0 <= i < |name| ==> t[i] == name[i] && t[i] != '}';
    assert t[|name|] == '}' && t[|name| + 1] == '}';
    assert FindPair(t, '}') == Some(|name|);
    assert t[..|name|] == name && t[|name| + 2..] == ['}'];
    HoleNames(s);
    NoHoleNoNames(['}']);
  }

  lemma Braced(v: string)
    requires BraceFree(v)
    ensures NoHole(v + ['}']) && NoHole(['{'] + v + ['}'])
  {
    var s := ['{'] + v + ['}'];
    forall i | 0 <= i < |s| ensures !OpensHole(s[i..]) {
      if |s[i..]| >= 2 { assert s[i..][1] == s[i + 1]; }
    }
    assert s[1..] == v + ['}'];
    NoHoleRest(s);
  }

  lemma OuterFirst(k: string, u: string, v: string)
    requires BraceFree(k) && BraceFree(u)
    ensures Replace(Replace(Tripled(k), Token(['{'] + k), u), Token(k), v) == u + ['}']
  {
    Braced("");
    Braced(u);
    assert "" + ['}'] == ['}'];
    TripledIsToken(k);
    ReplaceInFront(['{'] + k, ['}'], u);
    NoHoleCopies(u + ['}'], k, v);
  }

  lemma InnerReplaced(k: string, v: string)
    requires BraceFree(k)
    ensures Replace(Tripled(k), Token(k), v) == ['{'] + v + ['}']
  {
    var s := Tripled(k);
    Braced("");
    assert "" + ['}'] == ['}'];
    TripledNotToken(k);
    assert s[0] == '{' && s[1..] == Token(k) + ['}'];
    ReplaceInFront(k, ['}'], v);
    assert ['{'] + (v + ['}']) == ['{'] + v + ['}'];
  }

  lemma InnerFirst(k: string, u: string, v: string)
    requires BraceFree(k) && BraceFree(v)
    ensures Replace(Replace(Tripled(k), Token(k), v), Token(['{'] + k), u) == ['{'] + v + ['}']
  {
    InnerReplaced(k, v);
    Braced(v);
    NoHoleCopies(['{'] + v + ['}'], ['{'] + k, u);
  }

  lemma TripledNotToken(k: string)
    requires BraceFree(k)
    ensures !(Token(k) <= Tripled(k))
  {
    assert Tripled(k)[2] == '{';
    assert Token(k)[2] == if k == "" then '}' else k[0];
  }

  /** With a brace in a name, the loader accepts two different texts for the two orders of the same variables. */
  lemma LoaderAcceptsBoth(k: string, u: string, v: string, vars: map<string, string>)
    requires BraceFree(k) && BraceFree(u) && BraceFree(v)
    requires vars == map[['{'] + k := u, k := v]
    ensures Loaded(Tripled(k), [['{'] + k, k], vars) == Ok(u + ['}'])
    ensures Loaded(Tripled(k), [k, ['{'] + k], vars) == Ok(['{'] + v + ['}'])
    ensures u + ['}'] != ['{'] + v + ['}']
  {
    var inner := ['{'] + k;
    assert |inner| != |k|;
    TripledNames(k);
    MissingNone([inner], vars);
    OuterFirst(k, u, v);
    InnerFirst(k, u, v);
    Braced(u);
    Braced(v);
    NoHoleNoNames(u + ['}']);
    NoHoleNoNames(['{'] + v + ['}']);
    TwoInTurn(Tripled(k), inner, k, vars);
    TwoInTurn(Tripled(k), k, inner, vars);
    assert (['{'] + v + ['}'])[0] == '{';
    assert u != "" ==> (u + ['}'])[0] == u[0];
  }
}
