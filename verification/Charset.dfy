/**
 The charset gate over serialized JSON (src/visualsign/src/lib.rs).

 The gate only scans the escaped text; `EmitClean` says what that scan means for the strings
 of the document itself.
 */
module Charset {
  import opened OrderedSeqs
  import opened Decimals
  import opened Json
  import opened JsonText

  /** The letters that, right after a backslash, make a forbidden escape. */
  const ForbiddenLetters: seq<char> := ['u', 't', 'r', 'b', 'f', '/']

  predicate IsForbiddenLetter(c: char) {
    c == 'u' || c == 't' || c == 'r' || c == 'b' || c == 'f' || c == '/'
  }

  predicate ForbiddenPair(c: char, d: char) {
    c == '\\' && IsForbiddenLetter(d)
  }

  predicate IsAscii(c: char) {
    c as int < 0x80
  }

  predicate IsAsciiGraphic(c: char) {
    '!' <= c <= '~'
  }

  predicate IsAsciiWhitespace(c: char) {
    c == ' ' || c == '\t' || c == '\n' || c == '\U{0C}' || c == '\r'
  }

  predicate TextChar(c: char) {
    IsAscii(c) && (IsAsciiGraphic(c) || IsAsciiWhitespace(c))
  }

  ghost predicate NoForbiddenPair(t: string) {
    forall i :: 0 <= i < |t| - 1 ==> !ForbiddenPair(t[i], t[i + 1])
  }

  /** What the scan of the serialized text accepts. */
  ghost predicate CleanText(t: string) {
    NoForbiddenPair(t) && forall i :: 0 <= i < |t| ==> TextChar(t[i])
  }

  /** A string of the document: printable ASCII and newlines, no spelled-out forbidden escape. */
  ghost predicate SafeString(s: string) {
    NoForbiddenPair(s) && forall i :: 0 <= i < |s| ==> ' ' <= s[i] <= '~' || s[i] == '\n'
  }

  /** Every string of the document is safe, object keys included. */
  ghost predicate SafeStrings(v: Value) {
    match v
    case Str(s) => SafeString(s)
    case Array(items) => forall i :: 0 <= i < |items| ==> SafeStrings(items[i])
    case Object(keys, fields) =>
      && (forall k :: k in fields ==> SafeString(k))
      && (forall k :: k in fields ==> SafeStrings(fields[k]))
    case _ => true
  }

  lemma PairsCons(c: char, t: string)
    ensures NoForbiddenPair([c] + t) <==>
            (t == [] || !ForbiddenPair(c, t[0])) && NoForbiddenPair(t)
  {
    var u := [c] + t;
    if NoForbiddenPair(u) {
      assert t != [] ==> !ForbiddenPair(u[0], u[1]);
      forall i | 0 <= i < |t| - 1 ensures !ForbiddenPair(t[i], t[i + 1]) {
        assert !ForbiddenPair(u[i + 1], u[i + 2]);
      }
    } else {
      var i :| 0 <= i < |u| - 1 && ForbiddenPair(u[i], u[i + 1]);
      assert i > 0 ==> ForbiddenPair(t[i - 1], t[i]);
    }
  }

  lemma CleanCons(c: char, t: string)
    ensures CleanText([c] + t) <==>
            TextChar(c) && (t == [] || !ForbiddenPair(c, t[0])) && CleanText(t)
  {
    PairsCons(c, t);
    var u := [c] + t;
    if forall i :: 0 <= i < |u| ==> TextChar(u[i]) {
      assert TextChar(u[0]);
      forall i | 0 <= i < |t| ensures TextChar(t[i]) { assert TextChar(u[i + 1]); }
    }
  }

  lemma SafeCons(s: string)
    requires s != []
    ensures SafeString(s) <==>
            && (' ' <= s[0] <= '~' || s[0] == '\n')
            && (|s| == 1 || !ForbiddenPair(s[0], s[1]))
            && SafeString(s[1..])
  {
    assert s == [s[0]] + s[1..];
    PairsCons(s[0], s[1..]);
  }

  /** The escaped form of a string starts with a forbidden letter only if the string does. */
  lemma EscapedStart(s: string, rest: string)
    requires rest != [] && !IsForbiddenLetter(rest[0])
    ensures EmitEscaped(s, rest) != []
    ensures IsForbiddenLetter(EmitEscaped(s, rest)[0]) <==> s != [] && IsForbiddenLetter(s[0])
  {
  }

  lemma TwoCons(c: char, d: char, t: string)
    ensures CleanText([c, d] + t) <==>
            && TextChar(c) && TextChar(d)
            && !ForbiddenPair(c, d) && (t == [] || !ForbiddenPair(d, t[0]))
            && CleanText(t)
  {
    assert [c, d] + t == [c] + ([d] + t);
    CleanCons(c, [d] + t);
    CleanCons(d, t);
  }

  lemma EscapeCharClean(c: char, t: string)
    requires t != []
    ensures CleanText(EscapeChar(c) + t) <==>
            (' ' <= c <= '~' || c == '\n') && !ForbiddenPair(c, t[0]) && CleanText(t)
  {
    var e := EscapeChar(c);
    if |e| == 1 {
      CleanCons(c, t);
    } else if |e| == 2 {
      TwoCons(e[0], e[1], t);
    } else {
      assert e + t == [e[0], e[1]] + (e[2..] + t);
      TwoCons(e[0], e[1], e[2..] + t);
    }
  }

  lemma {:induction false} EscapedClean(s: string, rest: string)
    requires rest != [] && !IsForbiddenLetter(rest[0])
    ensures CleanText(EmitEscaped(s, rest)) <==> SafeString(s) && CleanText(rest)
  {
    if s != [] {
      EscapedStart(s[1..], rest);
      EscapeCharClean(s[0], EmitEscaped(s[1..], rest));
      EscapedClean(s[1..], rest);
      SafeCons(s);
    }
  }

  lemma StringClean(s: string, rest: string)
    ensures CleanText(EmitString(s, rest)) <==> SafeString(s) && CleanText(rest)
  {
    CleanCons('\"', EmitEscaped(s, ['\"'] + rest));
    EscapedClean(s, ['\"'] + rest);
    CleanCons('\"', rest);
  }

  /** A word of letters and digits never interferes with the scan. */
  lemma {:induction false} PlainClean(word: string, rest: string)
    requires forall i :: 0 <= i < |word| ==> TextChar(word[i]) && word[i] != '\\'
    ensures CleanText(word + rest) <==> CleanText(rest)
  {
    if word == [] {
      assert word + rest == rest;
    } else {
      assert word + rest == [word[0]] + (word[1..] + rest);
      CleanCons(word[0], word[1..] + rest);
      PlainClean(word[1..], rest);
    }
  }

  /** The scan of a document's text accepts it exactly when all of its strings are safe. */
  lemma {:induction false} EmitClean(v: Value, rest: string)
    requires WellFormed(v)
    ensures CleanText(Emit(v, rest)) <==> SafeStrings(v) && CleanText(rest)
    decreases v
  {
    match v
    case Null => PlainClean("null", rest);
    case Bool(b) => PlainClean(if b then "true" else "false", rest);
    case Number(n) =>
      PlainClean(OfNat(if n < 0 then -n else n), rest);
      CleanCons('-', OfNat(if n < 0 then -n else n) + rest);
    case Str(s) => StringClean(s, rest);
    case Array(items) =>
      CleanCons('[', EmitItems(items, [']'] + rest));
      ItemsClean(items, [']'] + rest);
      CleanCons(']', rest);
    case Object(_, _) =>
      CleanCons('{', EmitMembers(v, 0, ['}'] + rest));
      MembersClean(v, 0, ['}'] + rest);
      CleanCons('}', rest);
      SafeMembers(v);
  }

  lemma {:induction false} ItemsClean(items: seq<Value>, rest: string)
    requires forall i :: 0 <= i < |items| ==> WellFormed(items[i])
    ensures CleanText(EmitItems(items, rest)) <==>
            (forall i :: 0 <= i < |items| ==> SafeStrings(items[i])) && CleanText(rest)
    decreases items, 1
  {
    if items != [] {
      EmitClean(items[0], EmitMoreItems(items[1..], rest));
      MoreItemsClean(items[1..], rest);
      assert forall i :: 0 < i < |items| ==> items[i] == items[1..][i - 1];
    }
  }

  lemma {:induction false} MoreItemsClean(items: seq<Value>, rest: string)
    requires forall i :: 0 <= i < |items| ==> WellFormed(items[i])
    ensures CleanText(EmitMoreItems(items, rest)) <==>
            (forall i :: 0 <= i < |items| ==> SafeStrings(items[i])) && CleanText(rest)
    decreases items, 0
  {
    if items != [] {
      CleanCons(',', Emit(items[0], EmitMoreItems(items[1..], rest)));
      EmitClean(items[0], EmitMoreItems(items[1..], rest));
      MoreItemsClean(items[1..], rest);
      assert forall i :: 0 < i < |items| ==> items[i] == items[1..][i - 1];
    }
  }

  ghost predicate SafeMember(o: Value, k: string)
    requires o.Object?
  {
    SafeString(k) && k in o.fields && SafeStrings(o.fields[k])
  }

  lemma SafeMembers(o: Value)
    requires WellFormed(o) && o.Object?
    ensures SafeFrom(o, 0) <==> SafeStrings(o)
  {
    SafeFromAll(o, 0);
    assert forall k :: k in o.fields <==> k in Elements(o.keys);
    assert forall j :: 0 <= j < |o.keys| ==> o.keys[j] in o.fields;
  }

  ghost predicate SafeFrom(o: Value, i: nat)
    requires o.Object? && i <= |o.keys|
    decreases |o.keys| - i
  {
    i == |o.keys| || (SafeMember(o, o.keys[i]) && SafeFrom(o, i + 1))
  }

  lemma {:induction false} SafeFromAll(o: Value, i: nat)
    requires o.Object? && i <= |o.keys|
    ensures SafeFrom(o, i) <==> forall j :: i <= j < |o.keys| ==> SafeMember(o, o.keys[j])
    decreases |o.keys| - i
  {
    if i < |o.keys| { SafeFromAll(o, i + 1); }
  }

  lemma {:induction false} MembersClean(o: Value, i: nat, rest: string)
    requires WellFormed(o) && o.Object? && i <= |o.keys|
    ensures CleanText(EmitMembers(o, i, rest)) <==> SafeFrom(o, i) && CleanText(rest)
    decreases o, |o.keys| - i
  {
    MembersStep(o, i, rest);
    if i < |o.keys| {
      MemberClean(o, i, rest);
      MembersClean(o, i + 1, rest);
    }
  }

  lemma MembersStep(o: Value, i: nat, rest: string)
    requires WellFormed(o) && o.Object? && i <= |o.keys|
    ensures i == |o.keys| ==> EmitMembers(o, i, rest) == rest && SafeFrom(o, i)
    ensures i < |o.keys| ==> (SafeFrom(o, i) <==> SafeMember(o, o.keys[i]) && SafeFrom(o, i + 1))
  {
  }

  lemma {:induction false} MemberClean(o: Value, i: nat, rest: string)
    requires WellFormed(o) && o.Object? && i < |o.keys|
    ensures CleanText(EmitMembers(o, i, rest)) <==>
            SafeMember(o, o.keys[i]) && CleanText(EmitMembers(o, i + 1, rest))
    decreases o, 0, 0
  {
    var k := o.keys[i];
    var more := EmitMembers(o, i + 1, rest);
    var member := [':'] + Emit(o.fields[k], more);
    PlainClean(if i == 0 then [] else [','], EmitString(k, member));
    StringClean(k, member);
    CleanCons(':', Emit(o.fields[k], more));
    EmitClean(o.fields[k], more);
  }

  // ----- The scan itself -----

  function LetterIndex(c: char): (f: nat)
    requires IsForbiddenLetter(c)
    ensures f < |ForbiddenLetters| && ForbiddenLetters[f] == c
  {
    match c
    case 'u' => 0
    case 't' => 1
    case 'r' => 2
    case 'b' => 3
    case 'f' => 4
    case _ => 5
  }

  method ContainsPair(text: string, c: char, d: char) returns (found: bool)
    ensures found <==> exists i :: 0 <= i < |text| - 1 && text[i] == c && text[i + 1] == d
  {
    for i := 0 to |text|
      invariant forall j :: 0 <= j < i && j < |text| - 1 ==> !(text[j] == c && text[j + 1] == d)
    {
      if i + 1 < |text| && text[i] == c && text[i + 1] == d { return true; }
    }
    return false;
  }

  /** Rejects forbidden escapes, then non-ASCII text, then unprintable characters. */
  method ScanText(text: string) returns (ok: bool)
    ensures ok <==> CleanText(text)
  {
    for e := 0 to |ForbiddenLetters|
      invariant forall f, i :: 0 <= f < e && 0 <= i < |text| - 1 ==>
                                 !(text[i] == '\\' && text[i + 1] == ForbiddenLetters[f])
    {
      var found := ContainsPair(text, '\\', ForbiddenLetters[e]);
      if found {
        var i :| 0 <= i < |text| - 1 && text[i] == '\\' && text[i + 1] == ForbiddenLetters[e];
        assert ForbiddenPair(text[i], text[i + 1]);
        return false;
      }
    }
    assert NoForbiddenPair(text) by {
      forall i | 0 <= i < |text| - 1 ensures !ForbiddenPair(text[i], text[i + 1]) {
        if IsForbiddenLetter(text[i + 1]) {
          var f := LetterIndex(text[i + 1]);
          assert !(text[i + 1] == ForbiddenLetters[f] && text[i] == '\\');
        }
      }
    }
    for i := 0 to |text|
      invariant forall j :: 0 <= j < i ==> IsAscii(text[j])
    {
      if !IsAscii(text[i]) { return false; }
    }
    for i := 0 to |text|
      invariant forall j :: 0 <= j < i ==> TextChar(text[j])
    {
      if !IsAsciiGraphic(text[i]) && !IsAsciiWhitespace(text[i]) { return false; }
    }
    return true;
  }
}
