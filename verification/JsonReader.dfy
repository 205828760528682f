/**
 A reader of compact JSON, written from the grammar of RFC 8259 (sections 2 to 7) with tables of
 its own, and the proof that it takes the printed text of a document for that document
 (src/visualsign/src/lib.rs).

 Insignificant whitespace, fractions and exponents are refused: the printer writes none.
 */
module JsonReader {
  import opened Wrappers
  import opened Decimals
  import opened Json
  import opened JsonText

  /** What was read, and the text behind it. */
  datatype Read<+T> = Fail | Got(value: T, rest: string)

  // ----- Strings -----

  /** The character that a backslash and `d` stand for. */
  function EscapeMeans(d: char): (r: Option<char>) {
    if d == '\"' then Some(34 as char)
    else if d == '\\' then Some(92 as char)
    else if d == '/' then Some(47 as char)
    else if d == 'b' then Some(8 as char)
    else if d == 't' then Some(9 as char)
    else if d == 'n' then Some(10 as char)
    else if d == 'f' then Some(12 as char)
    else if d == 'r' then Some(13 as char)
    else None
  }

  function HexMeans(c: char): (r: Option<nat>)
    ensures r.Some? ==> r.value < 16
  {
    if '0' <= c <= '9' then Some(c as int - 48)
    else if 'a' <= c <= 'f' then Some(c as int - 97 + 10)
    else if 'A' <= c <= 'F' then Some(c as int - 65 + 10)
    else None
  }

  /** Four hexadecimal digits that name a character of the basic plane. */
  function ReadUnicode(s: string): (r: Option<char>)
    ensures r.Some? ==> |s| >= 4
  {
    if |s| < 4 then None
    else
      var a :- HexMeans(s[0]);
      var b :- HexMeans(s[1]);
      var c :- HexMeans(s[2]);
      var d :- HexMeans(s[3]);
      var n := 4096 * a + 256 * b + 16 * c + d;
      if n < 0xD800 || 0xE000 <= n then Some(n as char) else None
  }

  /** One character of a string, escaped or not, before its closing quote. */
  function ReadChar(s: string): (r: Read<char>)
    ensures r.Got? ==> |r.rest| < |s|
  {
    if s == [] || s[0] == '\"' || s[0] < ' ' then Fail
    else if s[0] != '\\' then Got(s[0], s[1..])
    else if |s| < 2 then Fail
    else if s[1] == 'u' then
      var c := ReadUnicode(s[2..]);
      if c.Some? then Got(c.value, s[6..]) else Fail
    else
      var c := EscapeMeans(s[1]);
      if c.Some? then Got(c.value, s[2..]) else Fail
  }

  /** The characters up to the closing quote. */
  function ReadText(s: string): (r: Read<string>)
    ensures r.Got? ==> |r.rest| < |s|
    decreases |s|
  {
    if s != [] && s[0] == '\"' then Got("", s[1..])
    else
      var c := ReadChar(s);
      if c.Fail? then Fail
      else
        var more := ReadText(c.rest);
        if more.Fail? then Fail else Got([c.value] + more.value, more.rest)
  }

  // ----- Numbers and words -----

  function DigitRun(s: string): (k: nat)
    ensures k <= |s| && AllDigits(s[..k]) && NoLeadingDigit(s[k..])
  {
    if s == [] || !IsDigit(s[0]) then 0
    else
      var k := 1 + DigitRun(s[1..]);
      assert s[..k] == [s[0]] + s[1..][..k - 1] && s[k..] == s[1..][k - 1..];
      k
  }

  /** Digits without a leading zero, unless zero is all there is. */
  function ReadNat(s: string): (r: Read<nat>)
    ensures r.Got? ==> |r.rest| < |s|
  {
    var k := DigitRun(s);
    if k == 0 || (k > 1 && s[0] == '0') then Fail else Got(ToNat(s[..k]), s[k..])
  }

  function ReadNumber(s: string): (r: Read<Value>)
    ensures r.Got? ==> |r.rest| < |s|
  {
    var negative := s != [] && s[0] == '-';
    var n := ReadNat(if negative then s[1..] else s);
    if n.Fail? then Fail
    else
      var m: int := n.value;
      Got(Number(if negative then -m else m), n.rest)
  }

  function ReadWord(s: string, word: string, v: Value): (r: Read<Value>)
    ensures r.Got? && word != "" ==> |r.rest| < |s|
  {
    if word <= s then Got(v, s[|word|..]) else Fail
  }

  // ----- Values -----

  function ReadValue(s: string): (r: Read<Value>)
    ensures r.Got? ==> |r.rest| < |s|
    decreases |s|, 0
  {
    if s == [] then Fail
    else if s[0] == '-' || IsDigit(s[0]) then ReadNumber(s)
    else if s[0] == 'n' then ReadWord(s, "null", Null)
    else if s[0] == 't' then ReadWord(s, "true", Bool(true))
    else if s[0] == 'f' then ReadWord(s, "false", Bool(false))
    else if s[0] == '\"' then ReadQuoted(s[1..])
    else if s[0] == '[' then ReadArray(s[1..])
    else if s[0] == '{' then ReadObject(s[1..])
    else Fail
  }

  function ReadQuoted(s: string): (r: Read<Value>)
    ensures r.Got? ==> |r.rest| < |s|
  {
    var t := ReadText(s);
    if t.Fail? then Fail else Got(Str(t.value), t.rest)
  }

  /** What follows an opening bracket. */
  function ReadArray(s: string): (r: Read<Value>)
    ensures r.Got? ==> |r.rest| < |s|
    decreases |s|, 2
  {
    if s != [] && s[0] == ']' then Got(Array([]), s[1..]) else ReadItems(s, [])
  }

  /** What follows an opening brace. */
  function ReadObject(s: string): (r: Read<Value>)
    ensures r.Got? ==> |r.rest| < |s|
    decreases |s|, 2
  {
    if s != [] && s[0] == '}' then Got(EmptyObject, s[1..]) else ReadMembers(s, EmptyObject)
  }

  /** At least one item, after those already read. */
  function ReadItems(s: string, done: seq<Value>): (r: Read<Value>)
    ensures r.Got? ==> |r.rest| < |s|
    decreases |s|, 1
  {
    var v := ReadValue(s);
    if v.Fail? || v.rest == [] then Fail
    else if v.rest[0] == ',' then ReadItems(v.rest[1..], done + [v.value])
    else if v.rest[0] == ']' then Got(Array(done + [v.value]), v.rest[1..])
    else Fail
  }

  /** At least one member, after those already read. */
  function ReadMembers(s: string, o: Value): (r: Read<Value>)
    requires o.Object?
    ensures r.Got? ==> |r.rest| < |s|
    decreases |s|, 1
  {
    if s == [] || s[0] != '\"' then Fail
    else
      var k := ReadText(s[1..]);
      if k.Fail? || k.rest == [] || k.rest[0] != ':' then Fail
      else
        var v := ReadValue(k.rest[1..]);
        if v.Fail? || v.rest == [] then Fail
        else if v.rest[0] == ',' then ReadMembers(v.rest[1..], Put(o, k.value, v.value))
        else if v.rest[0] == '}' then Got(Put(o, k.value, v.value), v.rest[1..])
        else Fail
  }

  /** A whole document, with nothing behind it. */
  function Parse(s: string): (r: Option<Value>) {
    var v := ReadValue(s);
    if v.Got? && v.rest == "" then Some(v.value) else None
  }

  // ----- Reading what was printed -----

  lemma ControlRead(c: char, rest: string)
    requires c < ' '
    ensures ReadUnicode(['0', '0', HexDigit(c as int / 16), HexDigit(c as int % 16)] + rest) == Some(c)
  {
    var n := c as int;
    assert HexMeans(HexDigit(n / 16)) == Some(n / 16);
    assert HexMeans(HexDigit(n % 16)) == Some(n % 16);
    assert 16 * (n / 16) + n % 16 == n;
  }

  /** Whatever its escape is, a character reads as itself. */
  lemma EscapeCharRead(c: char, rest: string)
    ensures ReadChar(EscapeChar(c) + rest) == Got(c, rest)
    ensures (EscapeChar(c) + rest)[0] != '\"'
  {
    var e := EscapeChar(c);
    var s := e + rest;
    assert s[0] == e[0] && s[|e|..] == rest;
    if |e| == 2 {
      assert s[1] == e[1];
    } else if |e| == 6 {
      assert s[1] == 'u';
      assert s[2..] == ['0', '0', HexDigit(c as int / 16), HexDigit(c as int % 16)] + rest;
      ControlRead(c, rest);
    }
  }

  lemma {:induction false} EscapedRead(s: string, rest: string)
    ensures ReadText(EmitEscaped(s, ['\"'] + rest)) == Got(s, rest)
  {
    if s == [] {
      assert (['\"'] + rest)[1..] == rest;
    } else {
      var more := EmitEscaped(s[1..], ['\"'] + rest);
      EscapeCharRead(s[0], more);
      EscapedRead(s[1..], rest);
      assert s == [s[0]] + s[1..];
    }
  }

  lemma StringRead(s: string, rest: string)
    ensures var t := EmitString(s, rest); t != [] && t[0] == '\"' && ReadText(t[1..]) == Got(s, rest)
  {
    assert EmitString(s, rest)[1..] == EmitEscaped(s, ['\"'] + rest);
    EscapedRead(s, rest);
  }

  lemma NatRead(n: nat, rest: string)
    requires NoLeadingDigit(rest)
    ensures ReadNat(OfNat(n) + rest) == Got(n, rest)
  {
    var s := OfNat(n) + rest;
    var k := DigitRun(s);
    assert s == s[..k] + s[k..];
    DigitsSplit(OfNat(n), rest, s[..k], s[k..]);
    ToNatOfNat(n);
    assert s[0] == OfNat(n)[0];
  }

  lemma NumberRead(n: int, rest: string)
    requires NoLeadingDigit(rest)
    ensures ReadNumber(EmitNumber(n, rest)) == Got(Number(n), rest)
  {
    var digits := OfNat(if n < 0 then -n else n) + rest;
    NatRead(if n < 0 then -n else n, rest);
    assert digits[0] == OfNat(if n < 0 then -n else n)[0];
    SignRead(digits, if n < 0 then -n else n, rest);
  }

  lemma SignRead(digits: string, n: nat, rest: string)
    requires ReadNat(digits) == Got(n, rest) && digits != [] && digits[0] != '-'
    ensures ReadNumber(digits) == Got(Number(n), rest)
    ensures ReadNumber(['-'] + digits) == Got(Number(0 - n), rest)
  {
    assert (['-'] + digits)[1..] == digits;
  }

  lemma NumberHead(n: int, rest: string)
    ensures var s := EmitNumber(n, rest); s != [] && (s[0] == '-' || IsDigit(s[0]))
  {
    if n >= 0 { assert EmitNumber(n, rest)[0] == OfNat(n)[0]; }
  }

  lemma ReadsAsNumber(s: string)
    requires s != [] && (s[0] == '-' || IsDigit(s[0]))
    ensures ReadValue(s) == ReadNumber(s)
  {
  }

  lemma WordRead(word: string, v: Value, rest: string)
    ensures ReadWord(word + rest, word, v) == Got(v, rest)
  {
    assert (word + rest)[|word|..] == rest;
  }

  /** The text of a document, in front of any text that cannot extend a number, reads as that document. */
  lemma {:induction false} EmitRead(v: Value, rest: string)
    requires WellFormed(v) && NoLeadingDigit(rest)
    ensures ReadValue(Emit(v, rest)) == Got(v, rest)
    decreases v
  {
    match v
    case Null => WordRead("null", v, rest);
    case Bool(b) => WordRead(if b then "true" else "false", v, rest);
    case Number(n) =>
      NumberRead(n, rest);
      NumberHead(n, rest);
      ReadsAsNumber(EmitNumber(n, rest));
    case Str(s) =>
      Opened('\"', EmitEscaped(s, ['\"'] + rest));
      EscapedRead(s, rest);
    case Array(items) =>
      Opened('[', EmitItems(items, [']'] + rest));
      ArrayRead(items, rest);
    case Object(_, _) =>
      Opened('{', EmitMembers(v, 0, ['}'] + rest));
      ObjectRead(v, rest);
  }

  /** No value begins like the end of a list or an object. */
  lemma EmitHead(v: Value, rest: string)
    requires WellFormed(v)
    ensures Emit(v, rest) != [] && Emit(v, rest)[0] != ']'
  {
    if v.Number? && v.n >= 0 { assert EmitNumber(v.n, rest)[0] == OfNat(v.n)[0]; }
  }

  lemma Opened(c: char, t: string)
    ensures c == '\"' ==> ReadValue([c] + t) == ReadQuoted(t)
    ensures c == '[' ==> ReadValue([c] + t) == ReadArray(t)
    ensures c == '{' ==> ReadValue([c] + t) == ReadObject(t)
  {
    assert ([c] + t)[1..] == t;
  }

  lemma {:induction false} ArrayRead(items: seq<Value>, rest: string)
    requires forall i :: 0 <= i < |items| ==> WellFormed(items[i])
    ensures ReadArray(EmitItems(items, [']'] + rest)) == Got(Array(items), rest)
    decreases items, 1
  {
    if items == [] {
      assert ([']'] + rest)[1..] == rest;
    } else {
      EmitHead(items[0], EmitMoreItems(items[1..], [']'] + rest));
      ItemsRead(items, [], rest);
      assert [] + items == items;
    }
  }

  lemma ItemStep(s: string, done: seq<Value>, v: Value, more: string)
    requires ReadValue(s) == Got(v, more) && more != []
    ensures more[0] == ',' ==> ReadItems(s, done) == ReadItems(more[1..], done + [v])
    ensures more[0] == ']' ==> ReadItems(s, done) == Got(Array(done + [v]), more[1..])
  {
  }

  lemma MoreItems(items: seq<Value>, rest: string)
    requires forall i :: 0 <= i < |items| ==> WellFormed(items[i])
    ensures var more := EmitMoreItems(items, [']'] + rest);
            && more != [] && NoLeadingDigit(more)
            && (items == [] ==> more[0] == ']' && more[1..] == rest)
            && (items != [] ==> more[0] == ',' && more[1..] == EmitItems(items, [']'] + rest))
  {
  }

  lemma {:induction false} ItemsRead(items: seq<Value>, done: seq<Value>, rest: string)
    requires items != [] && forall i :: 0 <= i < |items| ==> WellFormed(items[i])
    ensures ReadItems(EmitItems(items, [']'] + rest), done) == Got(Array(done + items), rest)
    decreases items, 0
  {
    var more := EmitMoreItems(items[1..], [']'] + rest);
    MoreItems(items[1..], rest);
    EmitRead(items[0], more);
    ItemStep(EmitItems(items, [']'] + rest), done, items[0], more);
    assert done + [items[0]] + items[1..] == done + items;
    if |items| == 1 {
      assert done + [items[0]] == done + items;
    } else {
      ItemsRead(items[1..], done + [items[0]], rest);
    }
  }

  /** The first `i` members of `o`. */
  ghost function FirstMembers(o: Value, i: nat): (r: Value)
    requires WellFormed(o) && o.Object? && i <= |o.keys|
    ensures r.Object?
  {
    Object(o.keys[..i], map k | k in o.keys[..i] :: o.fields[k])
  }

  lemma OneMoreMember(o: Value, i: nat)
    requires WellFormed(o) && o.Object? && i < |o.keys|
    ensures Put(FirstMembers(o, i), o.keys[i], o.fields[o.keys[i]]) == FirstMembers(o, i + 1)
  {
    var k := o.keys[i];
    assert o.keys[..i + 1] == o.keys[..i] + [k];
    assert k !in o.keys[..i];
    assert FirstMembers(o, i + 1).fields == FirstMembers(o, i).fields[k := o.fields[k]];
  }

  lemma AllMembers(o: Value)
    requires WellFormed(o) && o.Object?
    ensures FirstMembers(o, |o.keys|) == o
  {
    assert o.keys[..|o.keys|] == o.keys;
    assert FirstMembers(o, |o.keys|).fields == o.fields;
  }

  lemma {:induction false} ObjectRead(o: Value, rest: string)
    requires WellFormed(o) && o.Object?
    ensures ReadObject(EmitMembers(o, 0, ['}'] + rest)) == Got(o, rest)
    decreases o, |o.keys| + 1
  {
    if o.keys == [] {
      EmptyRead(o, rest);
    } else {
      FirstMemberText(o, ['}'] + rest);
      MembersRead(o, 0, rest);
    }
  }

  lemma EmptyRead(o: Value, rest: string)
    requires WellFormed(o) && o.Object? && o.keys == []
    ensures ReadObject(EmitMembers(o, 0, ['}'] + rest)) == Got(o, rest)
  {
    assert o.fields == map[];
    assert (['}'] + rest)[1..] == rest;
  }

  lemma FirstMemberText(o: Value, rest: string)
    requires WellFormed(o) && o.Object? && o.keys != []
    ensures EmitMembers(o, 0, rest) == MemberText(o, 0, rest)
    ensures ReadObject(MemberText(o, 0, rest)) == ReadMembers(MemberText(o, 0, rest), FirstMembers(o, 0))
  {
    MembersText(o, 0, rest);
    assert [] + MemberText(o, 0, rest) == MemberText(o, 0, rest);
    assert MemberText(o, 0, rest)[0] == '\"';
    assert FirstMembers(o, 0) == EmptyObject;
  }

  lemma MemberStep(s: string, o: Value, k: string, t: string, v: Value, more: string)
    requires o.Object? && s != [] && s[0] == '\"' && more != []
    requires ReadText(s[1..]) == Got(k, [':'] + t) && ReadValue(t) == Got(v, more)
    ensures more[0] == ',' ==> ReadMembers(s, o) == ReadMembers(more[1..], Put(o, k, v))
    ensures more[0] == '}' ==> ReadMembers(s, o) == Got(Put(o, k, v), more[1..])
  {
    assert ([':'] + t)[1..] == t;
  }

  /** The text of the `i`-th member and all behind it, without a comma in front. */
  function MemberText(o: Value, i: nat, rest: string): (t: string)
    requires WellFormed(o) && o.Object? && i < |o.keys|
  {
    EmitString(o.keys[i], [':'] + Emit(o.fields[o.keys[i]], EmitMembers(o, i + 1, rest)))
  }

  lemma MembersText(o: Value, i: nat, rest: string)
    requires WellFormed(o) && o.Object? && i <= |o.keys|
    ensures EmitMembers(o, i, rest) ==
            if i == |o.keys| then rest else (if i == 0 then [] else [',']) + MemberText(o, i, rest)
  {
  }

  /** Reading one member leads to the next, or to the end. */
  lemma {:induction false} MemberRead(o: Value, i: nat, rest: string)
    requires WellFormed(o) && o.Object? && i < |o.keys|
    ensures var text, read := MemberText(o, i, ['}'] + rest), FirstMembers(o, i);
            ReadMembers(text, read) ==
            if i + 1 == |o.keys| then Got(FirstMembers(o, i + 1), rest)
            else ReadMembers(MemberText(o, i + 1, ['}'] + rest), FirstMembers(o, i + 1))
    decreases o, 0
  {
    var k := o.keys[i];
    var more := EmitMembers(o, i + 1, ['}'] + rest);
    StringRead(k, [':'] + Emit(o.fields[k], more));
    MoreMembers(o, i + 1, rest);
    EmitRead(o.fields[k], more);
    MemberStep(MemberText(o, i, ['}'] + rest), FirstMembers(o, i), k, Emit(o.fields[k], more), o.fields[k], more);
    OneMoreMember(o, i);
  }

  lemma MoreMembers(o: Value, i: nat, rest: string)
    requires WellFormed(o) && o.Object? && 0 < i <= |o.keys|
    ensures var more := EmitMembers(o, i, ['}'] + rest);
            && more != [] && NoLeadingDigit(more)
            && (i == |o.keys| ==> more[0] == '}' && more[1..] == rest)
            && (i < |o.keys| ==> more[0] == ',' && more[1..] == MemberText(o, i, ['}'] + rest))
  {
    MembersText(o, i, ['}'] + rest);
  }

  lemma {:induction false} MembersRead(o: Value, i: nat, rest: string)
    requires WellFormed(o) && o.Object? && i < |o.keys|
    ensures ReadMembers(MemberText(o, i, ['}'] + rest), FirstMembers(o, i)) == Got(o, rest)
    decreases o, |o.keys| - i
  {
    MemberRead(o, i, rest);
    if i + 1 == |o.keys| { AllMembers(o); } else { MembersRead(o, i + 1, rest); }
  }

  /** The printed text of a document parses to that document. */
  lemma ParsePrint(v: Value)
    requires WellFormed(v)
    ensures Parse(Print(v)) == Some(v)
  {
    EmitRead(v, "");
  }

  // ----- Printed text is self-delimiting -----

  lemma EscapedPrefixFree(s: string, x: string, t: string, y: string)
    requires EmitEscaped(s, ['\"'] + x) == EmitEscaped(t, ['\"'] + y)
    ensures s == t && x == y
  {
    EscapedRead(s, x);
    EscapedRead(t, y);
  }

  /** The text of a document, in front of any text that cannot extend a number, fixes both. */
  lemma EmitPrefixFree(a: Value, x: string, b: Value, y: string)
    requires WellFormed(a) && WellFormed(b)
    requires NoLeadingDigit(x) && NoLeadingDigit(y)
    requires Emit(a, x) == Emit(b, y)
    ensures a == b && x == y
  {
    EmitRead(a, x);
    EmitRead(b, y);
  }

  lemma PrintInjective(a: Value, b: Value)
    requires WellFormed(a) && WellFormed(b) && Print(a) == Print(b)
    ensures a == b
  {
    ParsePrint(a);
    ParsePrint(b);
  }
}
