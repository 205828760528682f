/**
 Ethereum addresses as the command line takes them
 (src/chain_parsers/visualsign-ethereum/src/cli_plugin.rs, src/visualsign/src/encodings.rs).
 */
module EthAddress {
  import opened Wrappers
  import opened Texts
  import opened Bytes
  import opened Signing

  predicate IsHexDigit(c: char) {
    '0' <= c <= '9' || 'a' <= c <= 'f' || 'A' <= c <= 'F'
  }

  function HexValue(c: char): (n: nat)
    requires IsHexDigit(c)
    ensures n < 16
  {
    if c <= '9' then c as int - '0' as int
    else if c <= 'F' then c as int - 'A' as int + 10
    else c as int - 'a' as int + 10
  }

  predicate AllHex(s: string) {
    forall i :: 0 <= i < |s| ==> IsHexDigit(s[i])
  }

  function ToLower(c: char): (r: char) {
    if 'A' <= c <= 'Z' then (c as int + 32) as char else c
  }

  function Lowercase(s: string): (r: string)
    ensures |r| == |s| && forall i :: 0 <= i < |s| ==> r[i] == ToLower(s[i])
  {
    seq(|s|, i requires 0 <= i < |s| => ToLower(s[i]))
  }

  function SplitHexPrefix(s: string): (r: Option<string>) {
    if StripPrefix(s, "0x").Some? then StripPrefix(s, "0x") else StripPrefix(s, "0X")
  }

  function StripHexPrefix(s: string): (r: string) {
    var body := SplitHexPrefix(s);
    if body.Some? then body.value else s
  }

  predicate ValidEthAddress(s: string) {
    var body := SplitHexPrefix(s);
    body.Some? && |body.value| == 40 && AllHex(body.value)
  }

  function NormalizeEthAddress(s: string): (r: string) {
    "0x" + Lowercase(StripHexPrefix(s))
  }

  /** A valid address: `0x` or `0X` and forty hexadecimal digits. */
  lemma ValidExactly(s: string)
    ensures ValidEthAddress(s) <==>
            |s| == 42 && s[0] == '0' && (s[1] == 'x' || s[1] == 'X') && forall i :: 2 <= i < 42 ==> IsHexDigit(s[i])
  {
    if |s| >= 2 {
      assert s == [s[0], s[1]] + s[2..];
      assert forall i :: 2 <= i < |s| ==> s[i] == s[2..][i - 2];
      assert "0x" <= s <==> s[0] == '0' && s[1] == 'x';
      assert "0X" <= s <==> s[0] == '0' && s[1] == 'X';
    }
  }

  /** Normalising keeps the digits, in lower case, behind `0x`. */
  lemma NormalizedExactly(s: string)
    requires ValidEthAddress(s)
    ensures var n := NormalizeEthAddress(s);
            && |n| == 42 && n[0] == '0' && n[1] == 'x'
            && forall i :: 2 <= i < 42 ==>
                             && ('0' <= n[i] <= '9' || 'a' <= n[i] <= 'f')
                             && (n[i] == s[i] || n[i] as int == s[i] as int + 32)
  {
    ValidExactly(s);
    assert StripHexPrefix(s) == s[2..];
  }

  /** Normalising a valid address gives a valid one that needs no more normalising. */
  lemma NormalizedStable(s: string)
    requires ValidEthAddress(s)
    ensures ValidEthAddress(NormalizeEthAddress(s))
    ensures NormalizeEthAddress(NormalizeEthAddress(s)) == NormalizeEthAddress(s)
  {
    var low := Lowercase(StripHexPrefix(s));
    var n := "0x" + low;
    assert n[..2] == "0x" && n[2..] == low;
    assert StripPrefix(n, "0x") == Some(low);
    assert Lowercase(low) == low;
  }

  // ----- Reading an address -----

  /** What the rest of the code relies on when it reads a normalised address. */
  ghost predicate ReadsHexAddresses(parse: string -> Option<Address>) {
    && (forall s :: ValidEthAddress(s) ==>
                      parse(NormalizeEthAddress(s)).Some? && (parse(s).Some? ==> parse(s) == parse(NormalizeEthAddress(s))))
    && (forall s, t :: ValidEthAddress(s) && ValidEthAddress(t)
                       && parse(NormalizeEthAddress(s)) == parse(NormalizeEthAddress(t)) ==>
                         NormalizeEthAddress(s) == NormalizeEthAddress(t))
  }

  function Pair(body: string, i: nat): (b: byte)
    requires |body| == 40 && AllHex(body) && i < 20
  {
    16 * HexValue(body[2 * i]) + HexValue(body[2 * i + 1])
  }

  function Unhex(body: string): (a: Address)
    requires |body| == 40 && AllHex(body)
  {
    seq(20, i requires 0 <= i < 20 => Pair(body, i))
  }

  /** Forty hexadecimal digits, of either case, behind an optional lower-case prefix. */
  function ParseAddress(s: string): (r: Option<Address>) {
    var body := if StripPrefix(s, "0x").Some? then StripPrefix(s, "0x").value else s;
    if |body| == 40 && AllHex(body) then Some(Unhex(body)) else None
  }

  /** The number that hexadecimal digits denote. */
  function HexNumber(s: string): (n: nat)
    requires AllHex(s)
  {
    if s == [] then 0 else 16 * HexNumber(s[..|s| - 1]) + HexValue(s[|s| - 1])
  }

  lemma {:induction false} UnhexValue(body: string, n: nat)
    requires |body| == 40 && AllHex(body) && n <= 20
    ensures FromBigEndian(Unhex(body)[..n]) == HexNumber(body[..2 * n])
  {
    if n > 0 {
      UnhexValue(body, n - 1);
      var digits := body[..2 * n];
      assert Unhex(body)[..n][..n - 1] == Unhex(body)[..n - 1] && Unhex(body)[..n][n - 1] == Pair(body, n - 1);
      assert digits[..|digits| - 1][..|digits| - 2] == body[..2 * (n - 1)];
      assert digits[..|digits| - 1] == body[..2 * n - 1];
    }
  }

  /** The address that digits read as is their number, in twenty bytes. */
  lemma AddressIsNumber(body: string)
    requires |body| == 40 && AllHex(body)
    ensures ParseAddress(body).Some? && FromBigEndian(ParseAddress(body).value) == HexNumber(body)
  {
    assert body[1] != 'x';
    assert !("0x" <= body);
    UnhexValue(body, 20);
    assert Unhex(body)[..20] == Unhex(body) && body[..40] == body;
  }

  lemma LowercaseSameBytes(body: string)
    requires |body| == 40 && AllHex(body)
    ensures AllHex(Lowercase(body)) && Unhex(Lowercase(body)) == Unhex(body)
  {
    var low := Lowercase(body);
    assert forall i :: 0 <= i < 40 ==> IsHexDigit(low[i]) && HexValue(low[i]) == HexValue(body[i]);
    assert forall i :: 0 <= i < 20 ==> Pair(low, i) == Pair(body, i);
  }

  lemma UnhexInjective(a: string, b: string)
    requires |a| == |b| == 40 && AllHex(a) && AllHex(b) && Lowercase(a) == a && Lowercase(b) == b
    requires Unhex(a) == Unhex(b)
    ensures a == b
  {
    forall i | 0 <= i < 20 ensures a[2 * i] == b[2 * i] && a[2 * i + 1] == b[2 * i + 1] {
      assert Unhex(a)[i] == Unhex(b)[i];
      assert Pair(a, i) == Pair(b, i);
      LowerDigit(a, 2 * i);
      LowerDigit(a, 2 * i + 1);
      LowerDigit(b, 2 * i);
      LowerDigit(b, 2 * i + 1);
    }
    forall j | 0 <= j < 40 ensures a[j] == b[j] {
      assert j == 2 * (j / 2) || j == 2 * (j / 2) + 1;
    }
  }

  lemma LowerDigit(s: string, i: nat)
    requires i < |s| && Lowercase(s) == s && IsHexDigit(s[i])
    ensures s[i] == if HexValue(s[i]) < 10 then (48 + HexValue(s[i])) as char else (87 + HexValue(s[i])) as char
  {
    assert Lowercase(s)[i] == ToLower(s[i]);
  }

  lemma ParseNormalized(s: string)
    requires ValidEthAddress(s)
    ensures var low := Lowercase(StripHexPrefix(s));
            |low| == 40 && AllHex(low) && ParseAddress(NormalizeEthAddress(s)) == Some(Unhex(low))
    ensures ParseAddress(s).Some? ==> ParseAddress(s) == ParseAddress(NormalizeEthAddress(s))
  {
    var body := StripHexPrefix(s);
    LowercaseSameBytes(body);
    var n := NormalizeEthAddress(s);
    assert n[2..] == Lowercase(body);
    assert |s| == 42;
  }

  lemma SameAddressSameForm(s: string, t: string)
    requires ValidEthAddress(s) && ValidEthAddress(t)
    requires ParseAddress(NormalizeEthAddress(s)) == ParseAddress(NormalizeEthAddress(t))
    ensures NormalizeEthAddress(s) == NormalizeEthAddress(t)
  {
    ParseNormalized(s);
    ParseNormalized(t);
    LowercaseStable(StripHexPrefix(s));
    LowercaseStable(StripHexPrefix(t));
    UnhexInjective(Lowercase(StripHexPrefix(s)), Lowercase(StripHexPrefix(t)));
  }

  lemma LowercaseStable(s: string)
    ensures Lowercase(Lowercase(s)) == Lowercase(s)
  {
  }

  /** A hexadecimal reader meets those expectations. */
  lemma HexParserReads()
    ensures ReadsHexAddresses(ParseAddress)
  {
    forall s | ValidEthAddress(s)
      ensures ParseAddress(NormalizeEthAddress(s)).Some?
      ensures ParseAddress(s).Some? ==> ParseAddress(s) == ParseAddress(NormalizeEthAddress(s))
    {
      ParseNormalized(s);
    }
    forall s, t | ValidEthAddress(s) && ValidEthAddress(t)
                  && ParseAddress(NormalizeEthAddress(s)) == ParseAddress(NormalizeEthAddress(t))
      ensures NormalizeEthAddress(s) == NormalizeEthAddress(t)
    {
      SameAddressSameForm(s, t);
    }
  }
}
