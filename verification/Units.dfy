/**
 Printing wei amounts (src/chain_parsers/visualsign-ethereum/src/fmt.rs) and the number grammar
 they must satisfy (src/visualsign/src/field_builders.rs).
 */
module Units {
  import opened Wrappers
  import opened Decimals

  function Power10(d: nat): (p: nat)
    ensures p > 0
  {
    if d == 0 then 1 else 10 * Power10(d - 1)
  }

  function Zeros(n: nat): (s: string)
    ensures |s| == n && AllDigits(s)
    ensures forall i :: 0 <= i < n ==> s[i] == '0'
  {
    seq(n, _ => '0')
  }

  /** `str::trim_end_matches` with a single character. */
  function TrimEndMatches(s: string, c: char): (r: string)
    ensures r <= s && (r == [] || r[|r| - 1] != c)
    ensures forall i :: |r| <= i < |s| ==> s[i] == c
  {
    if s != [] && s[|s| - 1] == c then TrimEndMatches(s[..|s| - 1], c) else s
  }

  /** Quotient and remainder. */
  function DivMod(n: nat, p: nat): (r: (nat, nat))
    requires p > 0
    ensures r.0 * p + r.1 == n && r.1 < p
  {
    (n / p, n % p)
  }

  function Whole(n: nat, d: nat): (q: nat) {
    DivMod(n, Power10(d)).0
  }

  function Remainder(n: nat, d: nat): (r: nat)
    ensures r < Power10(d)
  {
    DivMod(n, Power10(d)).1
  }

  function PadLeft(s: string, d: nat): (r: string) {
    Zeros(if |s| <= d then d - |s| else 0) + s
  }

  /** `n / 10^d` in full: the integer part, a dot and exactly `d` fraction digits. */
  function FormatUnits(n: nat, d: nat): (s: string) {
    OfNat(Whole(n, d)) + (['.'] + PadLeft(OfNat(Remainder(n, d)), d))
  }

  function TrimTrailingZeros(s: string): (r: string) {
    if '.' in s then TrimEndMatches(TrimEndMatches(s, '0'), '.') else s
  }

  function FormatEther(wei: nat): (s: string) {
    TrimTrailingZeros(FormatUnits(wei, 18))
  }

  function FormatGwei(wei: nat): (s: string) {
    TrimTrailingZeros(FormatUnits(wei, 9))
  }

  // ----- Reading amounts -----

  function FirstDot(s: string): (k: nat)
    ensures k <= |s|
    ensures forall i :: 0 <= i < k ==> s[i] != '.'
    ensures k < |s| ==> s[k] == '.'
  {
    if s == [] || s[0] == '.' then 0 else 1 + FirstDot(s[1..])
  }

  /** The digits before and after the dot; no dot means no digits after it. */
  function SplitDot(s: string): (r: (string, string)) {
    var k := FirstDot(s);
    if k < |s| then (s[..k], s[k + 1..]) else (s, [])
  }

  /** The integer part, and the fraction in units of `10^-d`. */
  function ReadParts(s: string, d: nat): (r: Option<(nat, nat)>) {
    var (whole, fraction) := SplitDot(s);
    if whole != [] && AllDigits(whole) && |fraction| <= d && AllDigits(fraction) && s[|s| - 1] != '.' then
      Some((ToNat(whole), ToNat(fraction + Zeros(d - |fraction|))))
    else None
  }

  /** The amount `s` denotes in units of `10^-d`, when it is one exactly. */
  function ReadUnits(s: string, d: nat): (n: Option<nat>) {
    var (whole, fraction) :- ReadParts(s, d);
    Some(whole * Power10(d) + fraction)
  }

  /** The signed-decimal grammar: an optional sign, digits, and optionally a dot and digits. */
  ghost predicate IsSignedNumber(s: string) {
    var u := if s != [] && (s[0] == '-' || s[0] == '+') then s[1..] else s;
    || (u != [] && AllDigits(u))
    || exists k :: 0 < k < |u| - 1 && u[k] == '.' && AllDigits(u[..k]) && AllDigits(u[k + 1..])
  }

  // ----- The shape of a printed amount -----

  lemma {:induction false} ToNatZeros(n: nat)
    ensures ToNat(Zeros(n)) == 0
  {
    if n > 0 {
      assert Zeros(n)[..n - 1] == Zeros(n - 1);
      ToNatZeros(n - 1);
    }
  }

  lemma {:induction false} ToNatLeadingZeros(k: nat, s: string)
    requires AllDigits(s)
    ensures AllDigits(Zeros(k) + s) && ToNat(Zeros(k) + s) == ToNat(s)
  {
    var t := Zeros(k) + s;
    if s == [] {
      assert t == Zeros(k);
      ToNatZeros(k);
    } else {
      assert t[..|t| - 1] == Zeros(k) + s[..|s| - 1];
      ToNatLeadingZeros(k, s[..|s| - 1]);
    }
  }

  lemma {:induction false} OfNatLength(n: nat, d: nat)
    requires n < Power10(d) && d > 0
    ensures |OfNat(n)| <= d
  {
    if n >= 10 {
      assert n / 10 < Power10(d - 1);
      OfNatLength(n / 10, d - 1);
    }
  }

  /** The fraction digits: `d` of them, denoting the remainder. */
  function Fraction(n: nat, d: nat): (s: string)
    requires d > 0
    ensures |s| == d && AllDigits(s)
  {
    OfNatLength(Remainder(n, d), d);
    PadLeft(OfNat(Remainder(n, d)), d)
  }

  lemma FractionValue(n: nat, d: nat)
    requires d > 0
    ensures ToNat(Fraction(n, d)) == Remainder(n, d)
  {
    OfNatLength(Remainder(n, d), d);
    var f := OfNat(Remainder(n, d));
    ToNatLeadingZeros(d - |f|, f);
    ToNatOfNat(Remainder(n, d));
  }

  /** Trimming is determined by what it removes and where it stops. */
  lemma TrimEndUnique(s: string, r: string, c: char)
    requires r <= s && (r == [] || r[|r| - 1] != c)
    requires forall i :: |r| <= i < |s| ==> s[i] == c
    ensures TrimEndMatches(s, c) == r
  {
    var t := TrimEndMatches(s, c);
    assert t != [] ==> s[|t| - 1] == t[|t| - 1];
    assert r != [] ==> s[|r| - 1] == r[|r| - 1];
    assert |t| == |r|;
  }

  lemma TrimmedPadding(s: string)
    requires AllDigits(s)
    ensures AllDigits(TrimEndMatches(s, '0'))
    ensures s == TrimEndMatches(s, '0') + Zeros(|s| - |TrimEndMatches(s, '0')|)
  {
  }

  /** What is left of the fraction once its trailing zeros are gone. */
  function Significant(n: nat, d: nat): (s: string)
    requires d > 0
    ensures |s| <= d && AllDigits(s) && (s == [] || s[|s| - 1] != '0')
  {
    TrimmedPadding(Fraction(n, d));
    TrimEndMatches(Fraction(n, d), '0')
  }

  lemma TrimZerosAfterDot(a: string, s: string)
    ensures TrimEndMatches(a + (['.'] + s), '0') == a + (['.'] + TrimEndMatches(s, '0'))
  {
    var t := TrimEndMatches(s, '0');
    var full, kept := a + (['.'] + s), a + (['.'] + t);
    assert kept <= full;
    assert kept[|kept| - 1] == if t == [] then '.' else t[|t| - 1];
    assert forall i :: |kept| <= i < |full| ==> full[i] == s[i - |a| - 1];
    TrimEndUnique(full, kept, '0');
  }

  lemma TrimDotAfterZeros(a: string, t: string)
    requires a != [] && AllDigits(a) && AllDigits(t)
    ensures TrimEndMatches(a + (['.'] + t), '.') == if t == [] then a else a + (['.'] + t)
  {
    var kept := a + (['.'] + t);
    if t == [] {
      TrimEndUnique(kept, a, '.');
    } else {
      assert kept[|kept| - 1] == t[|t| - 1];
      TrimEndUnique(kept, kept, '.');
    }
  }

  lemma TrimAfterDot(a: string, s: string)
    requires a != [] && AllDigits(a) && AllDigits(s)
    ensures TrimTrailingZeros(a + (['.'] + s)) ==
            var t := TrimEndMatches(s, '0'); if t == [] then a else a + (['.'] + t)
  {
    assert (a + (['.'] + s))[|a|] == '.';
    TrimZerosAfterDot(a, s);
    TrimmedPadding(s);
    TrimDotAfterZeros(a, TrimEndMatches(s, '0'));
  }

  /** The printed amount: the integer part, and the significant fraction digits if there are any. */
  lemma PrintedShape(n: nat, d: nat)
    requires d > 0
    ensures TrimTrailingZeros(FormatUnits(n, d)) ==
            var t := Significant(n, d);
            if t == [] then OfNat(Whole(n, d)) else OfNat(Whole(n, d)) + (['.'] + t)
  {
    TrimAfterDot(OfNat(Whole(n, d)), Fraction(n, d));
  }

  // ----- Exactness -----

  lemma SignificantValue(n: nat, d: nat)
    requires d > 0
    ensures var t := Significant(n, d); ToNat(t + Zeros(d - |t|)) == Remainder(n, d)
    ensures Significant(n, d) == [] <==> Remainder(n, d) == 0
  {
    FractionValue(n, d);
    TrimmedPadding(Fraction(n, d));
    var t := Significant(n, d);
    if t == [] {
      assert t + Zeros(d) == Zeros(d);
      ToNatZeros(d);
    } else {
      ToNatPositiveBefore(t, d - |t|);
    }
  }

  lemma {:induction false} ToNatPositiveBefore(t: string, k: nat)
    requires AllDigits(t) && t != [] && t[|t| - 1] != '0'
    ensures ToNat(t + Zeros(k)) > 0
  {
    var u := t + Zeros(k);
    if k == 0 {
      assert u == t;
    } else {
      assert u[..|u| - 1] == t + Zeros(k - 1);
      ToNatPositiveBefore(t, k - 1);
    }
  }

  lemma SplitDotted(a: string, t: string)
    requires AllDigits(a)
    ensures SplitDot(a + (['.'] + t)) == (a, t)
  {
    var s := a + (['.'] + t);
    assert s[|a|] == '.';
    assert forall i :: 0 <= i < |a| ==> s[i] == a[i] && a[i] != '.';
    assert FirstDot(s) == |a|;
    assert s[..|a|] == a && s[|a| + 1..] == t;
  }

  lemma SplitWhole(a: string)
    requires AllDigits(a)
    ensures SplitDot(a) == (a, [])
  {
    assert forall i :: 0 <= i < |a| ==> a[i] != '.';
    assert FirstDot(a) == |a|;
  }

  lemma ReadDigits(q: nat, t: string, d: nat)
    requires AllDigits(t) && |t| <= d
    ensures var s := if t == [] then OfNat(q) else OfNat(q) + (['.'] + t);
            ReadParts(s, d) == Some((q, ToNat(t + Zeros(d - |t|))))
  {
    var a := OfNat(q);
    ToNatOfNat(q);
    if t == [] {
      SplitWhole(a);
    } else {
      SplitDotted(a, t);
      var s := a + (['.'] + t);
      assert s[|s| - 1] == t[|t| - 1];
    }
  }

  lemma WholeAndRemainder(n: nat, d: nat)
    ensures Whole(n, d) * Power10(d) + Remainder(n, d) == n
  {
  }

  lemma PrintedParts(n: nat, d: nat)
    requires d > 0
    ensures ReadParts(TrimTrailingZeros(FormatUnits(n, d)), d) == Some((Whole(n, d), Remainder(n, d)))
  {
    PrintedShape(n, d);
    SignificantValue(n, d);
    ReadDigits(Whole(n, d), Significant(n, d), d);
  }

  /** A printed amount reads back as the same amount. */
  lemma PrintedReadsBack(n: nat, d: nat)
    requires d > 0
    ensures ReadUnits(TrimTrailingZeros(FormatUnits(n, d)), d) == Some(n)
  {
    PrintedParts(n, d);
    WholeAndRemainder(n, d);
    PartsAmount(TrimTrailingZeros(FormatUnits(n, d)), d, Whole(n, d), Remainder(n, d), n);
  }

  lemma PartsAmount(s: string, d: nat, whole: nat, fraction: nat, n: nat)
    requires ReadParts(s, d) == Some((whole, fraction)) && whole * Power10(d) + fraction == n
    ensures ReadUnits(s, d) == Some(n)
  {
  }

  lemma PrintedInjective(m: nat, n: nat, d: nat)
    requires d > 0
    requires TrimTrailingZeros(FormatUnits(m, d)) == TrimTrailingZeros(FormatUnits(n, d))
    ensures m == n
  {
    PrintedReadsBack(m, d);
    PrintedReadsBack(n, d);
  }

  /** No trailing zero or dot behind the fraction, and none of the digits in front of it lost. */
  ghost predicate Canonical(s: string, whole: string) {
    && whole <= s
    && ('.' in s ==> s[|s| - 1] != '0' && s[|s| - 1] != '.')
    && ('.' !in s ==> s == whole)
  }

  lemma DottedWellFormed(a: string, t: string)
    requires a != [] && AllDigits(a) && AllDigits(t) && t != [] && t[|t| - 1] != '0'
    ensures IsSignedNumber(a + (['.'] + t)) && Canonical(a + (['.'] + t), a)
  {
    var s := a + (['.'] + t);
    assert s[0] == a[0] && s[|a|] == '.';
    assert s[..|a|] == a && s[|a| + 1..] == t;
    assert s[|s| - 1] == t[|t| - 1];
  }

  /** A printed amount is a well-formed number in its shortest form. */
  lemma PrintedWellFormed(n: nat, d: nat)
    requires d > 0
    ensures IsSignedNumber(TrimTrailingZeros(FormatUnits(n, d)))
    ensures Canonical(TrimTrailingZeros(FormatUnits(n, d)), OfNat(Whole(n, d)))
  {
    var a, t := OfNat(Whole(n, d)), Significant(n, d);
    PrintedShape(n, d);
    if t == [] {
      assert forall i :: 0 <= i < |a| ==> a[i] != '.';
    } else {
      DottedWellFormed(a, t);
    }
  }

  /** Ether and gwei texts are exact, and different amounts never share one. */
  lemma EtherAndGweiExact(wei: nat, other: nat)
    ensures ReadUnits(FormatEther(wei), 18) == Some(wei)
    ensures ReadUnits(FormatGwei(wei), 9) == Some(wei)
    ensures FormatEther(wei) == FormatEther(other) <==> wei == other
    ensures FormatGwei(wei) == FormatGwei(other) <==> wei == other
  {
    PrintedReadsBack(wei, 18);
    PrintedReadsBack(other, 18);
    PrintedReadsBack(wei, 9);
    PrintedReadsBack(other, 9);
  }
}
