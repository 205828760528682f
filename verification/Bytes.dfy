/** Byte strings: fixed-width integers and UTF-8 text. */
module Bytes {
  import opened Wrappers

  type byte = n: int | 0 <= n < 256

  // ----- Integers -----

  function Power256(w: nat): (p: nat)
    ensures p > 0
  {
    if w == 0 then 1 else 256 * Power256(w - 1)
  }

  lemma Power256Values()
    ensures Power256(4) == 0x1_0000_0000
    ensures Power256(8) == 0x1_0000_0000_0000_0000
  {
    assert Power256(2) == 65536;
    assert Power256(4) == 65536 * 65536;
    assert Power256(6) == 65536 * 65536 * 65536;
  }

  /** The `w` low bytes of `n`, least significant first. */
  function LittleEndian(n: nat, w: nat): (bs: seq<byte>)
    ensures |bs| == w
    decreases w
  {
    if w == 0 then [] else [n % 256] + LittleEndian(n / 256, w - 1)
  }

  function FromLittleEndian(bs: seq<byte>): (n: nat) {
    if bs == [] then 0 else bs[0] + 256 * FromLittleEndian(bs[1..])
  }

  lemma {:induction false} FromLittleEndianBound(bs: seq<byte>)
    ensures FromLittleEndian(bs) < Power256(|bs|)
  {
    if bs != [] { FromLittleEndianBound(bs[1..]); }
  }

  lemma {:induction false} LittleEndianOfFrom(bs: seq<byte>)
    ensures LittleEndian(FromLittleEndian(bs), |bs|) == bs
  {
    if bs != [] {
      var n := FromLittleEndian(bs);
      assert n % 256 == bs[0] && n / 256 == FromLittleEndian(bs[1..]);
      LittleEndianOfFrom(bs[1..]);
    }
  }

  lemma {:induction false} FromOfLittleEndian(n: nat, w: nat)
    requires n < Power256(w)
    ensures FromLittleEndian(LittleEndian(n, w)) == n
    decreases w
  {
    if w > 0 {
      FromOfLittleEndian(n / 256, w - 1);
      var bs := LittleEndian(n, w);
      assert bs[1..] == LittleEndian(n / 256, w - 1);
    }
  }

  lemma LittleEndianInjective(m: nat, n: nat, w: nat)
    requires m < Power256(w) && n < Power256(w)
    requires LittleEndian(m, w) == LittleEndian(n, w)
    ensures m == n
  {
    FromOfLittleEndian(m, w);
    FromOfLittleEndian(n, w);
  }

  /** The `w` low bytes of `n`, most significant first. */
  function BigEndian(n: nat, w: nat): (bs: seq<byte>)
    ensures |bs| == w
    decreases w
  {
    if w == 0 then [] else BigEndian(n / 256, w - 1) + [n % 256]
  }

  lemma {:induction false} BigEndianInjective(m: nat, n: nat, w: nat)
    requires m < Power256(w) && n < Power256(w)
    requires BigEndian(m, w) == BigEndian(n, w)
    ensures m == n
    decreases w
  {
    if w > 0 {
      assert BigEndian(m, w)[..w - 1] == BigEndian(m / 256, w - 1);
      assert BigEndian(n, w)[..w - 1] == BigEndian(n / 256, w - 1);
      assert BigEndian(m, w)[w - 1] == m % 256 && BigEndian(n, w)[w - 1] == n % 256;
      BigEndianInjective(m / 256, n / 256, w - 1);
    }
  }

  function FromBigEndian(bs: seq<byte>): (n: nat) {
    if bs == [] then 0 else 256 * FromBigEndian(bs[..|bs| - 1]) + bs[|bs| - 1]
  }

  lemma {:induction false} FromOfBigEndian(n: nat, w: nat)
    requires n < Power256(w)
    ensures FromBigEndian(BigEndian(n, w)) == n
    decreases w
  {
    if w > 0 {
      FromOfBigEndian(n / 256, w - 1);
      assert BigEndian(n, w)[..w - 1] == BigEndian(n / 256, w - 1);
    }
  }

  /** Equal concatenations whose first parts have the same length agree part by part. */
  lemma SplitEqual(a: seq<byte>, x: seq<byte>, b: seq<byte>, y: seq<byte>)
    requires a + x == b + y && |a| == |b|
    ensures a == b && x == y
  {
    assert a == (a + x)[..|a|] && b == (b + y)[..|a|];
    assert x == (a + x)[|a|..] && y == (b + y)[|a|..];
  }

  /** A byte string behind its length, as a `w`-byte little-endian number. */
  function Prefixed(bs: seq<byte>, w: nat): (r: seq<byte>) {
    LittleEndian(|bs|, w) + bs
  }

  lemma PrefixedSplit(a: seq<byte>, x: seq<byte>, b: seq<byte>, y: seq<byte>, w: nat)
    requires |a| < Power256(w) && |b| < Power256(w)
    requires Prefixed(a, w) + x == Prefixed(b, w) + y
    ensures a == b && x == y
  {
    assert Prefixed(a, w) + x == LittleEndian(|a|, w) + (a + x);
    assert Prefixed(b, w) + y == LittleEndian(|b|, w) + (b + y);
    SplitEqual(LittleEndian(|a|, w), a + x, LittleEndian(|b|, w), b + y);
    LittleEndianInjective(|a|, |b|, w);
    SplitEqual(a, x, b, y);
  }

  // ----- UTF-8 -----

  function EncodeChar(c: char): (bs: seq<byte>)
    ensures 1 <= |bs| <= 4
  {
    var n := c as int;
    if n < 0x80 then [n]
    else if n < 0x800 then [0xC0 + n / 64, 0x80 + n % 64]
    else if n < 0x10000 then [0xE0 + n / 4096, 0x80 + n / 64 % 64, 0x80 + n % 64]
    else [0xF0 + n / 262144, 0x80 + n / 4096 % 64, 0x80 + n / 64 % 64, 0x80 + n % 64]
  }

  predicate IsContinuation(b: byte) {
    0x80 <= b < 0xC0
  }

  /** The number with these base-64 digits, most significant first. */
  function Base64Value(a: int, b: int, c: int, d: int): (n: int) {
    262144 * a + 4096 * b + 64 * c + d
  }

  lemma Base64Digits(a: nat, b: nat, c: nat, d: nat)
    requires b < 64 && c < 64 && d < 64
    ensures var n := Base64Value(a, b, c, d);
            n / 262144 == a && n / 4096 % 64 == b && n / 64 % 64 == c && n % 64 == d
  {
    var n := Base64Value(a, b, c, d);
    assert n / 64 == 4096 * a + 64 * b + c;
    assert n / 4096 == 64 * a + b;
  }

  /** The character at the front of `bs`, refusing overlong forms and surrogates. */
  function DecodeChar(bs: seq<byte>): (r: Option<char>) {
    if bs == [] then None
    else if bs[0] < 0x80 then Some(bs[0] as char)
    else if 0xC2 <= bs[0] < 0xE0 && |bs| >= 2 && IsContinuation(bs[1]) then
      Some(Base64Value(0, 0, bs[0] - 0xC0, bs[1] - 0x80) as char)
    else if 0xE0 <= bs[0] < 0xF0 && |bs| >= 3 && IsContinuation(bs[1]) && IsContinuation(bs[2]) then
      var n := Base64Value(0, bs[0] - 0xE0, bs[1] - 0x80, bs[2] - 0x80);
      if 0x800 <= n < 0xD800 || 0xE000 <= n then Some(n as char) else None
    else if 0xF0 <= bs[0] < 0xF5 && |bs| >= 4
            && IsContinuation(bs[1]) && IsContinuation(bs[2]) && IsContinuation(bs[3]) then
      var n := Base64Value(bs[0] - 0xF0, bs[1] - 0x80, bs[2] - 0x80, bs[3] - 0x80);
      if 0x10000 <= n < 0x110000 then Some(n as char) else None
    else None
  }

  lemma Base64OfDigits(n: nat)
    ensures n == Base64Value(n / 262144, n / 4096 % 64, n / 64 % 64, n % 64)
    ensures n < 0x10000 ==> n / 262144 == 0 && n / 4096 % 64 == n / 4096 < 16
    ensures n < 0x800 ==> n / 4096 == 0 && n / 64 % 64 == n / 64 < 32
    ensures n >= 0x80 ==> n / 64 >= 2
    ensures n < 0x110000 ==> n / 262144 < 5
  {
    assert n / 4096 == n / 64 / 64 && n / 262144 == n / 4096 / 64;
  }

  lemma DecodeEncodeChar(c: char, rest: seq<byte>)
    ensures DecodeChar(EncodeChar(c) + rest) == Some(c)
  {
    var n := c as int;
    var e := EncodeChar(c);
    var bs := e + rest;
    Base64OfDigits(n);
    if n < 0x80 {
      assert bs[0] == e[0];
    } else if n < 0x800 {
      assert bs[0] == e[0] && bs[1] == e[1];
    } else if n < 0x10000 {
      assert bs[0] == e[0] && bs[1] == e[1] && bs[2] == e[2];
    } else {
      assert bs[0] == e[0] && bs[1] == e[1] && bs[2] == e[2] && bs[3] == e[3];
    }
  }

  lemma EncodeDecodeChar(bs: seq<byte>)
    requires DecodeChar(bs).Some?
    ensures EncodeChar(DecodeChar(bs).value) <= bs
  {
    if bs[0] < 0x80 {
    } else if bs[0] < 0xE0 {
      Base64Digits(0, 0, bs[0] - 0xC0, bs[1] - 0x80);
    } else if bs[0] < 0xF0 {
      Base64Digits(0, bs[0] - 0xE0, bs[1] - 0x80, bs[2] - 0x80);
    } else {
      Base64Digits(bs[0] - 0xF0, bs[1] - 0x80, bs[2] - 0x80, bs[3] - 0x80);
    }
  }

  function Utf8(s: string): (bs: seq<byte>) {
    if s == [] then [] else EncodeChar(s[0]) + Utf8(s[1..])
  }

  lemma {:induction false} Utf8Length(s: string)
    ensures |Utf8(s)| <= 4 * |s|
  {
    if s != [] { Utf8Length(s[1..]); }
  }

  /** Strict decoding: `None` for anything that is not well-formed UTF-8. */
  function FromUtf8(bs: seq<byte>): (r: Option<string>)
    decreases |bs|
  {
    if bs == [] then Some([])
    else
      var c :- DecodeChar(bs);
      EncodeDecodeChar(bs);
      var tail :- FromUtf8(bs[|EncodeChar(c)|..]);
      Some([c] + tail)
  }

  lemma {:induction false} FromUtf8OfUtf8(s: string)
    ensures FromUtf8(Utf8(s)) == Some(s)
  {
    if s != [] {
      DecodeEncodeChar(s[0], Utf8(s[1..]));
      assert Utf8(s)[|EncodeChar(s[0])|..] == Utf8(s[1..]);
      FromUtf8OfUtf8(s[1..]);
      assert s == [s[0]] + s[1..];
    }
  }

  lemma {:induction false} Utf8OfFromUtf8(bs: seq<byte>)
    requires FromUtf8(bs).Some?
    ensures Utf8(FromUtf8(bs).value) == bs
    decreases |bs|
  {
    if bs != [] {
      EncodeDecodeChar(bs);
      var c := DecodeChar(bs).value;
      var tail := bs[|EncodeChar(c)|..];
      Utf8OfFromUtf8(tail);
      assert ([c] + FromUtf8(tail).value)[1..] == FromUtf8(tail).value;
      assert bs == EncodeChar(c) + tail;
    }
  }

  lemma Utf8Injective(s: string, t: string)
    requires Utf8(s) == Utf8(t)
    ensures s == t
  {
    FromUtf8OfUtf8(s);
    FromUtf8OfUtf8(t);
  }
}
