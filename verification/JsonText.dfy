/**
 Compact JSON text as `serde_json`'s `CompactFormatter` writes it, with the string escapes of
 section 7 of RFC 8259.

 Each writer takes the text that follows, so `Emit(v, rest)` is the text of `v` and then `rest`.
 */
module JsonText {
  import opened Decimals
  import opened Json

  function HexDigit(d: nat): (c: char)
    requires d < 16
    ensures d < 10 ==> c == Digit(d)
  {
    if d < 10 then Digit(d) else (87 + d) as char
  }

  /** Quotes, backslashes and control characters are escaped; everything else is verbatim. */
  function EscapeChar(c: char): (e: string) {
    match c
    case '\"' => ['\\', '\"']
    case '\\' => ['\\', '\\']
    case '\U{08}' => ['\\', 'b']
    case '\t' => ['\\', 't']
    case '\n' => ['\\', 'n']
    case '\U{0C}' => ['\\', 'f']
    case '\r' => ['\\', 'r']
    case _ =>
      if c < ' ' then ['\\', 'u', '0', '0', HexDigit(c as int / 16), HexDigit(c as int % 16)]
      else [c]
  }

  function EmitEscaped(s: string, rest: string): (t: string) {
    if s == [] then rest else EscapeChar(s[0]) + EmitEscaped(s[1..], rest)
  }

  function EmitString(s: string, rest: string): (t: string) {
    ['\"'] + EmitEscaped(s, ['\"'] + rest)
  }

  function EmitNumber(n: int, rest: string): (t: string) {
    if n < 0 then ['-'] + (OfNat(-n) + rest) else OfNat(n) + rest
  }

  function Emit(v: Value, rest: string): (t: string)
    requires WellFormed(v)
    decreases v
  {
    match v
    case Null => "null" + rest
    case Bool(b) => (if b then "true" else "false") + rest
    case Number(n) => EmitNumber(n, rest)
    case Str(s) => EmitString(s, rest)
    case Array(items) => ['['] + EmitItems(items, [']'] + rest)
    case Object(_, _) => ['{'] + EmitMembers(v, 0, ['}'] + rest)
  }

  function EmitItems(items: seq<Value>, rest: string): (t: string)
    requires forall i :: 0 <= i < |items| ==> WellFormed(items[i])
    decreases items
  {
    if items == [] then rest
    else Emit(items[0], EmitMoreItems(items[1..], rest))
  }

  function EmitMoreItems(items: seq<Value>, rest: string): (t: string)
    requires forall i :: 0 <= i < |items| ==> WellFormed(items[i])
    decreases items
  {
    if items == [] then rest
    else [','] + Emit(items[0], EmitMoreItems(items[1..], rest))
  }

  /** The members of `o` from the `i`-th on. */
  function EmitMembers(o: Value, i: nat, rest: string): (t: string)
    requires WellFormed(o) && o.Object? && i <= |o.keys|
    decreases o, |o.keys| - i
  {
    if i == |o.keys| then rest
    else
      (if i == 0 then [] else [',']) +
      EmitString(o.keys[i], [':'] + Emit(o.fields[o.keys[i]], EmitMembers(o, i + 1, rest)))
  }

  /** The compact text of a whole document. */
  function Print(v: Value): (t: string)
    requires WellFormed(v)
  {
    Emit(v, "")
  }
}
