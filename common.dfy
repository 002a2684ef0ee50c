/** Helpers shared by every part of the model: failure wrappers, JavaScript
    number results, ASCII case folding, string slicing, and the numeral
    parsers (decimal digits, `BigInt(string)`, `parseInt(s, 16)`) that the
    payment server relies on. */
module Common {

  datatype Option<+T> = None | Some(value: T) {
    function GetOr(default: T): T {
      match this
      case Some(v) => v
      case None => default
    }
  }

  /** Outcome of a foreign call that either returns a value or throws. */
  datatype Attempt<+T> = Ok(value: T) | Threw

  /** A JavaScript number as the source produces it here: an integer or NaN. */
  datatype JsNum = Num(n: int) | NaN

  function Min(a: int, b: int): int {
    if a <= b then a else b
  }

  // ---------------------------------------------------------------------
  // Strings
  // ---------------------------------------------------------------------

  /** `toLowerCase` on one character, restricted to ASCII letters. */
  function LowerChar(c: char): char {
    if 'A' <= c <= 'Z' then (c as int + 32) as char else c
  }

  function Lower(s: string): string {
    seq(|s|, i requires 0 <= i < |s| => LowerChar(s[i]))
  }

  predicate StartsWith(s: string, prefix: string) {
    |prefix| <= |s| && s[..|prefix|] == prefix
  }

  /** `s.slice(a, b)` for 0 <= a <= b: both ends are clamped to the length. */
  function Slice(s: string, a: nat, b: nat): (r: string)
    requires a <= b
    ensures |r| == Min(b, |s|) - Min(a, |s|)
    ensures forall i :: 0 <= i < |r| ==> r[i] == s[a + i]
  {
    s[Min(a, |s|)..Min(b, |s|)]
  }

  // ---------------------------------------------------------------------
  // Decimal numerals
  // ---------------------------------------------------------------------

  predicate IsDigit(c: char) {
    '0' <= c <= '9'
  }

  predicate AllDigits(s: string) {
    forall i :: 0 <= i < |s| ==> IsDigit(s[i])
  }

  function DigitValue(c: char): nat
    requires IsDigit(c)
  {
    c as int - '0' as int
  }

  function DigitChar(d: nat): char
    requires d < 10
  {
    ('0' as int + d) as char
  }

  /** Value of a string of decimal digits, most significant first. */
  function DigitsValue(s: string): nat
    requires AllDigits(s)
    decreases |s|
  {
    if s == [] then 0 else DigitsValue(s[..|s| - 1]) * 10 + DigitValue(s[|s| - 1])
  }

  /** A non-empty numeral of decimal digits, or None. */
  function ParseDecimal(s: string): (r: Option<nat>)
    ensures r.Some? <==> s != [] && AllDigits(s)
  {
    if s != [] && AllDigits(s) then Some(DigitsValue(s)) else None
  }

  /** `n.toString()` for a non-negative integer. */
  function DecimalString(n: nat): string
    decreases n
  {
    if n < 10 then [DigitChar(n)] else DecimalString(n / 10) + [DigitChar(n % 10)]
  }

  /** The printed form is canonical: non-empty decimal digits with no leading zero. */
  lemma {:induction false} DecimalStringDigits(n: nat)
    ensures DecimalString(n) != [] && AllDigits(DecimalString(n))
    ensures |DecimalString(n)| > 1 ==> DecimalString(n)[0] != '0'
    decreases n
  {
    if n >= 10 {
      DecimalStringDigits(n / 10);
      var p := DecimalString(n / 10);
      assert DecimalString(n) == p + [DigitChar(n % 10)];
      assert DecimalString(n)[0] == p[0];
    }
  }

  /** Printing a number and parsing it back gives the number. */
  lemma {:induction false} DecimalRoundTrip(n: nat)
    ensures ParseDecimal(DecimalString(n)) == Some(n)
  {
    var s := DecimalString(n);
    DecimalStringDigits(n);
    if n >= 10 {
      DecimalStringDigits(n / 10);
      DecimalRoundTrip(n / 10);
      assert s[..|s| - 1] == DecimalString(n / 10);
      assert DigitsValue(s) == (n / 10) * 10 + n % 10;
    }
  }

  /** `BigInt(s)` on the numerals the source passes it: the empty string is 0,
      a string of decimal digits is its value, anything else throws (None). */
  function ParseBigInt(s: string): Option<nat> {
    if s == "" then Some(0) else ParseDecimal(s)
  }

  /** `BigInt` accepts exactly the strings of decimal digits, the empty one
      reading as 0. */
  lemma ParseBigIntAccepts(s: string)
    ensures ParseBigInt(s).Some? <==> AllDigits(s)
    ensures s == "" ==> ParseBigInt(s) == Some(0)
  {
  }

  /** `BigInt(n.toString())` is n: an amount printed in decimal reads back. */
  lemma ParseBigIntOfDecimal(n: nat)
    ensures ParseBigInt(DecimalString(n)) == Some(n)
  {
    DecimalStringDigits(n);
    DecimalRoundTrip(n);
  }

  // ---------------------------------------------------------------------
  // parseInt(s, 16)
  // ---------------------------------------------------------------------

  /** White space that `parseInt` skips: tab, vertical tab, form feed,
      the line terminators (LF, CR, U+2028, U+2029), the byte-order mark and
      every space separator (U+0020, U+00A0, U+1680, U+2000 to U+200A,
      U+202F, U+205F, U+3000). */
  predicate IsJsSpace(c: char) {
    || c == '\t' || c == '\U{0B}' || c == '\U{0C}' || c == '\U{FEFF}'
    || c == '\n' || c == '\r' || c == '\U{2028}' || c == '\U{2029}'
    || c == ' ' || c == '\U{A0}' || c == '\U{1680}' || '\U{2000}' <= c <= '\U{200A}'
    || c == '\U{202F}' || c == '\U{205F}' || c == '\U{3000}'
  }

  /** `trimStart`: drop the white space at the front. */
  function TrimStart(s: string): (r: string)
    ensures |r| <= |s|
    ensures r == [] || !IsJsSpace(r[0])
    decreases |s|
  {
    if s != [] && IsJsSpace(s[0]) then TrimStart(s[1..]) else s
  }

  /** What `trimStart` keeps is a suffix of its input, and everything it
      removes is white space. */
  lemma {:induction false} TrimStartRemovesSpace(s: string)
    ensures TrimStart(s) == s[|s| - |TrimStart(s)|..]
    ensures forall i :: 0 <= i < |s| - |TrimStart(s)| ==> IsJsSpace(s[i])
    decreases |s|
  {
    if s != [] && IsJsSpace(s[0]) {
      TrimStartRemovesSpace(s[1..]);
    }
  }

  predicate IsHexDigit(c: char) {
    IsDigit(c) || 'a' <= c <= 'f' || 'A' <= c <= 'F'
  }

  function HexDigitValue(c: char): (d: nat)
    requires IsHexDigit(c)
    ensures d < 16
  {
    if IsDigit(c) then DigitValue(c)
    else if 'a' <= c <= 'f' then c as int - 'a' as int + 10
    else c as int - 'A' as int + 10
  }

  /** Length of the longest prefix made of hexadecimal digits. */
  function HexRun(s: string): (k: nat)
    ensures k <= |s|
    ensures forall i :: 0 <= i < k ==> IsHexDigit(s[i])
    ensures k < |s| ==> !IsHexDigit(s[k])
  {
    if s != [] && IsHexDigit(s[0]) then 1 + HexRun(s[1..]) else 0
  }

  function HexValue(s: string): nat
    requires forall i :: 0 <= i < |s| ==> IsHexDigit(s[i])
    decreases |s|
  {
    if s == [] then 0 else HexValue(s[..|s| - 1]) * 16 + HexDigitValue(s[|s| - 1])
  }

  /** `parseInt(s, 16)`: skip leading white space, take an optional sign and an
      optional `0x`/`0X` prefix, then read the longest run of hexadecimal
      digits; no digits gives NaN. */
  function ParseIntHex(s: string): (r: JsNum)
    // text that is all white space has no digits
    ensures TrimStart(s) == [] ==> r == NaN
    // a number needs a sign or a hexadecimal digit after the white space
    ensures r.Num? ==> var t := TrimStart(s); IsHexDigit(t[0]) || t[0] == '-' || t[0] == '+'
  {
    var t := TrimStart(s);
    var negative := t != [] && t[0] == '-';
    var u := if t != [] && (t[0] == '-' || t[0] == '+') then t[1..] else t;
    var w := if |u| >= 2 && u[0] == '0' && (u[1] == 'x' || u[1] == 'X') then u[2..] else u;
    var k := HexRun(w);
    if k == 0 then NaN
    else if negative then Num(0 - HexValue(w[..k]) as int)
    else Num(HexValue(w[..k]))
  }

  /** Two hexadecimal digits parse to the byte they spell. */
  lemma ParseIntHexByte(s: string, hi: char, lo: char)
    requires |s| == 2 && s[0] == hi && s[1] == lo && IsHexDigit(hi) && IsHexDigit(lo)
    ensures ParseIntHex(s) == Num(16 * HexDigitValue(hi) + HexDigitValue(lo))
  {
    assert TrimStart(s) == s;
    assert HexRun(s[1..][1..]) == 0;
    assert HexRun(s) == 2;
    assert s[..2] == s;
    assert s[..1] == [s[0]];
    assert HexValue(s[..1]) == HexDigitValue(s[0]);
  }

  /** Leading white space does not change the result: a signature whose last
      byte is written U+3000 followed by "1" still parses to 1. */
  lemma ParseIntHexSkipsSpace(s: string)
    requires s != [] && IsJsSpace(s[0])
    ensures ParseIntHex(s) == ParseIntHex(s[1..])
  {
  }

  lemma ParseIntHexAfterIdeographicSpace()
    ensures ParseIntHex("\U{3000}1") == Num(1)
  {
    assert TrimStart("\U{3000}1") == TrimStart("1") == "1" by {
      assert "\U{3000}1"[1..] == "1";
    }
    ParseIntHexOne();
  }

  lemma ParseIntHexOne()
    ensures ParseIntHex("1") == Num(1)
  {
    TrimStartOne();
    HexRunOne();
    assert HexValue("1") == 1 by {
      assert "1"[..0] == "";
    }
    assert "1"[..1] == "1";
  }

  lemma TrimStartOne()
    ensures TrimStart("1") == "1"
  {
  }

  lemma HexRunOne()
    ensures HexRun("1") == 1
  {
    assert "1"[1..] == "";
  }

  /** An empty string, or one that starts with neither a hexadecimal digit,
      white space nor a sign, parses to NaN. */
  lemma ParseIntHexOfNonHex(s: string)
    requires s == [] || (!IsHexDigit(s[0]) && !IsJsSpace(s[0]) && s[0] != '-' && s[0] != '+')
    ensures ParseIntHex(s) == NaN
  {
  }
}
