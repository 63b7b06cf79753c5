/**
 * The JavaScript string primitives the pipeline relies on.
 *
 * A JavaScript string is a sequence of UTF-16 code units, so `.length`,
 * `slice` and `charCodeAt` count and index code units; `JsString` keeps that
 * representation, and `Js` turns a Dafny literal into it.
 */
module JsText {

  type CodeUnit = c: int | 0 <= c < 0x10000
  type JsString = seq<CodeUnit>

  // ---------------------------------------------------------------------------
  // Literals

  /** The UTF-16 encoding of one Unicode scalar value. */
  function Utf16(c: char): (r: seq<CodeUnit>)
    ensures 1 <= |r| <= 2
    ensures (c as int < 0x10000) <==> |r| == 1
  {
    var v := c as int;
    if v < 0x10000 then [v]
    else [0xD800 + (v - 0x10000) / 0x400, 0xDC00 + (v - 0x10000) % 0x400]
  }

  /** The JavaScript string with the same text as the Dafny string `s`. */
  function Js(s: string): (r: JsString)
    ensures |s| <= |r| <= 2 * |s|
  {
    if s == [] then [] else Utf16(s[0]) + Js(s[1..])
  }

  /**
   * A literal written in ASCII, one code unit per character (each
   * character's value is taken modulo 2^16, which changes no ASCII
   * character); `AsciiIsJs` shows that it agrees with `Js` on ASCII text.
   */
  function Ascii(s: string): (r: JsString)
    ensures |r| == |s|
  {
    seq(|s|, i requires 0 <= i < |s| => s[i] as int % 0x10000)
  }

  /** `String(o)` for a plain object `o`. */
  const OBJECT_STRING: JsString := Ascii("[object Object]")

  /** For ASCII text `Ascii` and `Js` agree. */
  lemma {:induction false} AsciiIsJs(s: string)
    requires forall i :: 0 <= i < |s| ==> s[i] as int < 0x80
    ensures Ascii(s) == Js(s)
  {
    if s != [] {
      AsciiIsJs(s[1..]);
      assert Ascii(s) == [s[0] as int] + Ascii(s[1..]);
    }
  }

  /** Below the astral planes each character is one code unit, at the same index. */
  lemma {:induction false} JsBmpIndex(s: string, k: nat)
    requires k < |s| && forall i :: 0 <= i <= k ==> s[i] as int < 0x10000
    ensures k < |Js(s)| && Js(s)[k] == s[k] as int
  {
    if k > 0 {
      JsBmpIndex(s[1..], k - 1);
    }
  }

  lemma {:induction false} JsAppend(a: string, b: string)
    ensures Js(a + b) == Js(a) + Js(b)
  {
    if a != [] {
      assert (a + b)[0] == a[0] && (a + b)[1..] == a[1..] + b;
      JsAppend(a[1..], b);
    } else {
      assert a + b == b;
    }
  }

  // ---------------------------------------------------------------------------
  // Character classes

  const HASH: CodeUnit := 0x23
  const HYPHEN: CodeUnit := 0x2D
  const COMMA: CodeUnit := 0x2C
  const DOT: CodeUnit := 0x2E
  const NEWLINE: CodeUnit := 0x0A
  const SPACE: CodeUnit := 0x20
  const SLASH: CodeUnit := 0x2F
  const ELLIPSIS: CodeUnit := 0x2026

  predicate IsDigit(c: CodeUnit) { 0x30 <= c <= 0x39 }
  predicate IsUpperAscii(c: CodeUnit) { 0x41 <= c <= 0x5A }
  predicate IsLowerAscii(c: CodeUnit) { 0x61 <= c <= 0x7A }

  /**
   * The JavaScript WhiteSpace and LineTerminator code points: what `\s`
   * matches and what `trim()` removes.
   */
  predicate IsSpace(c: CodeUnit) {
    c == 0x09 || c == 0x0A || c == 0x0B || c == 0x0C || c == 0x0D || c == 0x20
    || c == 0xA0 || c == 0x1680 || (0x2000 <= c <= 0x200A) || c == 0x2028
    || c == 0x2029 || c == 0x202F || c == 0x205F || c == 0x3000 || c == 0xFEFF
  }

  // ---------------------------------------------------------------------------
  // toLowerCase (ASCII letters only)

  function LowerUnit(c: CodeUnit): (r: CodeUnit)
    ensures !IsUpperAscii(r)
    ensures IsLowerAscii(c) || IsDigit(c) || c == HYPHEN ==> r == c
  {
    if IsUpperAscii(c) then c + 0x20 else c
  }

  function ToLower(s: JsString): (r: JsString)
    ensures |r| == |s|
    ensures forall i :: 0 <= i < |s| ==> r[i] == LowerUnit(s[i])
  {
    if s == [] then [] else [LowerUnit(s[0])] + ToLower(s[1..])
  }

  lemma ToLowerAppend(a: JsString, b: JsString)
    ensures ToLower(a + b) == ToLower(a) + ToLower(b)
  {
  }

  // ---------------------------------------------------------------------------
  // includes, startsWith

  predicate IsPrefix(p: JsString, s: JsString) {
    |p| <= |s| && s[..|p|] == p
  }

  /** `p` occurs in `s` at offset `i`. */
  predicate OccursAt(s: JsString, p: JsString, i: int) {
    0 <= i <= |s| - |p| && s[i..i + |p|] == p
  }

  /** `s.includes(p)`: `p` occurs in `s` at some offset. */
  predicate Contains(s: JsString, p: JsString) {
    exists i | 0 <= i <= |s| - |p| :: OccursAt(s, p, i)
  }

  lemma ContainsInfix(a: JsString, p: JsString, b: JsString)
    ensures Contains(a + p + b, p)
  {
    var s := a + p + b;
    assert OccursAt(s, p, |a|);
  }

  /** A code unit of `p` that occurs nowhere in `s` keeps `p` out of `s`. */
  lemma AbsentUnitNotContained(s: JsString, p: JsString, k: nat)
    requires k < |p| && p[k] !in s
    ensures !Contains(s, p)
  {
    forall i | 0 <= i <= |s| - |p|
      ensures !OccursAt(s, p, i)
    {
      assert s[i..i + |p|][k] == s[i + k];
    }
  }

  // ---------------------------------------------------------------------------
  // trim()

  function TrimStart(s: JsString): (r: JsString)
    ensures |r| <= |s| && r == s[|s| - |r|..]
    ensures forall i :: 0 <= i < |s| - |r| ==> IsSpace(s[i])
    ensures r == [] || !IsSpace(r[0])
  {
    if |s| > 0 && IsSpace(s[0]) then TrimStart(s[1..]) else s
  }

  /** A run of white space before text that starts with none is all `trimStart` removes. */
  lemma {:induction false} TrimStartRun(a: JsString, b: JsString)
    requires forall i :: 0 <= i < |a| ==> IsSpace(a[i])
    requires b == [] || !IsSpace(b[0])
    ensures TrimStart(a + b) == b
    decreases |a|
  {
    if a == [] {
      assert a + b == b;
    } else {
      assert (a + b)[0] == a[0];
      assert (a + b)[1..] == a[1..] + b;
      TrimStartRun(a[1..], b);
    }
  }

  function TrimEnd(s: JsString): (r: JsString)
    ensures |r| <= |s| && r == s[..|r|]
    ensures forall i :: |r| <= i < |s| ==> IsSpace(s[i])
    ensures r == [] || !IsSpace(r[|r| - 1])
  {
    if |s| > 0 && IsSpace(s[|s| - 1]) then TrimEnd(s[..|s| - 1]) else s
  }

  lemma TrimEndKeepsFirst(s: JsString)
    requires s != [] && !IsSpace(s[0])
    ensures TrimEnd(s) != [] && TrimEnd(s)[0] == s[0]
  {
  }

  /** `s.trim()`: `s` without its leading and trailing white space. */
  function Trim(s: JsString): (r: JsString)
    ensures |r| <= |s|
    ensures r == [] || (!IsSpace(r[0]) && !IsSpace(r[|r| - 1]))
  {
    var t := TrimStart(s);
    if t == [] then [] else TrimEndKeepsFirst(t); TrimEnd(t)
  }

  /** Trimming a string without outer white space changes nothing. */
  lemma TrimOfTrimmed(s: JsString)
    requires s == [] || (!IsSpace(s[0]) && !IsSpace(s[|s| - 1]))
    ensures Trim(s) == s
  {
  }

  // ---------------------------------------------------------------------------
  // split(sep) and join(sep)

  function IndexOfUnit(s: JsString, c: CodeUnit): (i: nat)
    requires c in s
    ensures i < |s| && s[i] == c && c !in s[..i]
  {
    if s[0] == c then 0 else 1 + IndexOfUnit(s[1..], c)
  }

  /** `s.split(sep)` for a one-code-unit separator. */
  function Split(s: JsString, sep: CodeUnit): (r: seq<JsString>)
    ensures |r| >= 1 && sep !in r[0]
    ensures sep !in s ==> r == [s]
    ensures sep in s ==> r[0] == s[..IndexOfUnit(s, sep)]
    decreases |s|
  {
    if sep in s then
      var i := IndexOfUnit(s, sep);
      [s[..i]] + Split(s[i + 1..], sep)
    else
      [s]
  }

  /** `parts.join(sep)`. */
  function Join(parts: seq<JsString>, sep: JsString): JsString {
    if parts == [] then []
    else if |parts| == 1 then parts[0]
    else parts[0] + sep + Join(parts[1..], sep)
  }

  // ---------------------------------------------------------------------------
  // Decimal integers: the template literal `${n}` and a digit-run parse

  function DecimalString(n: nat): (r: JsString)
    ensures r != [] && forall i :: 0 <= i < |r| ==> IsDigit(r[i])
  {
    if n < 10 then [0x30 + n] else DecimalString(n / 10) + [0x30 + n % 10]
  }

  /** `Math.min` on two integers. */
  function Min(a: int, b: int): (r: int)
    ensures r <= a && r <= b && (r == a || r == b)
  {
    if a < b then a else b
  }

  /** The end of the run of digits (greedy) starting at `j`. */
  function DigitRunEnd(s: JsString, j: nat): (r: nat)
    requires j <= |s|
    ensures j <= r <= |s|
    ensures forall k :: j <= k < r ==> IsDigit(s[k])
    ensures r == |s| || !IsDigit(s[r])
    decreases |s| - j
  {
    if j < |s| && IsDigit(s[j]) then DigitRunEnd(s, j + 1) else j
  }

  function DigitsValue(s: JsString): nat
    requires forall i :: 0 <= i < |s| ==> IsDigit(s[i])
  {
    if s == [] then 0
    else
      assert IsDigit(s[|s| - 1]);
      10 * DigitsValue(s[..|s| - 1]) + (s[|s| - 1] as int - 0x30)
  }

  /** Reading back the decimal digits of `n` gives `n`. */
  lemma {:induction false} DecimalRoundTrip(n: nat)
    ensures DigitsValue(DecimalString(n)) == n
  {
    if n >= 10 {
      var d := DecimalString(n / 10);
      assert (d + [0x30 + n % 10])[..|d|] == d;
      DecimalRoundTrip(n / 10);
    }
  }

  lemma DecimalInjective(m: nat, n: nat)
    requires DecimalString(m) == DecimalString(n)
    ensures m == n
  {
    DecimalRoundTrip(m);
    DecimalRoundTrip(n);
  }

  // ---------------------------------------------------------------------------
  // normalize('NFKD'), restricted to the Bengali block

  /** The compatibility decomposition of one code unit (Bengali canonical decompositions only). */
  function NfkdUnit(c: CodeUnit): (r: JsString)
    ensures 0x09CB !in r && 0x09CC !in r && 0x09DC !in r && 0x09DD !in r && 0x09DF !in r
  {
    if c == 0x09CB then [0x09C7, 0x09BE]
    else if c == 0x09CC then [0x09C7, 0x09D7]
    else if c == 0x09DC then [0x09A1, 0x09BC]
    else if c == 0x09DD then [0x09A2, 0x09BC]
    else if c == 0x09DF then [0x09AF, 0x09BC]
    else [c]
  }

  /** `s.normalize('NFKD')`: its output never holds a decomposable code unit. */
  function Nfkd(s: JsString): (r: JsString)
    ensures 0x09CB !in r && 0x09CC !in r && 0x09DC !in r && 0x09DD !in r && 0x09DF !in r
  {
    if s == [] then [] else NfkdUnit(s[0]) + Nfkd(s[1..])
  }

  lemma {:induction false} NfkdAppend(a: JsString, b: JsString)
    ensures Nfkd(a + b) == Nfkd(a) + Nfkd(b)
  {
    if a != [] {
      assert (a + b)[0] == a[0] && (a + b)[1..] == a[1..] + b;
      NfkdAppend(a[1..], b);
    } else {
      assert a + b == b;
    }
  }
}
