/**
 * The product synthesizer (apps/mcp/src/product_generator.ts): one product
 * record per categorised post, with a title, price, tags and availability
 * read off the post text.
 */
module ProductGenerator {
  import opened Wrappers
  import opened JsText
  import opened SeqUtil
  import opened PageReader
  import opened Categorizer

  datatype Availability = InStock | OutOfStock | Preorder

  datatype ProductRecord = ProductRecord(
    id: JsString,
    title: JsString,
    description: JsString,
    price: Option<real>,
    currency: JsString,
    categoryId: JsString,
    categoryName: JsString,
    imageUrls: seq<JsString>,
    tags: seq<JsString>,
    availability: Availability,
    sourcePostId: JsString,
    sourcePostUrl: JsString,
    publishedAt: int)

  // ---------------------------------------------------------------------------
  // extractPrice

  const TAKA_SIGN: CodeUnit := 0x09F3
  const BDT_WORD: JsString := [0x62, 0x64, 0x74]
  const TAKA_WORD: JsString := [0x74, 0x61, 0x6B, 0x61]
  const TK_WORD: JsString := [0x74, 0x6B]

  datatype PriceInfo = PriceInfo(amount: Option<real>, currency: JsString)

  /** `text.replace(/,/g, '')`. */
  function RemoveCommas(s: JsString): (r: JsString)
    ensures COMMA !in r
    ensures forall c :: c in r ==> c in s
  {
    if s == [] then []
    else if s[0] == COMMA then RemoveCommas(s[1..])
    else [s[0]] + RemoveCommas(s[1..])
  }

  /** Removing commas keeps every other code unit, in order. */
  lemma {:induction false} RemoveCommasKeepsOthers(s: JsString)
    ensures RemoveCommas(s) == Filter(s, c => c != COMMA)
  {
    if s != [] {
      RemoveCommasKeepsOthers(s[1..]);
    }
  }

  /** `w` (lower case) occurs at `i`, ignoring ASCII case as the `i` flag does. */
  predicate WordAt(s: JsString, i: nat, w: JsString) {
    i + |w| <= |s| && ToLower(s[i..i + |w|]) == w
  }

  /** The length of the currency marker `৳|bdt|taka|tk` at `i`, tried in that order; 0 if none. */
  function MarkerLength(s: JsString, i: nat): (r: nat)
    ensures r == 0 || i + r <= |s|
  {
    if i < |s| && s[i] == TAKA_SIGN then 1
    else if WordAt(s, i, BDT_WORD) then 3
    else if WordAt(s, i, TAKA_WORD) then 4
    else if WordAt(s, i, TK_WORD) then 2
    else 0
  }

  /** The end of the run of white space (`\s*`) starting at `j`. */
  function SkipSpaces(s: JsString, j: nat): (r: nat)
    requires j <= |s|
    ensures j <= r <= |s|
    ensures forall k :: j <= k < r ==> IsSpace(s[k])
    ensures r == |s| || !IsSpace(s[r])
    decreases |s| - j
  {
    if j < |s| && IsSpace(s[j]) then SkipSpaces(s, j + 1) else j
  }

  function DigitValue(c: CodeUnit): nat
    requires IsDigit(c)
  {
    c as int - 0x30
  }

  /** The value of the optional `\.\d{1,2}` after the integer digits ending at `k`. */
  function Fraction(s: JsString, k: nat): (r: real)
    requires k <= |s|
    ensures 0.0 <= r < 1.0
  {
    if k + 1 < |s| && s[k] == DOT && IsDigit(s[k + 1]) then
      if k + 2 < |s| && IsDigit(s[k + 2]) then (10 * DigitValue(s[k + 1]) + DigitValue(s[k + 2])) as real / 100.0
      else DigitValue(s[k + 1]) as real / 10.0
    else 0.0
  }

  /** The amount the price pattern matches at offset `i`, if it matches there. */
  function AmountAt(s: JsString, i: nat): Option<real>
    requires i <= |s|
  {
    var m := MarkerLength(s, i);
    if m == 0 then None
    else
      var j := SkipSpaces(s, i + m);
      var k := DigitRunEnd(s, j);
      if k == j then None
      else Some(DigitsValue(s[j..k]) as real + Fraction(s, k))
  }

  /** The amount the pattern matches at each offset of `s`. */
  function AmountsAt(s: JsString): (ms: seq<Option<real>>)
    ensures |ms| == |s| && forall j :: 0 <= j < |s| ==> ms[j] == AmountAt(s, j)
  {
    seq(|s|, j requires 0 <= j < |s| => AmountAt(s, j))
  }

  /** The first present value of `ms` from index `i` on. */
  function Leftmost(ms: seq<Option<real>>, i: nat): Option<real>
    requires i <= |ms|
    decreases |ms| - i
  {
    if i == |ms| then None
    else if ms[i].Some? then ms[i]
    else Leftmost(ms, i + 1)
  }

  lemma {:induction false} LeftmostIsFirst(ms: seq<Option<real>>, i: nat)
    requires i <= |ms|
    ensures Leftmost(ms, i).None? <==> forall j :: i <= j < |ms| ==> ms[j].None?
    ensures Leftmost(ms, i).Some? ==>
      exists j :: i <= j < |ms| && ms[j] == Leftmost(ms, i) && forall l :: i <= l < j ==> ms[l].None?
    decreases |ms| - i
  {
    if i < |ms| && ms[i].None? {
      LeftmostIsFirst(ms, i + 1);
    }
  }

  lemma LeftmostAmountNone(s: JsString)
    ensures Leftmost(AmountsAt(s), 0).None? <==> forall j :: 0 <= j < |s| ==> AmountAt(s, j).None?
  {
    var ms := AmountsAt(s);
    LeftmostIsFirst(ms, 0);
    if Leftmost(ms, 0).None? {
      forall j | 0 <= j < |s| ensures AmountAt(s, j).None? { assert ms[j] == AmountAt(s, j); }
    } else {
      var j :| 0 <= j < |ms| && ms[j] == Leftmost(ms, 0) && forall l :: 0 <= l < j ==> ms[l].None?;
      assert AmountAt(s, j).Some?;
    }
  }

  lemma LeftmostAmountSome(s: JsString)
    requires Leftmost(AmountsAt(s), 0).Some?
    ensures exists j :: 0 <= j < |s| && AmountAt(s, j) == Leftmost(AmountsAt(s), 0)
                        && forall l :: 0 <= l < j ==> AmountAt(s, l).None?
  {
    var ms := AmountsAt(s);
    LeftmostIsFirst(ms, 0);
    var j :| 0 <= j < |ms| && ms[j] == Leftmost(ms, 0) && forall l :: 0 <= l < j ==> ms[l].None?;
    assert AmountAt(s, j) == ms[j];
    forall l | 0 <= l < j ensures AmountAt(s, l).None? { assert ms[l] == AmountAt(s, l); }
  }

  /**
   * `s.match(priceRegex)`: the amount at the leftmost offset where the
   * pattern matches, and none exactly when it matches nowhere.
   */
  function FirstAmount(s: JsString): (r: Option<real>)
    ensures r.None? <==> forall j :: 0 <= j < |s| ==> AmountAt(s, j).None?
    ensures r.Some? ==>
      exists j :: 0 <= j < |s| && AmountAt(s, j) == r && forall l :: 0 <= l < j ==> AmountAt(s, l).None?
  {
    LeftmostAmountNone(s);
    var r := Leftmost(AmountsAt(s), 0);
    if r.Some? then LeftmostAmountSome(s); r else r
  }

  /** `extractPrice(text)`: the first price in the text without its commas; the currency is always `BDT`. */
  function ExtractPrice(text: JsString): (r: PriceInfo)
    ensures r.currency == Ascii("BDT")
    ensures r.amount == FirstAmount(RemoveCommas(text))
  {
    PriceInfo(FirstAmount(RemoveCommas(text)), Ascii("BDT"))
  }

  /** The taka sign, a space and a comma-grouped amount read as that amount. */
  lemma TakaSignExample()
    ensures ExtractPrice([0x09F3, 0x20, 0x33, 0x2C, 0x32, 0x30, 0x30]).amount == Some(3200.0)
  {
    var s: JsString := [0x09F3, 0x20, 0x33, 0x32, 0x30, 0x30];
    assert RemoveCommas([0x09F3, 0x20, 0x33, 0x2C, 0x32, 0x30, 0x30]) == s;
    assert MarkerLength(s, 0) == 1;
    assert SkipSpaces(s, 1) == 2;
    assert DigitRunEnd(s, 2) == 6;
    assert DigitsValue(s[2..6]) == 3200 by {
      var d: JsString := [0x33, 0x32, 0x30, 0x30];
      assert s[2..6] == d;
      assert d[..3][..2][..1][..0] == [];
      assert DigitsValue(d[..3][..2][..1]) == 3;
      assert DigitsValue(d[..3][..2]) == 32;
      assert DigitsValue(d[..3]) == 320;
    }
    assert Fraction(s, 6) == 0.0;
    assert AmountsAt(s)[0] == Some(3200.0);
  }

  /** The taka sign, a space and any whole number of taka, written without grouping, read as that amount. */
  lemma TakaSignAmount(n: nat)
    ensures ExtractPrice([TAKA_SIGN, SPACE] + DecimalString(n)).amount == Some(n as real)
  {
    var s: JsString := [TAKA_SIGN, SPACE] + DecimalString(n);
    NoCommaUnchanged(s);
    TakaAmountAt(n);
    assert AmountsAt(s)[0] == Some(n as real);
  }

  /** The pattern matches at offset 0 of the taka sign, a space and a numeral, with the numeral's value. */
  lemma TakaAmountAt(n: nat)
    ensures AmountAt([TAKA_SIGN, SPACE] + DecimalString(n), 0) == Some(n as real)
  {
    var d := DecimalString(n);
    var s: JsString := [TAKA_SIGN, SPACE] + d;
    assert MarkerLength(s, 0) == 1;
    assert SkipSpaces(s, 2) == 2;
    assert SkipSpaces(s, 1) == 2;
    DigitRunToEnd(s, 2);
    assert s[2..|s|] == d;
    DecimalRoundTrip(n);
    assert Fraction(s, |s|) == 0.0;
  }

  /** Text without a comma keeps all of it. */
  lemma {:induction false} NoCommaUnchanged(s: JsString)
    requires forall i :: 0 <= i < |s| ==> s[i] != COMMA
    ensures RemoveCommas(s) == s
  {
    if s != [] {
      NoCommaUnchanged(s[1..]);
    }
  }

  /** A run of digits reaching the end of `s` is read to the end. */
  lemma {:induction false} DigitRunToEnd(s: JsString, j: nat)
    requires j <= |s| && forall k :: j <= k < |s| ==> IsDigit(s[k])
    ensures DigitRunEnd(s, j) == |s|
    decreases |s| - j
  {
    if j < |s| {
      DigitRunToEnd(s, j + 1);
    }
  }

  // ---------------------------------------------------------------------------
  // extractTitle

  const MAX_TITLE: nat := 80

  function TrimAll(lines: seq<JsString>): (r: seq<JsString>)
    ensures |r| == |lines| && forall i :: 0 <= i < |lines| ==> r[i] == Trim(lines[i])
  {
    seq(|lines|, i requires 0 <= i < |lines| => Trim(lines[i]))
  }

  /** `trimmed.split('\n').map((line) => line.trim()).find(Boolean)`. */
  function FirstLine(trimmed: JsString): Option<JsString> {
    Find(TrimAll(Split(trimmed, NEWLINE)), (line: JsString) => line != [])
  }

  /** `extractTitle(text)`. */
  function ExtractTitle(text: JsString): (r: JsString)
    ensures r != [] && |r| <= MAX_TITLE
  {
    var trimmed := Trim(text);
    if trimmed == [] then Ascii("Untitled Product")
    else match FirstLine(trimmed)
      case None => Ascii("Untitled Product")
      case Some(line) =>
        if |line| <= MAX_TITLE then line
        else Trim(line[..77]) + [ELLIPSIS]
  }

  /**
   * Once the text has something besides white space, its first line is
   * that of the trimmed text and is never empty, so the second
   * `Untitled Product` branch cannot be taken.
   */
  lemma FirstLineOfTrimmed(text: JsString)
    requires Trim(text) != []
    ensures FirstLine(Trim(text)) == Some(Trim(Split(Trim(text), NEWLINE)[0]))
    ensures Trim(Split(Trim(text), NEWLINE)[0]) != []
  {
    var trimmed := Trim(text);
    var first := Split(trimmed, NEWLINE)[0];
    assert trimmed[0] != NEWLINE by { assert IsSpace(NEWLINE); }
    if NEWLINE in trimmed {
      var i := IndexOfUnit(trimmed, NEWLINE);
      assert i > 0;
      assert first[0] == trimmed[0];
    } else {
      assert first == trimmed;
    }
    assert first != [] && !IsSpace(first[0]);
    assert TrimStart(first) == first;
    TrimEndKeepsFirst(first);
  }

  /**
   * The title of a text with only white space is `Untitled Product`; any
   * other text gets its first line, unchanged up to 80 code units, else its
   * first 77 code units trimmed and an ellipsis.
   */
  lemma TitleCases(text: JsString)
    ensures Trim(text) == [] ==> ExtractTitle(text) == Ascii("Untitled Product")
    ensures Trim(text) != [] ==>
      var line := Trim(Split(Trim(text), NEWLINE)[0]);
      && (|line| <= MAX_TITLE ==> ExtractTitle(text) == line)
      && (|line| > MAX_TITLE ==> ExtractTitle(text) == Trim(line[..77]) + [ELLIPSIS])
  {
    if Trim(text) != [] {
      FirstLineOfTrimmed(text);
    }
  }

  // ---------------------------------------------------------------------------
  // extractHashtags

  /**
   * The characters of `[\p{L}\p{N}_-]` the model knows: ASCII letters and
   * digits, `_`, `-`, and the letters and digits of the Bengali block.
   */
  predicate IsTagChar(c: CodeUnit) {
    || IsDigit(c) || IsLowerAscii(c) || IsUpperAscii(c) || c == 0x5F || c == HYPHEN
    || c == 0x0980 || (0x0985 <= c <= 0x098C) || c == 0x098F || c == 0x0990
    || (0x0993 <= c <= 0x09A8) || (0x09AA <= c <= 0x09B0) || c == 0x09B2
    || (0x09B6 <= c <= 0x09B9) || c == 0x09BD || c == 0x09CE || c == 0x09DC || c == 0x09DD
    || (0x09DF <= c <= 0x09E1) || (0x09E6 <= c <= 0x09F1) || (0x09F4 <= c <= 0x09F9) || c == 0x09FC
  }

  /** The end of the run of tag characters starting at `j`. */
  function TagRunEnd(s: JsString, j: nat): (r: nat)
    requires j <= |s|
    ensures j <= r <= |s|
    ensures forall k :: j <= k < r ==> IsTagChar(s[k])
    ensures r == |s| || !IsTagChar(s[r])
    decreases |s| - j
  {
    if j < |s| && IsTagChar(s[j]) then TagRunEnd(s, j + 1) else j
  }

  /** A tag starts at `i`: a `#` followed by at least one tag character. */
  predicate TagStartsAt(s: JsString, i: nat) {
    i + 1 < |s| && s[i] == HASH && IsTagChar(s[i + 1])
  }

  /** `body` is the whole run of tag characters after a `#` at offset `at`. */
  predicate TagBodyAt(s: JsString, at: nat, body: JsString) {
    TagStartsAt(s, at) && body == s[at + 1..TagRunEnd(s, at + 1)]
  }

  /** The tag bodies (after `#`) the global match finds from offset `i` on, scanning left to right. */
  function TagBodies(s: JsString, i: nat): (r: seq<JsString>)
    requires i <= |s|
    ensures forall k :: 0 <= k < |r| ==> r[k] != [] && forall c :: c in r[k] ==> IsTagChar(c)
    decreases |s| - i
  {
    if i == |s| then []
    else if TagStartsAt(s, i) then
      var e := TagRunEnd(s, i + 1);
      [s[i + 1..e]] + TagBodies(s, e)
    else TagBodies(s, i + 1)
  }

  function LowerAll(ss: seq<JsString>): (r: seq<JsString>)
    ensures |r| == |ss| && forall i :: 0 <= i < |ss| ==> r[i] == ToLower(ss[i])
  {
    seq(|ss|, i requires 0 <= i < |ss| => ToLower(ss[i]))
  }

  /** Lower-casing keeps tag characters tag characters. */
  lemma LowerTagChars(body: JsString)
    requires forall c :: c in body ==> IsTagChar(c)
    ensures forall j :: 0 <= j < |body| ==> IsTagChar(ToLower(body)[j]) && !IsUpperAscii(ToLower(body)[j])
  {
    forall j | 0 <= j < |body| ensures IsTagChar(ToLower(body)[j]) {
      assert body[j] in body;
    }
  }

  lemma LowerTagBodies(bodies: seq<JsString>)
    requires forall k :: 0 <= k < |bodies| ==> forall c :: c in bodies[k] ==> IsTagChar(c)
    ensures forall k :: 0 <= k < |bodies| ==> HASH !in ToLower(bodies[k])
  {
    forall k | 0 <= k < |bodies| ensures HASH !in ToLower(bodies[k]) {
      LowerTagChars(bodies[k]);
    }
  }

  /** `extractHashtags(text)`: each tag without its `#`, lower-cased. */
  function ExtractHashtags(text: JsString): (r: seq<JsString>)
    ensures forall k :: 0 <= k < |r| ==> r[k] != [] && HASH !in r[k]
  {
    var bodies := TagBodies(text, 0);
    LowerTagBodies(bodies);
    LowerAll(bodies)
  }

  /** Each of `bodies` is the tag body of a `#` at offset `i` or later. */
  ghost predicate BodiesOccurFrom(s: JsString, i: nat, bodies: seq<JsString>) {
    forall k :: 0 <= k < |bodies| ==> BodyOccursFrom(s, i, bodies[k])
  }

  ghost predicate BodyOccursFrom(s: JsString, i: nat, body: JsString) {
    exists at: nat :: i <= at && TagBodyAt(s, at, body)
  }

  /** Every tag body is a maximal run of tag characters that follows a `#` in the text. */
  lemma {:induction false} TagBodiesOccur(s: JsString, i: nat)
    requires i <= |s|
    ensures BodiesOccurFrom(s, i, TagBodies(s, i))
    decreases |s| - i
  {
    var r := TagBodies(s, i);
    if i < |s| {
      if TagStartsAt(s, i) {
        var e := TagRunEnd(s, i + 1);
        TagBodiesOccur(s, e);
        forall k | 0 <= k < |r| ensures BodyOccursFrom(s, i, r[k]) {
          if k == 0 {
            assert TagBodyAt(s, i, r[0]);
          } else {
            assert r[k] == TagBodies(s, e)[k - 1];
            var at: nat :| e <= at && TagBodyAt(s, at, TagBodies(s, e)[k - 1]);
            assert i <= at && TagBodyAt(s, at, r[k]);
          }
        }
        assert BodiesOccurFrom(s, i, r);
      } else {
        TagBodiesOccur(s, i + 1);
        assert r == TagBodies(s, i + 1);
        forall k | 0 <= k < |r| ensures BodyOccursFrom(s, i, r[k]) {
          var at: nat :| i + 1 <= at && TagBodyAt(s, at, TagBodies(s, i + 1)[k]);
          assert i <= at && TagBodyAt(s, at, r[k]);
        }
        assert BodiesOccurFrom(s, i, r);
      }
    } else {
      assert r == [];
    }
  }

  /** Hashtags hold only lower-case tag characters, and each is, up to case, a `#`-prefixed run of the text. */
  lemma HashtagsShape(text: JsString)
    ensures forall k :: 0 <= k < |ExtractHashtags(text)| ==>
      var tag := ExtractHashtags(text)[k];
      && (forall j :: 0 <= j < |tag| ==> IsTagChar(tag[j]) && !IsUpperAscii(tag[j]))
      && exists at: nat, body :: TagBodyAt(text, at, body) && tag == ToLower(body)
  {
    TagBodiesOccur(text, 0);
    var bodies := TagBodies(text, 0);
    forall k | 0 <= k < |bodies|
      ensures forall j :: 0 <= j < |bodies[k]| ==> IsTagChar(ToLower(bodies[k])[j]) && !IsUpperAscii(ToLower(bodies[k])[j])
      ensures exists at: nat, body :: TagBodyAt(text, at, body) && ToLower(bodies[k]) == ToLower(body)
    {
      LowerTagChars(bodies[k]);
      var at: nat :| 0 <= at && TagBodyAt(text, at, bodies[k]);
    }
  }

  /** The offsets from `i` on where a tag starts, in increasing order. */
  function TagOffsets(s: JsString, i: nat): (r: seq<nat>)
    requires i <= |s|
    ensures forall k :: 0 <= k < |r| ==> i <= r[k] && TagStartsAt(s, r[k])
    decreases |s| - i
  {
    if i == |s| then []
    else if TagStartsAt(s, i) then [i] + TagOffsets(s, i + 1)
    else TagOffsets(s, i + 1)
  }

  /** The tag body after the `#` at `at`. */
  function BodyAfter(s: JsString, at: nat): JsString
    requires TagStartsAt(s, at)
  {
    s[at + 1..TagRunEnd(s, at + 1)]
  }

  /** The bodies after the `#`s at `offsets`, in that order. */
  function BodiesAt(s: JsString, offsets: seq<nat>): (r: seq<JsString>)
    requires forall k :: 0 <= k < |offsets| ==> TagStartsAt(s, offsets[k])
    ensures |r| == |offsets| && forall k :: 0 <= k < |offsets| ==> r[k] == BodyAfter(s, offsets[k])
  {
    seq(|offsets|, k requires 0 <= k < |offsets| => BodyAfter(s, offsets[k]))
  }

  /** Every offset from `i` on where a tag starts is listed, each once, in increasing order. */
  lemma {:induction false} TagOffsetsExact(s: JsString, i: nat)
    requires i <= |s|
    ensures forall at :: at in TagOffsets(s, i) <==> i <= at && TagStartsAt(s, at)
    ensures forall a, b :: 0 <= a < b < |TagOffsets(s, i)| ==> TagOffsets(s, i)[a] < TagOffsets(s, i)[b]
    decreases |s| - i
  {
    if i < |s| {
      TagOffsetsExact(s, i + 1);
    }
  }

  /** No tag starts inside a run of tag characters, since `#` is not one. */
  lemma {:induction false} NoTagStartInRun(s: JsString, j: nat, e: nat)
    requires j <= e <= |s| && forall k :: j <= k < e ==> IsTagChar(s[k])
    ensures TagOffsets(s, j) == TagOffsets(s, e)
    decreases e - j
  {
    if j < e {
      assert !IsTagChar(HASH);
      NoTagStartInRun(s, j + 1, e);
    }
  }

  /** The global match finds the body after every `#` at which a tag starts, left to right. */
  lemma {:induction false} TagBodiesInOrder(s: JsString, i: nat)
    requires i <= |s|
    ensures TagBodies(s, i) == BodiesAt(s, TagOffsets(s, i))
    decreases |s| - i
  {
    if i < |s| {
      if TagStartsAt(s, i) {
        var e := TagRunEnd(s, i + 1);
        TagBodiesInOrder(s, e);
        TagBodiesAtStart(s, i);
      } else {
        TagBodiesInOrder(s, i + 1);
      }
    }
  }

  /** The step of `TagBodiesInOrder` at an offset where a tag starts. */
  lemma TagBodiesAtStart(s: JsString, i: nat)
    requires i < |s| && TagStartsAt(s, i)
    requires TagBodies(s, TagRunEnd(s, i + 1)) == BodiesAt(s, TagOffsets(s, TagRunEnd(s, i + 1)))
    ensures TagBodies(s, i) == BodiesAt(s, TagOffsets(s, i))
  {
    var e := TagRunEnd(s, i + 1);
    NoTagStartInRun(s, i + 1, e);
    var rest := TagOffsets(s, e);
    assert TagOffsets(s, i) == [i] + rest;
    BodiesAtCons(s, i, rest);
  }

  lemma BodiesAtCons(s: JsString, at: nat, rest: seq<nat>)
    requires TagStartsAt(s, at) && forall k :: 0 <= k < |rest| ==> TagStartsAt(s, rest[k])
    ensures BodiesAt(s, [at] + rest) == [BodyAfter(s, at)] + BodiesAt(s, rest)
  {
  }

  /**
   * `extractHashtags` returns, for every offset where a tag starts and in
   * the order of those offsets, the lower-cased body after it, and nothing
   * else.
   */
  lemma HashtagsComplete(text: JsString)
    ensures var offsets := TagOffsets(text, 0);
      && |ExtractHashtags(text)| == |offsets|
      && (forall k :: 0 <= k < |offsets| ==> ExtractHashtags(text)[k] == ToLower(BodyAfter(text, offsets[k])))
      && (forall at :: at in offsets <==> TagStartsAt(text, at))
      && (forall a, b :: 0 <= a < b < |offsets| ==> offsets[a] < offsets[b])
  {
    TagBodiesInOrder(text, 0);
    TagOffsetsExact(text, 0);
  }

  /** A single hashtag gives that tag in lower case. */
  lemma HashtagExample()
    ensures ExtractHashtags([0x23, 0x53, 0x61, 0x72, 0x65, 0x65]) == [[0x73, 0x61, 0x72, 0x65, 0x65]]
  {
    var s: JsString := [0x23, 0x53, 0x61, 0x72, 0x65, 0x65];
    assert TagStartsAt(s, 0);
    assert TagRunEnd(s, 1) == 6;
    assert TagBodies(s, 6) == [];
    assert TagBodies(s, 0) == [s[1..6]];
    assert ToLower(s[1..6]) == [0x73, 0x61, 0x72, 0x65, 0x65];
  }

  // ---------------------------------------------------------------------------
  // determineAvailability

  const PRE_ORDER: JsString := [0x70, 0x72, 0x65, 0x2D, 0x6F, 0x72, 0x64, 0x65, 0x72]
  const PRE_SPACE_ORDER: JsString := [0x70, 0x72, 0x65, 0x20, 0x6F, 0x72, 0x64, 0x65, 0x72]
  const STOCK_OUT: JsString := [0x73, 0x74, 0x6F, 0x63, 0x6B, 0x20, 0x6F, 0x75, 0x74]
  const OUT_OF_STOCK: JsString := [0x6F, 0x75, 0x74, 0x20, 0x6F, 0x66, 0x20, 0x73, 0x74, 0x6F, 0x63, 0x6B]

  predicate MentionsPreorder(text: JsString) {
    Contains(ToLower(text), PRE_ORDER) || Contains(ToLower(text), PRE_SPACE_ORDER)
  }

  predicate MentionsStockOut(text: JsString) {
    Contains(ToLower(text), STOCK_OUT) || Contains(ToLower(text), OUT_OF_STOCK)
  }

  /** `determineAvailability(text)`. */
  function DetermineAvailability(text: JsString): (r: Availability)
    ensures r == Preorder <==> MentionsPreorder(text)
    ensures r == OutOfStock <==> !MentionsPreorder(text) && MentionsStockOut(text)
    ensures r == InStock <==> !MentionsPreorder(text) && !MentionsStockOut(text)
  {
    var lower := ToLower(text);
    if Contains(lower, PRE_ORDER) || Contains(lower, PRE_SPACE_ORDER) then Preorder
    else if Contains(lower, STOCK_OUT) || Contains(lower, OUT_OF_STOCK) then OutOfStock
    else InStock
  }

  /** The classification ignores ASCII case. */
  lemma AvailabilityIgnoresCase(text: JsString)
    ensures DetermineAvailability(ToLower(text)) == DetermineAvailability(text)
  {
    assert ToLower(ToLower(text)) == ToLower(text);
  }

  // ---------------------------------------------------------------------------
  // Tags

  /** `keyword.replace(/\s+/g, '-')`: each maximal run of white space becomes one hyphen. */
  function HyphenateSpaces(s: JsString): (r: JsString)
    ensures forall c :: c in r ==> !IsSpace(c)
    ensures |r| <= |s|
    decreases |s|
  {
    if s == [] then []
    else if IsSpace(s[0]) then [HYPHEN] + HyphenateSpaces(TrimStart(s[1..]))
    else [s[0]] + HyphenateSpaces(s[1..])
  }

  /** A stretch without white space is kept as it is. */
  lemma {:induction false} HyphenateWord(a: JsString, b: JsString)
    requires forall i :: 0 <= i < |a| ==> !IsSpace(a[i])
    ensures HyphenateSpaces(a + b) == a + HyphenateSpaces(b)
    decreases |a|
  {
    if a == [] {
      assert a + b == b;
    } else {
      assert (a + b)[0] == a[0];
      assert (a + b)[1..] == a[1..] + b;
      HyphenateWord(a[1..], b);
      assert a == [a[0]] + a[1..];
    }
  }

  /** A maximal run of white space becomes exactly one hyphen. */
  lemma HyphenateRun(a: JsString, b: JsString)
    requires a != [] && forall i :: 0 <= i < |a| ==> IsSpace(a[i])
    requires b == [] || !IsSpace(b[0])
    ensures HyphenateSpaces(a + b) == [HYPHEN] + HyphenateSpaces(b)
  {
    assert (a + b)[0] == a[0];
    assert (a + b)[1..] == a[1..] + b;
    TrimStartRun(a[1..], b);
  }

  function HyphenateAll(keywords: seq<JsString>): (r: seq<JsString>)
    ensures |r| == |keywords| && forall i :: 0 <= i < |keywords| ==> r[i] == HyphenateSpaces(keywords[i])
  {
    seq(|keywords|, i requires 0 <= i < |keywords| => HyphenateSpaces(keywords[i]))
  }

  /** The candidates for the tag list, in order: hashtags, hyphenated matched keywords, the category id. */
  function TagCandidates(post: CategorizedPost): seq<JsString> {
    ExtractHashtags(post.post.textContent) + HyphenateAll(post.matchedKeywords) + [post.categoryId]
  }

  /** `Array.from(new Set([...]))` over the candidates. */
  function Tags(post: CategorizedPost): seq<JsString> {
    Dedup(TagCandidates(post))
  }

  /**
   * The tags are free of duplicates, hold the category id, every hashtag
   * and every hyphenated keyword and nothing else, and come in the order
   * each was first seen.
   */
  lemma TagsSpec(post: CategorizedPost)
    ensures var tags := Tags(post);
      && NoDuplicates(tags)
      && post.categoryId in tags
      && (forall h :: h in ExtractHashtags(post.post.textContent) ==> h in tags)
      && (forall k :: k in post.matchedKeywords ==> HyphenateSpaces(k) in tags)
      && (forall t :: t in tags ==> t in TagCandidates(post))
      && (forall i, j :: 0 <= i < j < |tags| ==>
            FirstIndex(TagCandidates(post), tags[i]) < FirstIndex(TagCandidates(post), tags[j]))
  {
    var c := TagCandidates(post);
    DedupElements(c);
    DedupNoDuplicates(c);
    DedupFirstSeenOrder(c);
    assert c[|c| - 1] == post.categoryId;
    forall k | k in post.matchedKeywords ensures HyphenateSpaces(k) in c {
      var i :| 0 <= i < |post.matchedKeywords| && post.matchedKeywords[i] == k;
      assert HyphenateAll(post.matchedKeywords)[i] == HyphenateSpaces(k);
    }
  }

  // ---------------------------------------------------------------------------
  // generateProducts

  /** `{ extractPricing = true, defaultCurrency = 'BDT' }`: absent fields take their defaults. */
  datatype GenerateOptions = GenerateOptions(extractPricing: Option<bool>, defaultCurrency: Option<JsString>)

  const PROD_PREFIX: JsString := [0x70, 0x72, 0x6F, 0x64, 0x2D]

  function Pricing(text: JsString, options: GenerateOptions): (r: PriceInfo)
    ensures options.extractPricing != Some(false) ==> r == ExtractPrice(text)
    ensures options.extractPricing == Some(false) ==> r == PriceInfo(None, options.defaultCurrency.GetOr(Ascii("BDT")))
  {
    if options.extractPricing.GetOr(true) then ExtractPrice(text)
    else PriceInfo(None, options.defaultCurrency.GetOr(Ascii("BDT")))
  }

  /**
   * The product a categorised post becomes: its id is `prod-` followed by,
   * and so giving back, the post id; its title is non-empty and short; its
   * description has no outer white space; it has a price only when pricing
   * is on.
   */
  function ToProduct(post: CategorizedPost, options: GenerateOptions): (r: ProductRecord)
    ensures IsPrefix(PROD_PREFIX, r.id) && r.id[|PROD_PREFIX|..] == post.post.postId
    ensures r.title != [] && |r.title| <= MAX_TITLE
    ensures r.description == [] || (!IsSpace(r.description[0]) && !IsSpace(r.description[|r.description| - 1]))
    ensures r.price.Some? ==> options.extractPricing != Some(false)
  {
    var text := post.post.textContent;
    var pricing := Pricing(text, options);
    assert (PROD_PREFIX + post.post.postId)[..|PROD_PREFIX|] == PROD_PREFIX;
    ProductRecord(
      PROD_PREFIX + post.post.postId,
      ExtractTitle(text),
      Trim(text),
      pricing.amount,
      pricing.currency,
      post.categoryId,
      post.categoryName,
      post.post.mediaUrls,
      Tags(post),
      DetermineAvailability(text),
      post.post.postId,
      post.post.permalinkUrl,
      post.post.timestamp)
  }

  /** `generateProducts(categorizedPosts, options)`. */
  function GenerateProducts(posts: seq<CategorizedPost>, options: GenerateOptions): (r: seq<ProductRecord>)
    ensures |r| == |posts|
  {
    seq(|posts|, i requires 0 <= i < |posts| => ToProduct(posts[i], options))
  }

  /**
   * Product `i` comes from post `i`: its id is `prod-` and the post id, it
   * keeps the post's id, URL, media and timestamp and the category of its
   * classification, and its description is the trimmed text.
   */
  lemma ProductsFollowPosts(posts: seq<CategorizedPost>, options: GenerateOptions, i: nat)
    requires i < |posts|
    ensures var p := GenerateProducts(posts, options)[i];
      var post := posts[i];
      && p.id == PROD_PREFIX + post.post.postId
      && p.sourcePostId == post.post.postId
      && p.sourcePostUrl == post.post.permalinkUrl
      && p.imageUrls == post.post.mediaUrls
      && p.publishedAt == post.post.timestamp
      && p.categoryId == post.categoryId
      && p.categoryName == post.categoryName
      && p.description == Trim(post.post.textContent)
      && p.title == ExtractTitle(post.post.textContent)
      && p.tags == Tags(post)
      && p.availability == DetermineAvailability(post.post.textContent)
  {
  }

  /** With pricing off there is no price and the currency is the default; with it on the currency is `BDT`. */
  lemma PricingOption(posts: seq<CategorizedPost>, options: GenerateOptions, i: nat)
    requires i < |posts|
    ensures var p := GenerateProducts(posts, options)[i];
      && (options.extractPricing == Some(false) ==>
            p.price.None? && p.currency == options.defaultCurrency.GetOr(Ascii("BDT")))
      && (options.extractPricing != Some(false) ==>
            p.price == ExtractPrice(posts[i].post.textContent).amount && p.currency == Ascii("BDT"))
  {
    assert GenerateProducts(posts, options)[i] == ToProduct(posts[i], options);
  }

  /** Product ids are `prod-` and the post id, so distinct posts give distinct products and equal posts the same id. */
  lemma ProductIdInjective(a: CategorizedPost, b: CategorizedPost, options: GenerateOptions)
    ensures ToProduct(a, options).id == ToProduct(b, options).id <==> a.post.postId == b.post.postId
  {
    var x, y := PROD_PREFIX + a.post.postId, PROD_PREFIX + b.post.postId;
    if x == y {
      assert x[|PROD_PREFIX|..] == a.post.postId && y[|PROD_PREFIX|..] == b.post.postId;
    }
  }

  // ---------------------------------------------------------------------------
  // The pipeline over the mock posts

  /** The mock posts carry no `keywords` hint, so categorising them never fails. */
  lemma MockPostsCategorize(pageUrl: JsString, options: GetPostsOptions, now: int, customCategories: seq<JsString>)
    ensures AnalyzeCategories(GetPosts(pageUrl, options, now), customCategories).Ok?
  {
    var posts := GetPosts(pageUrl, options, now);
    forall i | 0 <= i < |posts| ensures KeywordHints(posts[i].rawMetadata).Ok? {
      MetadataKeys(pageUrl, options, now, i);
      assert "keywords" !in posts[i].rawMetadata.Keys;
    }
  }

  /** Fetching, categorising and generating gives one product per post, with pairwise distinct ids. */
  lemma PipelineIdsDistinct(pageUrl: JsString, options: GetPostsOptions, now: int, customCategories: seq<JsString>,
                            generate: GenerateOptions, i: nat, j: nat)
    requires i < j < PostCount(options)
    ensures var posts := GetPosts(pageUrl, options, now);
      var analyzed := AnalyzeCategories(posts, customCategories);
      && analyzed.Ok?
      && |GenerateProducts(analyzed.value, generate)| == |posts|
      && GenerateProducts(analyzed.value, generate)[i].id != GenerateProducts(analyzed.value, generate)[j].id
  {
    var posts := GetPosts(pageUrl, options, now);
    MockPostsCategorize(pageUrl, options, now, customCategories);
    var analyzed := AnalyzeCategories(posts, customCategories).value;
    PostIdsDistinct(pageUrl, options, now, i, j);
    ProductIdInjective(analyzed[i], analyzed[j], generate);
  }
}
