/**
 * The keyword categorizer (apps/mcp/src/category_analyzer.ts): every post
 * is scored against an ordered table of category rules by counting the
 * rule keywords that occur in its normalised text; the rule with the most
 * hits wins, the earlier rule on a tie, and a post that hits no rule falls
 * back to the first custom category or to "General Merchandise".
 */
module Categorizer {
  import opened Wrappers
  import opened JsText
  import opened SeqUtil
  import opened PageReader

  datatype CategoryRule = CategoryRule(
    id: JsString,
    name: JsString,
    keywords: seq<JsString>,
    suggestedSubcategories: seq<JsString>)

  /** A row of the rule table as written in the source, before conversion to JavaScript strings. */
  datatype RuleSource = RuleSource(id: string, name: string, keywords: seq<string>, subcategories: seq<string>)

  function JsAll(ss: seq<string>): (r: seq<JsString>)
    ensures |r| == |ss| && forall i :: 0 <= i < |ss| ==> r[i] == Js(ss[i])
  {
    seq(|ss|, i requires 0 <= i < |ss| => Js(ss[i]))
  }

  function ToRule(src: RuleSource): (r: CategoryRule)
    ensures r.keywords == JsAll(src.keywords)
  {
    CategoryRule(Js(src.id), Js(src.name), JsAll(src.keywords), JsAll(src.subcategories))
  }

  /** The rows of `CATEGORY_RULES`: ids, names, keywords and suggested subcategories, in order. */
  function RuleTable(): seq<RuleSource> {
    [
      RuleSource("fashion-apparel", "Fashion & Apparel",
        ["fashion", "apparel", "dress", "saree", "\U{09B6}\U{09BE}\U{09DC}\U{09BF}", "\U{09AA}\U{09CB}\U{09B6}\U{09BE}\U{0995}", "cloth", "panjabi", "shirt", "lehenga", "shoe"],
        ["Women Fashion", "Men Fashion", "Traditional Wear"]),
      RuleSource("electronics", "Electronics",
        ["electronics", "gadget", "earbuds", "smartphone", "laptop", "\U{0987}\U{09B2}\U{09C7}\U{0995}\U{099F}\U{09CD}\U{09B0}\U{09A8}\U{09BF}\U{0995}\U{09CD}\U{09B8}", "charger", "headphone"],
        ["Audio", "Mobile Accessories", "Smart Devices"]),
      RuleSource("cosmetics-beauty", "Cosmetics & Beauty",
        ["cosmetics", "beauty", "serum", "skincare", "makeup", "\U{09AA}\U{09CD}\U{09B0}\U{09B8}\U{09BE}\U{09A7}\U{09A8}\U{09C0}", "lotion", "cream"],
        ["Skin Care", "Hair Care", "Makeup"]),
      RuleSource("home-living", "Home & Living",
        ["home", "living", "decor", "lamp", "furniture", "\U{0998}\U{09B0} \U{09B8}\U{09BE}\U{099C}\U{09BE}\U{09A8}\U{09CB}", "lighting", "kitchen"],
        ["Lighting", "Decor", "Kitchen Essentials"]),
      RuleSource("food-beverages", "Food & Beverages",
        ["food", "beverage", "honey", "snack", "\U{0996}\U{09BE}\U{09A6}\U{09CD}\U{09AF}", "organic", "tea", "coffee"],
        ["Gourmet", "Snacks", "Beverages"]),
      RuleSource("accessories", "Accessories",
        ["accessories", "wallet", "bag", "belt", "\U{098F}\U{0995}\U{09CD}\U{09B8}\U{09C7}\U{09B8}\U{09B0}\U{09BF}\U{099C}", "jewelry", "watch"],
        ["Leather Goods", "Jewellery", "Lifestyle"])
    ]
  }

  /** `CATEGORY_RULES`, in table order. */
  function CategoryRules(): (r: seq<CategoryRule>)
    ensures |r| == |RuleTable()| == 6
    ensures forall i :: 0 <= i < |RuleTable()| ==> r[i] == ToRule(RuleTable()[i])
  {
    seq(|RuleTable()|, i requires 0 <= i < |RuleTable()| => ToRule(RuleTable()[i]))
  }

  // ---------------------------------------------------------------------------
  // slugify

  predicate IsSlugChar(c: CodeUnit) { IsLowerAscii(c) || IsDigit(c) }

  /** The end of the run of characters outside `[a-z0-9]` starting at `j`. */
  function NonSlugRunEnd(s: JsString, j: nat): (r: nat)
    requires j <= |s|
    ensures j <= r <= |s|
    ensures forall k :: j <= k < r ==> !IsSlugChar(s[k])
    ensures r == |s| || IsSlugChar(s[r])
    decreases |s| - j
  {
    if j < |s| && !IsSlugChar(s[j]) then NonSlugRunEnd(s, j + 1) else j
  }

  /** Drops the leading run of characters outside `[a-z0-9]`. */
  function DropNonSlug(s: JsString): (r: JsString)
    ensures |r| <= |s| && r == s[|s| - |r|..]
    ensures r == [] || IsSlugChar(r[0])
    ensures forall i :: 0 <= i < |s| - |r| ==> !IsSlugChar(s[i])
  {
    s[NonSlugRunEnd(s, 0)..]
  }

  /** `.replace(/[^a-z0-9]+/g, '-')`: every maximal run outside `[a-z0-9]` becomes one hyphen. */
  function CollapseNonSlug(s: JsString): (r: JsString)
    ensures |r| <= |s|
    ensures forall i :: 0 <= i < |r| ==> IsSlugChar(r[i]) || r[i] == HYPHEN
    ensures forall i :: 0 <= i < |r| - 1 ==> r[i] != HYPHEN || r[i + 1] != HYPHEN
    ensures s != [] && IsSlugChar(s[0]) ==> r != [] && r[0] == s[0]
    decreases |s|
  {
    if s == [] then []
    else if IsSlugChar(s[0]) then [s[0]] + CollapseNonSlug(s[1..])
    else [HYPHEN] + CollapseNonSlug(DropNonSlug(s[1..]))
  }

  /** `.replace(/^-+/, '')` half of `/^-+|-+$/g`: only leading hyphens are dropped, all of them. */
  function DropLeadingHyphens(s: JsString): (r: JsString)
    ensures |r| <= |s| && r == s[|s| - |r|..]
    ensures r == [] || r[0] != HYPHEN
    ensures forall i :: 0 <= i < |s| - |r| ==> s[i] == HYPHEN
  {
    if s != [] && s[0] == HYPHEN then DropLeadingHyphens(s[1..]) else s
  }

  /** The `-+$` half of `/^-+|-+$/g`: only trailing hyphens are dropped, all of them. */
  function DropTrailingHyphens(s: JsString): (r: JsString)
    ensures |r| <= |s| && r == s[..|r|]
    ensures r == [] || r[|r| - 1] != HYPHEN
    ensures forall i :: |r| <= i < |s| ==> s[i] == HYPHEN
  {
    if s != [] && s[|s| - 1] == HYPHEN then DropTrailingHyphens(s[..|s| - 1]) else s
  }

  /** All of a leading run of slug characters is kept as it is. */
  lemma {:induction false} CollapseSlugPrefix(a: JsString, b: JsString)
    requires forall i :: 0 <= i < |a| ==> IsSlugChar(a[i])
    ensures CollapseNonSlug(a + b) == a + CollapseNonSlug(b)
    decreases |a|
  {
    if a == [] {
      assert a + b == b;
    } else {
      assert (a + b)[0] == a[0];
      assert (a + b)[1..] == a[1..] + b;
      CollapseSlugPrefix(a[1..], b);
      assert a == [a[0]] + a[1..];
    }
  }

  /** Dropping a whole run of non-slug characters leaves what follows it. */
  lemma DropNonSlugRun(a: JsString, b: JsString)
    requires forall i :: 0 <= i < |a| ==> !IsSlugChar(a[i])
    requires b == [] || IsSlugChar(b[0])
    ensures DropNonSlug(a + b) == b
  {
    var s := a + b;
    assert s[|a|..] == b;
  }

  /** A maximal run of non-slug characters becomes exactly one hyphen. */
  lemma CollapseNonSlugRun(a: JsString, b: JsString)
    requires a != [] && forall i :: 0 <= i < |a| ==> !IsSlugChar(a[i])
    requires b == [] || IsSlugChar(b[0])
    ensures CollapseNonSlug(a + b) == [HYPHEN] + CollapseNonSlug(b)
  {
    assert (a + b)[0] == a[0];
    assert (a + b)[1..] == a[1..] + b;
    DropNonSlugRun(a[1..], b);
  }

  /** Collapsing keeps every slug character, in order, and adds none. */
  lemma {:induction false} CollapseKeepsSlugChars(s: JsString)
    ensures Filter(CollapseNonSlug(s), IsSlugChar) == Filter(s, IsSlugChar)
    decreases |s|
  {
    if s != [] {
      var t := s[1..];
      assert s == [s[0]] + t;
      FilterAppend([s[0]], t, IsSlugChar);
      if IsSlugChar(s[0]) {
        CollapseKeepsSlugChars(t);
        FilterAppend([s[0]], CollapseNonSlug(t), IsSlugChar);
      } else {
        CollapseKeepsSlugChars(DropNonSlug(t));
        CollapseRunKeepsSlugChars(s);
      }
    }
  }

  /** The step of `CollapseKeepsSlugChars` at a non-slug character. */
  lemma CollapseRunKeepsSlugChars(s: JsString)
    requires s != [] && !IsSlugChar(s[0])
    requires Filter(CollapseNonSlug(DropNonSlug(s[1..])), IsSlugChar) == Filter(DropNonSlug(s[1..]), IsSlugChar)
    ensures Filter(CollapseNonSlug(s), IsSlugChar) == Filter(s, IsSlugChar)
  {
    DroppedRunHasNoSlugChars(s);
    HyphenHasNoSlugChars(CollapseNonSlug(DropNonSlug(s[1..])));
  }

  /** The run a collapse replaces holds no slug character. */
  lemma DroppedRunHasNoSlugChars(s: JsString)
    requires s != [] && !IsSlugChar(s[0])
    ensures Filter(s, IsSlugChar) == Filter(DropNonSlug(s[1..]), IsSlugChar)
  {
    var t := s[1..];
    var k := |t| - |DropNonSlug(t)|;
    FilterSplit(s, 1, IsSlugChar);
    FilterNone(s[..1], IsSlugChar);
    FilterSplit(t, k, IsSlugChar);
    FilterNone(t[..k], IsSlugChar);
  }

  /** The hyphen a collapse puts in its place is no slug character either. */
  lemma HyphenHasNoSlugChars(c: JsString)
    ensures Filter([HYPHEN] + c, IsSlugChar) == Filter(c, IsSlugChar)
  {
    FilterAppend([HYPHEN], c, IsSlugChar);
  }

  /** Characters in `[a-z0-9-]` only, and no two hyphens in a row. */
  predicate SlugBody(s: JsString) {
    && (forall i :: 0 <= i < |s| ==> IsSlugChar(s[i]) || s[i] == HYPHEN)
    && (forall i :: 0 <= i < |s| - 1 ==> s[i] != HYPHEN || s[i + 1] != HYPHEN)
  }

  /** A slug body with no hyphen at either end. */
  predicate IsSlug(s: JsString) {
    SlugBody(s) && (s == [] || (s[0] != HYPHEN && s[|s| - 1] != HYPHEN))
  }

  /**
   * `slugify(input)`: every slug is made of `[a-z0-9-]`, with hyphens only
   * between other characters, never doubled, and no longer than the input.
   */
  function Slugify(input: JsString): (r: JsString)
    ensures IsSlug(r)
    ensures |r| <= |input|
  {
    var c := CollapseNonSlug(ToLower(input));
    TrimmedSlugBody(c);
    DropTrailingHyphens(DropLeadingHyphens(c))
  }

  /** Trimming the hyphens off both ends of a slug body leaves a slug. */
  lemma TrimmedSlugBody(c: JsString)
    requires SlugBody(c)
    ensures IsSlug(DropTrailingHyphens(DropLeadingHyphens(c)))
  {
    var l := DropLeadingHyphens(c);
    SliceKeepsSlugBody(c, |c| - |l|, |c|);
    var t := DropTrailingHyphens(l);
    SliceKeepsSlugBody(l, 0, |t|);
    assert t != [] ==> t[0] == l[0];
  }

  /** Dropping leading hyphens keeps every slug character. */
  lemma LeadingHyphensKeepSlugChars(c: JsString)
    ensures Filter(DropLeadingHyphens(c), IsSlugChar) == Filter(c, IsSlugChar)
  {
    var l := DropLeadingHyphens(c);
    var h := c[..|c| - |l|];
    assert forall i :: 0 <= i < |h| ==> h[i] == HYPHEN;
    assert c == h + l;
    FilterAppend(h, l, IsSlugChar);
    FilterNone(h, IsSlugChar);
  }

  /** Dropping trailing hyphens keeps every slug character. */
  lemma TrailingHyphensKeepSlugChars(l: JsString)
    ensures Filter(DropTrailingHyphens(l), IsSlugChar) == Filter(l, IsSlugChar)
  {
    var t := DropTrailingHyphens(l);
    var h := l[|t|..];
    assert forall i :: 0 <= i < |h| ==> h[i] == HYPHEN;
    assert l == t + h;
    FilterAppend(t, h, IsSlugChar);
    FilterNone(h, IsSlugChar);
  }

  /** A slug keeps exactly the `[a-z0-9]` characters of the lower-cased input, in order. */
  lemma SlugifyKeepsSlugChars(input: JsString)
    ensures Filter(Slugify(input), IsSlugChar) == Filter(ToLower(input), IsSlugChar)
  {
    CollapseKeepsSlugChars(ToLower(input));
    LeadingHyphensKeepSlugChars(CollapseNonSlug(ToLower(input)));
    TrailingHyphensKeepSlugChars(DropLeadingHyphens(CollapseNonSlug(ToLower(input))));
  }

  lemma SliceKeepsSlugBody(s: JsString, a: nat, b: nat)
    requires SlugBody(s) && a <= b <= |s|
    ensures SlugBody(s[a..b])
  {
    var t := s[a..b];
    assert forall i :: 0 <= i < |t| ==> t[i] == s[a + i];
  }

  lemma {:induction false} CollapseOfSlugBody(s: JsString)
    requires SlugBody(s)
    ensures CollapseNonSlug(s) == s
    decreases |s|
  {
    if s != [] {
      SliceKeepsSlugBody(s, 1, |s|);
      CollapseOfSlugBody(s[1..]);
      CollapseSlugBodyStep(s);
      assert s == [s[0]] + s[1..];
    }
  }

  /** On a slug body the collapse keeps the first character, a lone hyphen included. */
  lemma CollapseSlugBodyStep(s: JsString)
    requires s != [] && SlugBody(s)
    ensures CollapseNonSlug(s) == [s[0]] + CollapseNonSlug(s[1..])
  {
    if !IsSlugChar(s[0]) {
      var rest := s[1..];
      assert s[0] == HYPHEN;
      assert rest == [] || IsSlugChar(rest[0]);
      assert NonSlugRunEnd(rest, 0) == 0;
      assert DropNonSlug(rest) == rest;
    }
  }

  /** A slug is its own slug. */
  lemma SlugFixpoint(s: JsString)
    requires IsSlug(s)
    ensures Slugify(s) == s
  {
    assert ToLower(s) == s;
    CollapseOfSlugBody(s);
  }

  /** `slugify(slugify(s)) == slugify(s)`. */
  lemma SlugifyIdempotent(input: JsString)
    ensures Slugify(Slugify(input)) == Slugify(input)
  {
    SlugFixpoint(Slugify(input));
  }

  // ---------------------------------------------------------------------------
  // Text normalisation and keyword matching

  datatype JsError = TypeError

  /**
   * `(post.raw_metadata?.keywords as string[])?.join(' ') ?? ''`. A
   * `keywords` entry that is neither absent, null nor a list of strings has
   * no `join` method, and calling it throws a `TypeError`.
   */
  function KeywordHints(meta: Metadata): (r: Result<JsString, JsError>)
    ensures "keywords" !in meta ==> r == Ok([])
    ensures "keywords" in meta && meta["keywords"].MetaNull? ==> r == Ok([])
    ensures "keywords" in meta && meta["keywords"].MetaStringList? ==> r == Ok(Join(meta["keywords"].items, [SPACE]))
    ensures r.Err? <==> "keywords" in meta && !meta["keywords"].MetaNull? && !meta["keywords"].MetaStringList?
  {
    if "keywords" !in meta then Ok([])
    else match meta["keywords"]
      case MetaNull => Ok([])
      case MetaStringList(items) => Ok(Join(items, [SPACE]))
      case _ => Err(TypeError)
  }

  /**
   * The text keywords are searched in: post text, a space and the hints,
   * lower-cased, then NFKD. It fails exactly when the hints do; it starts
   * with the post's own text in search form, and no code unit NFKD would
   * decompose is left in it.
   */
  function NormalizedText(post: Post): (r: Result<JsString, JsError>)
    ensures r.Ok? <==> KeywordHints(post.rawMetadata).Ok?
    ensures r.Ok? ==> IsPrefix(KeywordForm(post.textContent), r.value)
    ensures r.Ok? ==> forall i :: 0 <= i < |r.value| ==> !Decomposable(r.value[i])
  {
    match KeywordHints(post.rawMetadata)
    case Ok(hints) =>
      SearchFormPrefix(post.textContent, [SPACE] + hints);
      assert post.textContent + [SPACE] + hints == post.textContent + ([SPACE] + hints);
      Ok(Nfkd(ToLower(post.textContent + [SPACE] + hints)))
    case Err(e) => Err(e)
  }

  /** The form a keyword is searched for in the normalised text: lower-cased and NFKD, like the text. */
  function KeywordForm(keyword: JsString): JsString {
    Nfkd(ToLower(keyword))
  }

  /** The search form of a text starts with the search form of each of its prefixes, and is free of decomposable code units. */
  lemma SearchFormPrefix(a: JsString, b: JsString)
    ensures IsPrefix(KeywordForm(a), KeywordForm(a + b))
    ensures forall i :: 0 <= i < |KeywordForm(a + b)| ==> !Decomposable(KeywordForm(a + b)[i])
  {
    ToLowerAppend(a, b);
    NfkdAppend(ToLower(a), ToLower(b));
    var f := KeywordForm(a + b);
    assert forall i :: 0 <= i < |f| ==> f[i] in f;
  }

  /** `text.includes(keyword.normalize(...))` for the search form of `keyword`. */
  predicate KeywordOccurs(text: JsString, keyword: JsString) {
    Contains(text, KeywordForm(keyword))
  }

  /** `rule.keywords.filter((keyword) => text.includes(...))`, in rule order. */
  function MatchedKeywords(text: JsString, keywords: seq<JsString>): seq<JsString> {
    if keywords == [] then []
    else if KeywordOccurs(text, keywords[0]) then [keywords[0]] + MatchedKeywords(text, keywords[1..])
    else MatchedKeywords(text, keywords[1..])
  }

  /** The matched keywords are exactly those, in rule order, whose search form occurs in the text. */
  lemma {:induction false} MatchedKeywordsExact(text: JsString, keywords: seq<JsString>)
    ensures IsSubsequence(MatchedKeywords(text, keywords), keywords)
    ensures forall k :: k in MatchedKeywords(text, keywords) <==> k in keywords && KeywordOccurs(text, k)
  {
    if keywords != [] {
      MatchedKeywordsExact(text, keywords[1..]);
      if !KeywordOccurs(text, keywords[0]) {
        SubsequenceTail(MatchedKeywords(text, keywords), keywords);
      }
    }
  }

  lemma ContainsLower(a: JsString, b: JsString)
    requires Contains(a, b)
    ensures Contains(ToLower(a), ToLower(b))
  {
    var i :| 0 <= i <= |a| - |b| && OccursAt(a, b, i);
    assert a == a[..i] + b + a[i + |b|..];
    ToLowerAppend(a[..i] + b, a[i + |b|..]);
    ToLowerAppend(a[..i], b);
    ContainsInfix(ToLower(a[..i]), ToLower(b), ToLower(a[i + |b|..]));
  }

  lemma ContainsNfkd(a: JsString, b: JsString)
    requires Contains(a, b)
    ensures Contains(Nfkd(a), Nfkd(b))
  {
    var i :| 0 <= i <= |a| - |b| && OccursAt(a, b, i);
    assert a == a[..i] + b + a[i + |b|..];
    NfkdAppend(a[..i] + b, a[i + |b|..]);
    NfkdAppend(a[..i], b);
    ContainsInfix(Nfkd(a[..i]), Nfkd(b), Nfkd(a[i + |b|..]));
  }

  /** A rule keyword that occurs verbatim in a post's text is always among its matches. */
  lemma VerbatimKeywordMatched(post: Post, keywords: seq<JsString>, k: JsString)
    requires k in keywords && Contains(post.textContent, k)
    requires NormalizedText(post).Ok?
    ensures k in MatchedKeywords(NormalizedText(post).value, keywords)
  {
    var hints := KeywordHints(post.rawMetadata).value;
    var full := post.textContent + [SPACE] + hints;
    assert Contains(full, k) by {
      var i :| 0 <= i <= |post.textContent| - |k| && OccursAt(post.textContent, k, i);
      assert full[i..i + |k|] == post.textContent[i..i + |k|];
      assert OccursAt(full, k, i);
    }
    ContainsLower(full, k);
    ContainsNfkd(ToLower(full), ToLower(k));
    assert KeywordOccurs(NormalizedText(post).value, k);
    MatchedKeywordsExact(NormalizedText(post).value, keywords);
  }

  // ---------------------------------------------------------------------------
  // The keyword comparison as the source writes it

  /** The source searches for `keyword.toLowerCase()` only, without the NFKD applied to the text. */
  function MatchedKeywordsAsWritten(text: JsString, keywords: seq<JsString>): (r: seq<JsString>)
    ensures forall k :: k in r ==> k in keywords && Contains(text, ToLower(k))
  {
    if keywords == [] then []
    else if Contains(text, ToLower(keywords[0])) then [keywords[0]] + MatchedKeywordsAsWritten(text, keywords[1..])
    else MatchedKeywordsAsWritten(text, keywords[1..])
  }

  /** As written, the matched keywords are exactly those, in rule order, whose lower-cased form occurs in the text. */
  lemma {:induction false} MatchedKeywordsAsWrittenExact(text: JsString, keywords: seq<JsString>)
    ensures IsSubsequence(MatchedKeywordsAsWritten(text, keywords), keywords)
    ensures forall k :: k in MatchedKeywordsAsWritten(text, keywords) <==> k in keywords && Contains(text, ToLower(k))
  {
    if keywords != [] {
      MatchedKeywordsAsWrittenExact(text, keywords[1..]);
      if !Contains(text, ToLower(keywords[0])) {
        SubsequenceTail(MatchedKeywordsAsWritten(text, keywords), keywords);
      }
    }
  }

  /** A code unit that NFKD always decomposes. */
  predicate Decomposable(c: CodeUnit) {
    c == 0x09CB || c == 0x09CC || c == 0x09DC || c == 0x09DD || c == 0x09DF
  }

  /** A string without decomposable code units is its own search form. */
  lemma {:induction false} KeywordFormUndecomposable(k: JsString)
    requires forall i :: 0 <= i < |k| ==> !Decomposable(k[i])
    ensures KeywordForm(k) == ToLower(k)
  {
    if k != [] {
      KeywordFormUndecomposable(k[1..]);
      assert ToLower(k)[1..] == ToLower(k[1..]);
    }
  }

  /**
   * On keywords without decomposable code units the comparison as written
   * and the corrected one give the same matches: the two differ only on
   * keywords holding one of the five code units NFKD decomposes.
   */
  lemma {:induction false} AsWrittenAgrees(text: JsString, keywords: seq<JsString>)
    requires forall j, i :: 0 <= j < |keywords| && 0 <= i < |keywords[j]| ==> !Decomposable(keywords[j][i])
    ensures MatchedKeywordsAsWritten(text, keywords) == MatchedKeywords(text, keywords)
  {
    if keywords != [] {
      KeywordFormUndecomposable(keywords[0]);
      AsWrittenAgrees(text, keywords[1..]);
    }
  }

  /**
   * A keyword whose lower-case form holds a code unit that NFKD
   * decomposes is never matched as written, whatever the post says.
   */
  lemma DecomposableKeywordNeverMatchedAsWritten(post: Post, keywords: seq<JsString>, k: JsString, at: nat)
    requires NormalizedText(post).Ok?
    requires at < |k| && Decomposable(k[at])
    ensures k !in MatchedKeywordsAsWritten(NormalizedText(post).value, keywords)
  {
    var text := NormalizedText(post).value;
    assert text == Nfkd(ToLower(post.textContent + [SPACE] + KeywordHints(post.rawMetadata).value));
    assert ToLower(k)[at] == k[at];
    AbsentUnitNotContained(text, ToLower(k), at);
  }

  const SAREE_BN: string := "\U{09B6}\U{09BE}\U{09DC}\U{09BF}"
  const DRESS_BN: string := "\U{09AA}\U{09CB}\U{09B6}\U{09BE}\U{0995}"
  const HOME_DECOR_BN: string := "\U{0998}\U{09B0} \U{09B8}\U{09BE}\U{099C}\U{09BE}\U{09A8}\U{09CB}"

  /**
   * A keyword of the table that holds, at `unit`, a code unit NFKD
   * decomposes is in its rule but never among the rule's matches as
   * written; with the corrected comparison it is matched by every post
   * that contains it verbatim.
   */
  lemma TableKeywordMissedAsWritten(post: Post, rule: nat, at: nat, keyword: string, unit: nat)
    requires NormalizedText(post).Ok?
    requires rule < |RuleTable()| && at < |RuleTable()[rule].keywords| && RuleTable()[rule].keywords[at] == keyword
    requires unit < |Js(keyword)| && Decomposable(Js(keyword)[unit])
    ensures var text := NormalizedText(post).value;
      && Js(keyword) in CategoryRules()[rule].keywords
      && Js(keyword) !in MatchedKeywordsAsWritten(text, CategoryRules()[rule].keywords)
      && (Contains(post.textContent, Js(keyword)) ==> Js(keyword) in MatchedKeywords(text, CategoryRules()[rule].keywords))
  {
    var keywords := CategoryRules()[rule].keywords;
    assert keywords[at] == Js(keyword);
    DecomposableKeywordNeverMatchedAsWritten(post, keywords, Js(keyword), unit);
    if Contains(post.textContent, Js(keyword)) {
      VerbatimKeywordMatched(post, keywords, Js(keyword));
    }
  }

  /** The Bengali keyword for "saree" (fashion) holds U+09DC. */
  lemma SareeMissedAsWritten(post: Post)
    requires NormalizedText(post).Ok?
    ensures var text := NormalizedText(post).value;
      && Js(SAREE_BN) in CategoryRules()[0].keywords
      && Js(SAREE_BN) !in MatchedKeywordsAsWritten(text, CategoryRules()[0].keywords)
      && (Contains(post.textContent, Js(SAREE_BN)) ==> Js(SAREE_BN) in MatchedKeywords(text, CategoryRules()[0].keywords))
  {
    JsBmpIndex(SAREE_BN, 2);
    TableKeywordMissedAsWritten(post, 0, 4, SAREE_BN, 2);
  }

  /** The Bengali keyword for clothing (fashion) holds U+09CB. */
  lemma ClothingMissedAsWritten(post: Post)
    requires NormalizedText(post).Ok?
    ensures var text := NormalizedText(post).value;
      && Js(DRESS_BN) in CategoryRules()[0].keywords
      && Js(DRESS_BN) !in MatchedKeywordsAsWritten(text, CategoryRules()[0].keywords)
      && (Contains(post.textContent, Js(DRESS_BN)) ==> Js(DRESS_BN) in MatchedKeywords(text, CategoryRules()[0].keywords))
  {
    JsBmpIndex(DRESS_BN, 1);
    TableKeywordMissedAsWritten(post, 0, 5, DRESS_BN, 1);
  }

  /** The Bengali keyword for home decoration (home and living) holds U+09CB. */
  lemma HomeDecorMissedAsWritten(post: Post)
    requires NormalizedText(post).Ok?
    ensures var text := NormalizedText(post).value;
      && Js(HOME_DECOR_BN) in CategoryRules()[3].keywords
      && Js(HOME_DECOR_BN) !in MatchedKeywordsAsWritten(text, CategoryRules()[3].keywords)
      && (Contains(post.textContent, Js(HOME_DECOR_BN)) ==> Js(HOME_DECOR_BN) in MatchedKeywords(text, CategoryRules()[3].keywords))
  {
    JsBmpIndex(HOME_DECOR_BN, 8);
    TableKeywordMissedAsWritten(post, 3, 5, HOME_DECOR_BN, 8);
  }

  // ---------------------------------------------------------------------------
  // determineCategory: the best rule

  /** The winning rule so far: its index in the table and its matched keywords. */
  datatype Choice = Choice(index: nat, matched: seq<JsString>)

  /** The matched keywords of every rule, in table order. */
  function AllMatches(rules: seq<CategoryRule>, text: JsString): (ms: seq<seq<JsString>>)
    ensures |ms| == |rules|
    ensures forall j :: 0 <= j < |rules| ==> ms[j] == MatchedKeywords(text, rules[j].keywords)
  {
    seq(|rules|, j requires 0 <= j < |rules| => MatchedKeywords(text, rules[j].keywords))
  }

  /** The `bestMatch` after the loop has looked at the rules whose matches are `ms[..n]`. */
  function BestUpTo(ms: seq<seq<JsString>>, n: nat): Option<Choice>
    requires n <= |ms|
  {
    if n == 0 then None else BestStep(BestUpTo(ms, n - 1), n - 1, ms[n - 1])
  }

  /** One iteration: rule `i` with matches `m` replaces `best` only when it has strictly more. */
  function BestStep(best: Option<Choice>, i: nat, m: seq<JsString>): Option<Choice> {
    if |m| == 0 then best
    else if best.None? || |m| > |best.value.matched| then Some(Choice(i, m))
    else best
  }

  /** The best match is at an index whose matches it holds, a non-empty list, and a longest one; earlier lists are strictly shorter. */
  ghost predicate IsEarliestArgmax(ms: seq<seq<JsString>>, n: nat, c: Choice)
    requires n <= |ms|
  {
    && c.index < n
    && c.matched == ms[c.index]
    && |c.matched| > 0
    && (forall j :: 0 <= j < n ==> |ms[j]| <= |c.matched|)
    && (forall j :: 0 <= j < c.index ==> |ms[j]| < |c.matched|)
  }

  /**
   * The best match among the first `n` rules: none exactly when no rule
   * matches; otherwise the earliest rule with the most matches.
   */
  lemma {:induction false} BestUpToIsArgmax(ms: seq<seq<JsString>>, n: nat)
    requires n <= |ms|
    ensures BestUpTo(ms, n).None? <==> forall j :: 0 <= j < n ==> ms[j] == []
    ensures BestUpTo(ms, n).Some? ==> IsEarliestArgmax(ms, n, BestUpTo(ms, n).value)
  {
    if n > 0 {
      BestUpToIsArgmax(ms, n - 1);
    }
  }

  /** The loop of `determineCategory` over the rule table, keeping a strictly better match only. */
  method BestRule(rules: seq<CategoryRule>, text: JsString) returns (best: Option<Choice>)
    ensures best == BestUpTo(AllMatches(rules, text), |rules|)
    ensures best.None? <==> forall j :: 0 <= j < |rules| ==> MatchedKeywords(text, rules[j].keywords) == []
    ensures best.Some? ==> IsEarliestArgmax(AllMatches(rules, text), |rules|, best.value)
  {
    ghost var ms := AllMatches(rules, text);
    best := None;
    var i := 0;
    while i < |rules|
      invariant 0 <= i <= |rules|
      invariant best == BestUpTo(ms, i)
    {
      var matches := MatchedKeywords(text, rules[i].keywords);
      assert BestUpTo(ms, i + 1) == BestStep(best, i, matches) by {
        assert ms[i] == matches;
      }
      if |matches| != 0 {
        if best.None? || |matches| > |best.value.matched| {
          best := Some(Choice(i, matches));
        }
      }
      i := i + 1;
    }
    BestOfAllMatches(rules, text);
  }

  /** `BestUpToIsArgmax` over the matches of a rule table. */
  lemma BestOfAllMatches(rules: seq<CategoryRule>, text: JsString)
    ensures var best := BestUpTo(AllMatches(rules, text), |rules|);
      && (best.None? <==> forall j :: 0 <= j < |rules| ==> MatchedKeywords(text, rules[j].keywords) == [])
      && (best.Some? ==> IsEarliestArgmax(AllMatches(rules, text), |rules|, best.value))
  {
    var ms := AllMatches(rules, text);
    BestUpToIsArgmax(ms, |rules|);
    assert forall j :: 0 <= j < |rules| ==> ms[j] == MatchedKeywords(text, rules[j].keywords);
  }

  // ---------------------------------------------------------------------------
  // determineCategory: the fallback chain

  datatype Decision = Decision(rule: CategoryRule, matchedKeywords: seq<JsString>)

  function GeneralMerchandise(): CategoryRule {
    CategoryRule(Ascii("general-merchandise"), Ascii("General Merchandise"), [], [])
  }

  /** `slugify(fallbackName) || 'custom-category'`. */
  function CustomCategoryId(name: JsString): JsString {
    var slug := Slugify(name);
    if slug == [] then Ascii("custom-category") else slug
  }

  function Decide(rules: seq<CategoryRule>, best: Option<Choice>, customCategories: seq<JsString>): Decision
    requires best.Some? ==> best.value.index < |rules|
  {
    match best
    case Some(c) => Decision(rules[c.index], c.matched)
    case None =>
      if |customCategories| > 0 then
        Decision(CategoryRule(CustomCategoryId(customCategories[0]), customCategories[0], [], []), [])
      else
        Decision(GeneralMerchandise(), [])
  }

  /**
   * `determineCategory(post, customCategories)` over a rule table. It fails
   * exactly when the post's keyword hints are malformed; otherwise the
   * matched keywords are keywords of the chosen category, in its order,
   * and there are none exactly when no rule of the table matches.
   */
  function DetermineCategory(rules: seq<CategoryRule>, post: Post, customCategories: seq<JsString>): (r: Result<Decision, JsError>)
    ensures r.Ok? <==> KeywordHints(post.rawMetadata).Ok?
    ensures r.Ok? ==> IsSubsequence(r.value.matchedKeywords, r.value.rule.keywords)
    ensures r.Ok? ==> (r.value.matchedKeywords == [] <==>
      forall j :: 0 <= j < |rules| ==> MatchedKeywords(NormalizedText(post).value, rules[j].keywords) == [])
  {
    match NormalizedText(post)
    case Err(e) => Err(e)
    case Ok(text) =>
      var ms := AllMatches(rules, text);
      BestUpToIsArgmax(ms, |rules|);
      var best := BestUpTo(ms, |rules|);
      if best.Some? then
        MatchedKeywordsExact(text, rules[best.value.index].keywords);
        Ok(Decide(rules, best, customCategories))
      else
        DecideFallback(rules, customCategories);
        Ok(Decide(rules, best, customCategories))
  }

  /**
   * With no rule matching, only the first custom category is used (its
   * slug as id, or `custom-category` when the slug is empty, and the raw
   * name), else General Merchandise; in both cases nothing is matched.
   */
  lemma FallbackChain(rules: seq<CategoryRule>, post: Post, customCategories: seq<JsString>)
    requires NormalizedText(post).Ok?
    requires forall j :: 0 <= j < |rules| ==> MatchedKeywords(NormalizedText(post).value, rules[j].keywords) == []
    ensures var d := DetermineCategory(rules, post, customCategories).value;
      && d.matchedKeywords == []
      && d.rule.suggestedSubcategories == []
      && (|customCategories| > 0 ==>
            && d.rule.name == customCategories[0]
            && d.rule.id == (if Slugify(customCategories[0]) == [] then Ascii("custom-category") else Slugify(customCategories[0])))
      && (customCategories == [] ==> d.rule == GeneralMerchandise())
  {
    var ms := AllMatches(rules, NormalizedText(post).value);
    BestUpToIsArgmax(ms, |rules|);
    assert BestUpTo(ms, |rules|).None?;
    assert DetermineCategory(rules, post, customCategories).value == Decide(rules, None, customCategories);
    DecideFallback(rules, customCategories);
  }

  /** The decision without a best rule. */
  lemma DecideFallback(rules: seq<CategoryRule>, customCategories: seq<JsString>)
    ensures var d := Decide(rules, None, customCategories);
      && d.matchedKeywords == []
      && d.rule.suggestedSubcategories == []
      && (|customCategories| > 0 ==>
            && d.rule.name == customCategories[0]
            && d.rule.id == (if Slugify(customCategories[0]) == [] then Ascii("custom-category") else Slugify(customCategories[0])))
      && (customCategories == [] ==> d.rule == GeneralMerchandise())
  {
    if |customCategories| > 0 {
      var name := customCategories[0];
      assert Decide(rules, None, customCategories) == Decision(CategoryRule(CustomCategoryId(name), name, [], []), []);
    } else {
      assert Decide(rules, None, customCategories) == Decision(GeneralMerchandise(), []);
    }
  }

  /**
   * When some rule matches, the winner is the earliest rule with the most
   * matches, and its matched keywords are that rule's.
   */
  lemma WinnerIsEarliestArgmax(rules: seq<CategoryRule>, post: Post, customCategories: seq<JsString>, j: nat)
    requires NormalizedText(post).Ok?
    requires j < |rules| && MatchedKeywords(NormalizedText(post).value, rules[j].keywords) != []
    ensures var d := DetermineCategory(rules, post, customCategories).value;
      var ms := AllMatches(rules, NormalizedText(post).value);
      exists w :: 0 <= w < |rules| && d.rule == rules[w] && IsEarliestArgmax(ms, |rules|, Choice(w, d.matchedKeywords))
  {
    var ms := AllMatches(rules, NormalizedText(post).value);
    BestUpToIsArgmax(ms, |rules|);
    assert ms[j] != [];
    var w := BestUpTo(ms, |rules|).value.index;
    assert DetermineCategory(rules, post, customCategories).value.rule == rules[w];
  }

  // ---------------------------------------------------------------------------
  // analyzeCategories

  datatype CategorizedPost = CategorizedPost(
    post: Post,
    categoryId: JsString,
    categoryName: JsString,
    confidenceScore: real,
    suggestedSubcategories: seq<JsString>,
    categoryHierarchy: seq<JsString>,
    matchedKeywords: seq<JsString>)

  function MinReal(a: real, b: real): real { if a < b then a else b }

  /** `Math.min(0.95, base + Math.min(n * 0.1, 0.3))`, base 0.6 with a match and 0.3 without, in exact arithmetic. */
  function Confidence(n: nat): (r: real)
    ensures n == 0 ==> r == 0.3
    ensures n == 1 ==> r == 0.7
    ensures n == 2 ==> r == 0.8
    ensures n >= 3 ==> r == 0.9
    ensures 0.3 <= r <= 0.9
  {
    var base := if n > 0 then 0.6 else 0.3;
    MinReal(0.95, base + MinReal(n as real * 0.1, 0.3))
  }

  /** More matched keywords never lower the confidence. */
  lemma ConfidenceMonotone(m: nat, n: nat)
    requires m <= n
    ensures Confidence(m) <= Confidence(n)
  {
  }

  function Categorize(decision: Decision, post: Post): CategorizedPost {
    var n := |decision.matchedKeywords|;
    CategorizedPost(post, decision.rule.id, decision.rule.name, Confidence(n),
      decision.rule.suggestedSubcategories, [decision.rule.name], decision.matchedKeywords)
  }

  /** `analyzeCategories(postsData, customCategories)` over a rule table; the first bad post's error aborts the map. */
  function AnalyzeWith(rules: seq<CategoryRule>, posts: seq<Post>, customCategories: seq<JsString>): Result<seq<CategorizedPost>, JsError> {
    if posts == [] then Ok([])
    else match DetermineCategory(rules, posts[0], customCategories)
      case Err(e) => Err(e)
      case Ok(d) =>
        match AnalyzeWith(rules, posts[1..], customCategories)
        case Err(e) => Err(e)
        case Ok(rest) => Ok([Categorize(d, posts[0])] + rest)
  }

  /**
   * `analyzeCategories` with the source's own rule table (the language hint
   * only reaches a log line): it fails exactly when some post's keyword
   * hints are malformed, and otherwise gives one result per post, in order,
   * each carrying its post, a one-level hierarchy and a confidence between
   * 0.3 and 0.9.
   */
  function AnalyzeCategories(posts: seq<Post>, customCategories: seq<JsString>): (r: Result<seq<CategorizedPost>, JsError>)
    ensures r.Ok? <==> forall i :: 0 <= i < |posts| ==> KeywordHints(posts[i].rawMetadata).Ok?
    ensures r.Ok? ==> |r.value| == |posts|
    ensures r.Ok? ==> forall i :: 0 <= i < |posts| ==>
      && r.value[i].post == posts[i]
      && r.value[i].categoryHierarchy == [r.value[i].categoryName]
      && 0.3 <= r.value[i].confidenceScore <= 0.9
  {
    AnalyzeWithPointwise(CategoryRules(), posts, customCategories);
    AnalyzeWith(CategoryRules(), posts, customCategories)
  }

  /**
   * Every post is categorised, in order, with its own fields untouched and
   * the category data of its decision; the call fails exactly when some
   * post's keyword hints are malformed.
   */
  lemma {:induction false} AnalyzeWithPointwise(rules: seq<CategoryRule>, posts: seq<Post>, customCategories: seq<JsString>)
    ensures AnalyzeWith(rules, posts, customCategories).Ok?
            <==> forall i :: 0 <= i < |posts| ==> KeywordHints(posts[i].rawMetadata).Ok?
    ensures AnalyzeWith(rules, posts, customCategories).Ok? ==>
      var r := AnalyzeWith(rules, posts, customCategories).value;
      && |r| == |posts|
      && forall i :: 0 <= i < |posts| ==>
           var d := DetermineCategory(rules, posts[i], customCategories).value;
           && r[i].post == posts[i]
           && r[i].categoryId == d.rule.id
           && r[i].categoryName == d.rule.name
           && r[i].matchedKeywords == d.matchedKeywords
           && r[i].suggestedSubcategories == d.rule.suggestedSubcategories
           && r[i].categoryHierarchy == [d.rule.name]
           && r[i].confidenceScore == Confidence(|d.matchedKeywords|)
  {
    AnalyzeWithMaps(rules, posts, customCategories);
  }

  /** `AnalyzeWith` maps `Categorize` over the posts' decisions, or fails on the first bad post. */
  lemma {:induction false} AnalyzeWithMaps(rules: seq<CategoryRule>, posts: seq<Post>, customCategories: seq<JsString>)
    ensures AnalyzeWith(rules, posts, customCategories).Ok?
            <==> forall i :: 0 <= i < |posts| ==> KeywordHints(posts[i].rawMetadata).Ok?
    ensures AnalyzeWith(rules, posts, customCategories).Ok? ==>
      var r := AnalyzeWith(rules, posts, customCategories).value;
      && |r| == |posts|
      && forall i :: 0 <= i < |posts| ==> r[i] == Categorize(DetermineCategory(rules, posts[i], customCategories).value, posts[i])
  {
    if posts != [] {
      AnalyzeWithMaps(rules, posts[1..], customCategories);
      assert forall i :: 1 <= i < |posts| ==> posts[i] == posts[1..][i - 1];
    }
  }
}
