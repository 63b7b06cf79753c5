/**
 * The mock post source (apps/mcp/src/facebook_page_reader.ts): a
 * deterministic list of posts for a page URL, built from six templates.
 * The clock is the parameter `now` (milliseconds since the epoch) and a
 * timestamp is kept as that number rather than its ISO text.
 */
module PageReader {
  import opened Wrappers
  import opened JsText

  /** A value of the free-form `raw_metadata` record. */
  datatype MetaValue =
    | MetaNull
    | MetaBool(b: bool)
    | MetaNumber(n: int)
    | MetaString(s: JsString)
    | MetaStringList(items: seq<JsString>)

  /** The `raw_metadata` record; its property names are ASCII literals of the source, kept as Dafny strings. */
  type Metadata = map<string, MetaValue>

  datatype Engagement = Engagement(likes: nat, comments: nat, shares: nat)

  datatype Post = Post(
    postId: JsString,
    textContent: JsString,
    mediaUrls: seq<JsString>,
    timestamp: int,
    engagement: Engagement,
    permalinkUrl: JsString,
    rawMetadata: Metadata)

  /**
   * A `MOCK_POSTS` entry: a post without its id, permalink and timestamp.
   * Its text stays a Dafny string; `Text`, `Media` and `Meta` give the
   * JavaScript values.
   */
  datatype PostTemplate = PostTemplate(
    text: string,
    media: string,
    engagement: Engagement,
    language: string,
    detectedCategory: string)
  {
    function Text(): JsString { Js(text) }
    function Media(): seq<JsString> { [Js(media)] }
    function Meta(): Metadata {
      map["language" := MetaString(Js(language)),
          "detected_category" := MetaString(Js(detectedCategory))]
    }
  }

  datatype GetPostsOptions = GetPostsOptions(postLimit: Option<int>, includeMedia: Option<bool>)

  const MAX_POSTS: int := 100
  const HOUR_MS: int := 3_600_000
  /** The path segment `/posts/` between the page URL and the post id. */
  const POSTS_PATH: JsString := [SLASH, 0x70, 0x6F, 0x73, 0x74, 0x73, SLASH]

  /** The six templates, in the order `MOCK_POSTS` lists them. */
  const JAMDANI_SAREE: PostTemplate :=
    PostTemplate("Handcrafted Jamdani saree now available! Soft cotton weave perfect for festivals. \U{09F3} 3,200 only. #fashion #saree #handloom",
    "https://picsum.photos/seed/jamdani/900/900", Engagement(523, 87, 44), "bn", "fashion")
  const EARBUDS: PostTemplate :=
    PostTemplate("Wireless Bluetooth earbuds with 36h backup and noise cancellation. Intro price BDT 1,500. Free home delivery in Dhaka \U{1F3A7} #electronics #gadget",
    "https://picsum.photos/seed/earbuds/900/900", Engagement(812, 134, 62), "en", "electronics")
  const FACE_SERUM: PostTemplate :=
    PostTemplate("Herbal glow face serum infused with vitamin C. \U{09F3}950 launch offer with cash on delivery. #beauty #skincare #cosmetics",
    "https://picsum.photos/seed/serum/900/900", Engagement(411, 59, 22), "bn", "cosmetics")
  const BEDSIDE_LAMP: PostTemplate :=
    PostTemplate("Premium acacia wood bedside lamp with woven shade. Warm glow for cozy nights. Price tk 1,800. #home #decor #lighting",
    "https://picsum.photos/seed/lamp/900/900", Engagement(265, 32, 15), "en", "home_decor")
  const SUNFLOWER_HONEY: PostTemplate :=
    PostTemplate("Organic sunflower honey collected from Dinajpur. \U{09F3}600 per 500g jar. Limited stock! #food #honey #organic",
    "https://picsum.photos/seed/honey/900/900", Engagement(689, 142, 88), "bn", "food")
  const LEATHER_WALLET: PostTemplate :=
    PostTemplate("Genuine leather wallet with RFID protection. Introductory offer Tk 1,250. Gift packaging available. #accessories #leather",
    "https://picsum.photos/seed/wallet/900/900", Engagement(377, 51, 19), "bn", "accessories")

  const MOCK_POSTS: seq<PostTemplate> :=
    [JAMDANI_SAREE, EARBUDS, FACE_SERUM, BEDSIDE_LAMP, SUNFLOWER_HONEY, LEATHER_WALLET]

  /** The sum of the `charCodeAt` values of `s`; it is never negative, so `Math.abs` leaves it alone. */
  function CharCodeSum(s: JsString): nat {
    if s == [] then 0 else s[0] + CharCodeSum(s[1..])
  }

  /** The id of the post at `index`: the URL's character-code sum, a hyphen and `index + 1`. */
  function PostId(pageUrl: JsString, index: nat): JsString {
    DecimalString(CharCodeSum(pageUrl)) + [HYPHEN] + DecimalString(index + 1)
  }

  /** `pageUrl.replace(/\/$/, '')`: one trailing slash removed. */
  function StripTrailingSlash(url: JsString): (r: JsString)
    ensures url == [] || url[|url| - 1] != SLASH ==> r == url
    ensures url != [] && url[|url| - 1] == SLASH ==> r + [SLASH] == url
  {
    if url != [] && url[|url| - 1] == SLASH then url[..|url| - 1] else url
  }

  /** The number of posts `getPosts` returns: `Math.min(postLimit, 100)`, negative lengths read as 0. */
  function PostCount(options: GetPostsOptions): nat {
    var limit := Min(options.postLimit.GetOr(MAX_POSTS), MAX_POSTS);
    if limit < 0 then 0 else limit
  }

  /**
   * The post at `index`, built from the template `base`: its id starts with
   * the URL's code-unit sum and a hyphen, it is stamped no later than
   * `now`, it has media only when asked, and its metadata names the source
   * page and is flagged as generated.
   */
  function MakePost(pageUrl: JsString, base: PostTemplate, index: nat, includeMedia: bool, now: int): (r: Post)
    ensures IsPrefix(DecimalString(CharCodeSum(pageUrl)) + [HYPHEN], r.postId)
    ensures r.timestamp <= now
    ensures !includeMedia ==> r.mediaUrls == []
    ensures "source_page" in r.rawMetadata && r.rawMetadata["source_page"] == MetaString(pageUrl)
    ensures "generated" in r.rawMetadata && r.rawMetadata["generated"] == MetaBool(true)
  {
    var postId := PostId(pageUrl, index);
    PostIdPrefix(pageUrl, index);
    Post(
      postId,
      base.Text(),
      if includeMedia then base.Media() else [],
      now - index * HOUR_MS,
      base.engagement,
      StripTrailingSlash(pageUrl) + POSTS_PATH + postId,
      TaggedMetadata(base.Meta(), pageUrl))
  }

  /** `{...base.raw_metadata, source_page: pageUrl, generated: true}`. */
  function TaggedMetadata(base: Metadata, pageUrl: JsString): Metadata {
    base["source_page" := MetaString(pageUrl)]["generated" := MetaBool(true)]
  }

  /** `getPosts(pageUrl, options)` with the clock reading `now`. */
  function GetPosts(pageUrl: JsString, options: GetPostsOptions, now: int): (r: seq<Post>)
    ensures |r| == PostCount(options) <= MAX_POSTS
  {
    var includeMedia := options.includeMedia.GetOr(true);
    seq(PostCount(options), i requires 0 <= i => MakePost(pageUrl, MOCK_POSTS[i % |MOCK_POSTS|], i, includeMedia, now))
  }

  // ---------------------------------------------------------------------------
  // Properties

  /** The count is the requested limit capped at 100 (100 when none is given, 0 for a negative one). */
  lemma PostCountClamp(options: GetPostsOptions)
    ensures options.postLimit.None? ==> PostCount(options) == MAX_POSTS
    ensures options.postLimit.Some? && options.postLimit.value < 0 ==> PostCount(options) == 0
    ensures options.postLimit.Some? && 0 <= options.postLimit.value ==>
      PostCount(options) == Min(options.postLimit.value, MAX_POSTS)
  {
  }

  lemma PostAt(pageUrl: JsString, options: GetPostsOptions, now: int, i: nat)
    requires i < PostCount(options)
    ensures GetPosts(pageUrl, options, now)[i]
            == MakePost(pageUrl, MOCK_POSTS[i % 6], i, options.includeMedia.GetOr(true), now)
  {
    assert |MOCK_POSTS| == 6;
    var posts := GetPosts(pageUrl, options, now);
    assert posts[i] == MakePost(pageUrl, MOCK_POSTS[i % |MOCK_POSTS|], i, options.includeMedia.GetOr(true), now);
  }

  /** Post `i` takes its text and engagement from template `i mod 6`, and its media only when asked. */
  lemma TemplatesCycle(pageUrl: JsString, options: GetPostsOptions, now: int, i: nat)
    requires i < PostCount(options)
    ensures GetPosts(pageUrl, options, now)[i].textContent == MOCK_POSTS[i % 6].Text()
    ensures GetPosts(pageUrl, options, now)[i].engagement == MOCK_POSTS[i % 6].engagement
    ensures GetPosts(pageUrl, options, now)[i].mediaUrls
            == if options.includeMedia == Some(false) then [] else MOCK_POSTS[i % 6].Media()
  {
    PostAt(pageUrl, options, now, i);
  }

  /** Post `i`'s id is the URL's code-unit sum, a hyphen and the number `i + 1`. */
  lemma PostIdsNumbered(pageUrl: JsString, options: GetPostsOptions, now: int, i: nat)
    requires i < PostCount(options)
    ensures GetPosts(pageUrl, options, now)[i].postId
            == DecimalString(CharCodeSum(pageUrl)) + [HYPHEN] + DecimalString(i + 1)
    ensures IsPrefix(DecimalString(CharCodeSum(pageUrl)) + [HYPHEN], GetPosts(pageUrl, options, now)[i].postId)
  {
    PostAt(pageUrl, options, now, i);
    PostIdPrefix(pageUrl, i);
  }

  /** The ids of two different posts of one page differ. */
  lemma PostIdsDistinct(pageUrl: JsString, options: GetPostsOptions, now: int, i: nat, j: nat)
    requires i < j < PostCount(options)
    ensures GetPosts(pageUrl, options, now)[i].postId != GetPosts(pageUrl, options, now)[j].postId
  {
    PostAt(pageUrl, options, now, i);
    PostAt(pageUrl, options, now, j);
    PostIdInjective(pageUrl, i, j);
  }

  /** Every id starts with the URL's code-unit sum and a hyphen. */
  lemma PostIdPrefix(pageUrl: JsString, i: nat)
    ensures IsPrefix(DecimalString(CharCodeSum(pageUrl)) + [HYPHEN], PostId(pageUrl, i))
  {
    var prefix := DecimalString(CharCodeSum(pageUrl)) + [HYPHEN];
    assert (prefix + DecimalString(i + 1))[..|prefix|] == prefix;
  }

  /** Different indexes give different ids. */
  lemma PostIdInjective(pageUrl: JsString, i: nat, j: nat)
    requires i != j
    ensures PostId(pageUrl, i) != PostId(pageUrl, j)
  {
    var prefix := DecimalString(CharCodeSum(pageUrl)) + [HYPHEN];
    var a, b := DecimalString(i + 1), DecimalString(j + 1);
    assert (prefix + a)[|prefix|..] == a && (prefix + b)[|prefix|..] == b;
    if prefix + a == prefix + b {
      DecimalInjective(i + 1, j + 1);
    }
  }

  lemma MakePostPermalink(pageUrl: JsString, t: PostTemplate, index: nat, media: bool, now: int)
    ensures var p := MakePost(pageUrl, t, index, media, now);
      p.permalinkUrl == StripTrailingSlash(pageUrl) + POSTS_PATH + p.postId
      && (pageUrl == [] || pageUrl[|pageUrl| - 1] != SLASH ==> IsPrefix(pageUrl, p.permalinkUrl))
  {
    var p := MakePost(pageUrl, t, index, media, now);
    var base, tail := StripTrailingSlash(pageUrl), POSTS_PATH + p.postId;
    assert p.permalinkUrl == base + tail;
    assert (base + tail)[..|base|] == base;
  }

  /** The permalink is the URL without one trailing slash, then `/posts/` and the post id. */
  lemma PermalinkShape(pageUrl: JsString, options: GetPostsOptions, now: int, i: nat)
    requires i < PostCount(options)
    ensures var p := GetPosts(pageUrl, options, now)[i];
      p.permalinkUrl == StripTrailingSlash(pageUrl) + POSTS_PATH + p.postId
      && (pageUrl == [] || pageUrl[|pageUrl| - 1] != SLASH ==> IsPrefix(pageUrl, p.permalinkUrl))
  {
    PostAt(pageUrl, options, now, i);
    MakePostPermalink(pageUrl, MOCK_POSTS[i % 6], i, options.includeMedia.GetOr(true), now);
  }

  /** Post `i` is stamped `i` hours before `now`. */
  lemma PostTimestamp(pageUrl: JsString, options: GetPostsOptions, now: int, i: nat)
    requires i < PostCount(options)
    ensures GetPosts(pageUrl, options, now)[i].timestamp == now - i * HOUR_MS
  {
    PostAt(pageUrl, options, now, i);
  }

  /** Post `j` is exactly `j - i` hours older than post `i`, so timestamps strictly decrease. */
  lemma TimestampsDecrease(pageUrl: JsString, options: GetPostsOptions, now: int, i: nat, j: nat)
    requires i < j < PostCount(options)
    ensures var posts := GetPosts(pageUrl, options, now);
      && posts[i].timestamp - posts[j].timestamp == (j - i) * HOUR_MS
      && posts[i].timestamp > posts[j].timestamp
  {
    PostTimestamp(pageUrl, options, now, i);
    PostTimestamp(pageUrl, options, now, j);
    assert j * HOUR_MS == i * HOUR_MS + (j - i) * HOUR_MS;
  }

  lemma TaggedMetadataKeys(base: Metadata, pageUrl: JsString)
    ensures var m := TaggedMetadata(base, pageUrl);
      && m["source_page"] == MetaString(pageUrl)
      && m["generated"] == MetaBool(true)
      && (forall k :: k in base && k != "source_page" && k != "generated" ==> k in m && m[k] == base[k])
      && (forall k :: k in m ==> k in base || k == "source_page" || k == "generated")
  {
  }

  /** The metadata is the template's, plus the source page and the `generated` flag. */
  lemma MetadataTagged(pageUrl: JsString, options: GetPostsOptions, now: int, i: nat)
    requires i < PostCount(options)
    ensures var m := GetPosts(pageUrl, options, now)[i].rawMetadata;
      var base := MOCK_POSTS[i % 6].Meta();
      && m["source_page"] == MetaString(pageUrl)
      && m["generated"] == MetaBool(true)
      && (forall k :: k in base && k != "source_page" && k != "generated" ==> k in m && m[k] == base[k])
      && (forall k :: k in m ==> k in base || k == "source_page" || k == "generated")
  {
    PostAt(pageUrl, options, now, i);
    TaggedMetadataKeys(MOCK_POSTS[i % 6].Meta(), pageUrl);
  }

  lemma TemplateMetadataKeys(t: PostTemplate, pageUrl: JsString)
    ensures TaggedMetadata(t.Meta(), pageUrl).Keys == {"language", "detected_category", "source_page", "generated"}
  {
  }

  /** A mock post's metadata has exactly the template's two properties plus `source_page` and `generated`. */
  lemma MetadataKeys(pageUrl: JsString, options: GetPostsOptions, now: int, i: nat)
    requires i < PostCount(options)
    ensures GetPosts(pageUrl, options, now)[i].rawMetadata.Keys == {"language", "detected_category", "source_page", "generated"}
  {
    PostAt(pageUrl, options, now, i);
    TemplateMetadataKeys(MOCK_POSTS[i % 6], pageUrl);
  }
}
