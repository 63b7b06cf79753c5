# Facebook page to e-commerce catalog: a Dafny model of the pipeline core

The repository turns the posts of a Facebook shop page into an online
catalog. A mock post reader produces a deterministic list of posts for a
page URL. A keyword categorizer assigns each post to one of six category
rules, falling back to a custom category or to "General Merchandise". A
product generator reads a title, a price, hashtags and availability off
each post and builds the product records. A small read API lists and looks
up those products. A client route validates and forwards the "transform
this page" request.

This project models those five pieces, one Dafny module each, and proves
what they promise:

- `PageReader` (`page_reader.dfy`) is `getPosts`. It covers the six
  templates, post ids made of the URL's character-code sum, permalinks, the
  post-count clamp, and timestamps spaced one hour apart. The clock is the
  parameter `now`.
- `Categorizer` (`categorizer.dfy`) is the rule table, `slugify`,
  `determineCategory` and `analyzeCategories`.
  - `determineCategory` is written twice. `BestRule` is the loop, as a
    method. `BestUpTo` is the same loop as a fold, and the pure pipeline
    uses the fold. `BestRule` is proved equal to the fold.
  - The keyword comparison exists in two forms. `MatchedKeywordsAsWritten`
    is the comparison as the source writes it. `MatchedKeywords` is the
    corrected one, and the rest of the model uses it (see Findings).
- `ProductGenerator` (`product_generator.dfy`) is `extractPrice`,
  `extractTitle`, `extractHashtags`, `determineAvailability`, the tag list
  and `generateProducts`.
- `ProductsApi` (`products_api.dfy`) is the `/products` filters and limit,
  and the `/products/:id` lookup. The catalog read is a parameter, `None`
  when it fails.
- `TransformRoute` (`transform_route.dfy`) is the client's
  `POST /api/transform`. It covers body validation, snake_case/camelCase
  normalisation with defaults, and the 400/502/500/200 outcomes. The
  upstream service call and the catalog read are parameters.

Three modules support the others:

- `JsText` holds JavaScript string primitives over UTF-16 code units:
  `toLowerCase`, `trim`, `includes`, `split`, `join`, `${n}`, and a
  Bengali-only `normalize('NFKD')`.
- `SeqUtil` holds `filter`, `find`, first-seen deduplication
  (`Array.from(new Set(...))`) and the subsequence relation.
- `Wrappers` holds `Option` and `Result`. A JavaScript exception that the
  source does not catch becomes an `Err`.

The price regex removes all commas before matching. Its `(?:,\d{3})*` group
therefore never takes part, and the model leaves it out. The model is
exactly `marker \s* \d+ (\.\d{1,2})?`, matched case-insensitively at the
leftmost offset.

## Model

| member | source | states |
|---|---|---|
| Categorizer.CategoryRules | apps/mcp/src/category_analyzer.ts:19-56 | There are exactly six rules. Each one is the table row with its id, name, keywords and subcategories, in table order. |
| Categorizer.CollapseNonSlug | apps/mcp/src/category_analyzer.ts:61 | The result holds only `[a-z0-9-]`, never two hyphens in a row, is no longer than the input, and keeps a leading slug character. `CollapseSlugPrefix`, `CollapseNonSlugRun` and `CollapseKeepsSlugChars` state what it keeps and what it replaces. |
| Categorizer.DropLeadingHyphens | apps/mcp/src/category_analyzer.ts:62 | The result is a suffix of the input that does not start with a hyphen, and everything removed before it is a hyphen. |
| Categorizer.DropTrailingHyphens | apps/mcp/src/category_analyzer.ts:62 | The result is a prefix of the input that does not end with a hyphen, and everything removed after it is a hyphen. |
| Categorizer.CollapseSlugPrefix | apps/mcp/src/category_analyzer.ts:61 | A leading run of `[a-z0-9]` characters is kept as it is. |
| Categorizer.DropNonSlugRun | apps/mcp/src/category_analyzer.ts:61 | Skipping a non-slug run stops exactly at the slug character after it. |
| Categorizer.CollapseNonSlugRun | apps/mcp/src/category_analyzer.ts:61 | A maximal non-empty run outside `[a-z0-9]` becomes exactly one hyphen. |
| Categorizer.CollapseKeepsSlugChars | apps/mcp/src/category_analyzer.ts:61 | Collapsing keeps every `[a-z0-9]` character, in order, and adds none. |
| Categorizer.LeadingHyphensKeepSlugChars | apps/mcp/src/category_analyzer.ts:62 | Trimming leading hyphens keeps every `[a-z0-9]` character. |
| Categorizer.TrailingHyphensKeepSlugChars | apps/mcp/src/category_analyzer.ts:62 | Trimming trailing hyphens keeps every `[a-z0-9]` character. |
| Categorizer.SlugifyKeepsSlugChars | apps/mcp/src/category_analyzer.ts:58-63 | The slug keeps exactly the `[a-z0-9]` characters of the lower-cased input, in order. |
| Categorizer.Slugify | apps/mcp/src/category_analyzer.ts:58-63 | Every slug holds only `[a-z0-9-]`, has no hyphen at either end, never doubles one, and is no longer than the input. |
| Categorizer.SlugFixpoint | apps/mcp/src/category_analyzer.ts:58-63 | A string that is already a slug is its own slug. |
| Categorizer.SlugifyIdempotent | apps/mcp/src/category_analyzer.ts:58-63 | `slugify(slugify(s)) == slugify(s)` for every input. |
| Categorizer.KeywordHints | apps/mcp/src/category_analyzer.ts:69 | A missing or null `keywords` entry gives no hint text. A string list gives its items joined by spaces. Any other entry fails with `TypeError`, and only such an entry fails. |
| Categorizer.NormalizedText | apps/mcp/src/category_analyzer.ts:69-71 | The search text fails exactly when the hints fail. It starts with the post's own text in search form, and holds no code unit that NFKD decomposes. |
| Categorizer.MatchedKeywordsExact | apps/mcp/src/category_analyzer.ts:76 | The matches are a subsequence of the rule's keywords, in rule order. A keyword is matched exactly when its search form occurs in the normalised text. |
| Categorizer.VerbatimKeywordMatched | apps/mcp/src/category_analyzer.ts:69-76 | A rule keyword that occurs verbatim in the post text is always matched, because text and keyword are lower-cased and NFKD-normalised alike. |
| Categorizer.MatchedKeywordsAsWritten | apps/mcp/src/category_analyzer.ts:76 | As the source writes it, every match is a rule keyword whose lower-cased form occurs in the NFKD-normalised text. |
| Categorizer.MatchedKeywordsAsWrittenExact | apps/mcp/src/category_analyzer.ts:76 | As written, the matches are a subsequence of the rule's keywords. A keyword is matched exactly when its lower-cased form occurs in the text. |
| Categorizer.KeywordFormUndecomposable | apps/mcp/src/category_analyzer.ts:69-71 | A keyword without a decomposable code unit searches as its lower-cased self. |
| Categorizer.AsWrittenAgrees | apps/mcp/src/category_analyzer.ts:76 | On keywords without one of the five decomposable code units, the comparison as written and the corrected one give the same matches. |
| Categorizer.DecomposableKeywordNeverMatchedAsWritten | apps/mcp/src/category_analyzer.ts:69-76 | As written, a keyword holding a code unit that NFKD decomposes is never matched, whatever the post says. |
| Categorizer.TableKeywordMissedAsWritten | apps/mcp/src/category_analyzer.ts:69-76 | A table keyword with a decomposable code unit is in its rule. It is never matched as written, yet the corrected comparison matches it in any post containing it. |
| Categorizer.SareeMissedAsWritten | apps/mcp/src/category_analyzer.ts:23 | The fashion keyword শাড়ি (U+09DC) is never matched as written, but it is matched once corrected. |
| Categorizer.ClothingMissedAsWritten | apps/mcp/src/category_analyzer.ts:23 | The fashion keyword পোশাক (U+09CB) is never matched as written, but it is matched once corrected. |
| Categorizer.HomeDecorMissedAsWritten | apps/mcp/src/category_analyzer.ts:41 | The home keyword ঘর সাজানো (U+09CB) is never matched as written, but it is matched once corrected. |
| Categorizer.BestUpToIsArgmax | apps/mcp/src/category_analyzer.ts:73-84 | After any number of rules, there is no best match exactly when no rule matched so far. Otherwise the best is a non-empty match list of maximal length, and every earlier rule has strictly fewer matches. |
| Categorizer.BestRule | apps/mcp/src/category_analyzer.ts:73-84 | The loop's result equals the fold. It is `None` exactly when no rule matches, and otherwise the earliest rule with the most matches. |
| Categorizer.BestOfAllMatches | apps/mcp/src/category_analyzer.ts:75-84 | The argmax property, stated over the rule table's own match lists. |
| Categorizer.DecideFallback | apps/mcp/src/category_analyzer.ts:86-111 | With no best rule, the first custom category is used. Its id is the name's slug, or `custom-category` when the slug is empty, and its name is the raw name. Without custom categories the result is General Merchandise. Nothing is matched and there are no subcategories. |
| Categorizer.FallbackChain | apps/mcp/src/category_analyzer.ts:73-111 | When no rule matches, `determineCategory` takes exactly that fallback. |
| Categorizer.WinnerIsEarliestArgmax | apps/mcp/src/category_analyzer.ts:73-88 | When some rule matches, the decision is a rule of the table that is the earliest one with the most matches, with that rule's matches. |
| Categorizer.DetermineCategory | apps/mcp/src/category_analyzer.ts:65-112 | The decision fails exactly when the hints are malformed. Its matches are a subsequence of the chosen category's keywords, and they are empty exactly when no rule of the table matches. |
| Categorizer.Confidence | apps/mcp/src/category_analyzer.ts:124-125 | The score is 0.3 with no match and 0.7, 0.8 or 0.9 for one, two or three or more. It always lies within [0.3, 0.9]. |
| Categorizer.ConfidenceMonotone | apps/mcp/src/category_analyzer.ts:124-125 | More matched keywords never lower the score. |
| Categorizer.AnalyzeWithPointwise | apps/mcp/src/category_analyzer.ts:114-137 | The call succeeds exactly when every post's hints are well-formed. Output post i is input post i with its decision's id, name, subcategories, hierarchy `[name]`, matches and score. |
| Categorizer.AnalyzeWithMaps | apps/mcp/src/category_analyzer.ts:121-136 | The call succeeds exactly when every post's hints are well-formed, and maps the categorisation over the posts' decisions in order. |
| Categorizer.AnalyzeCategories | apps/mcp/src/category_analyzer.ts:114-137 | With the source's rule table, the call fails exactly when some post's hints are malformed. Otherwise it gives one result per post, in order, each with its post, a one-level hierarchy and a score in [0.3, 0.9]. |
| PageReader.StripTrailingSlash | apps/mcp/src/facebook_page_reader.ts:84 | Exactly one trailing slash is removed. A URL without one is unchanged. |
| PageReader.MakePost | apps/mcp/src/facebook_page_reader.ts:75-90 | A post's id starts with the URL's code-unit sum and a hyphen. It is stamped no later than `now`, has media only when asked, and its metadata names the source page and is flagged `generated`. |
| PageReader.GetPosts | apps/mcp/src/facebook_page_reader.ts:65-92 | The number of posts is the clamped count, never more than 100. |
| PageReader.PostCountClamp | apps/mcp/src/facebook_page_reader.ts:67-74 | The default is 100 posts and a larger limit is capped at 100. A negative limit gives none. |
| PageReader.TemplatesCycle | apps/mcp/src/facebook_page_reader.ts:75-83 | Post i has template `i mod 6`'s text and engagement. It has that template's media unless media is switched off. |
| PageReader.PostIdsNumbered | apps/mcp/src/facebook_page_reader.ts:76 | Post i's id is the URL's code-unit sum, a hyphen and the number `i + 1`, so it starts with that sum and a hyphen. |
| PageReader.PostIdsDistinct | apps/mcp/src/facebook_page_reader.ts:76 | The ids of any two different posts of one page differ. |
| PageReader.PostIdPrefix | apps/mcp/src/facebook_page_reader.ts:76 | Every id starts with the URL's code-unit sum and a hyphen. |
| PageReader.PostIdInjective | apps/mcp/src/facebook_page_reader.ts:76 | Different indexes give different ids. |
| PageReader.MakePostPermalink | apps/mcp/src/facebook_page_reader.ts:84 | The permalink is the URL without one trailing slash, then `/posts/`, then the id. It extends a URL that has no trailing slash. |
| PageReader.PermalinkShape | apps/mcp/src/facebook_page_reader.ts:84 | The permalink shape holds for every generated post. |
| PageReader.PostTimestamp | apps/mcp/src/facebook_page_reader.ts:72-82 | Post i is stamped exactly i hours before `now`. |
| PageReader.TimestampsDecrease | apps/mcp/src/facebook_page_reader.ts:72-82 | For i < j, post i's timestamp exceeds post j's by exactly `j - i` hours, so timestamps strictly decrease. |
| PageReader.TaggedMetadataKeys | apps/mcp/src/facebook_page_reader.ts:85-89 | The metadata keeps the template's keys and adds `source_page` and `generated`. |
| PageReader.MetadataTagged | apps/mcp/src/facebook_page_reader.ts:85-89 | Every post's metadata holds `source_page` (the page URL), `generated` (true), and the template's language and detected category. |
| PageReader.MetadataKeys | apps/mcp/src/facebook_page_reader.ts:85-89 | Every post's metadata has exactly the keys `language`, `detected_category`, `source_page` and `generated`. |
| ProductGenerator.RemoveCommas | apps/mcp/src/product_generator.ts:11 | The result has no comma and no character that was not in the input. `RemoveCommasKeepsOthers` states that it is exactly the input without its commas. |
| ProductGenerator.RemoveCommasKeepsOthers | apps/mcp/src/product_generator.ts:11 | Removing commas keeps every other character, in order. |
| ProductGenerator.NoCommaUnchanged | apps/mcp/src/product_generator.ts:11 | Text without a comma is unchanged. |
| ProductGenerator.FirstAmount | apps/mcp/src/product_generator.ts:10-12 | There is no amount exactly when the pattern matches at no offset. Otherwise the amount is the one at the leftmost matching offset. |
| ProductGenerator.ExtractPrice | apps/mcp/src/product_generator.ts:9-23 | The currency is always `BDT`. The amount is the amount at the leftmost match in the comma-free text, and none when nothing matches. |
| ProductGenerator.TakaSignExample | apps/mcp/src/product_generator.ts:9-23 | `৳ 3,200` yields the amount 3200. |
| ProductGenerator.TakaSignAmount | apps/mcp/src/product_generator.ts:9-23 | `৳ ` followed by any decimal numeral yields that number as the amount. |
| ProductGenerator.TakaAmountAt | apps/mcp/src/product_generator.ts:10-12 | The pattern matches `৳ ` and a numeral at offset 0, with the numeral's value. |
| ProductGenerator.DigitRunToEnd | apps/mcp/src/product_generator.ts:10 | A digit run that reaches the end of the text ends there. |
| ProductGenerator.ExtractTitle | apps/mcp/src/product_generator.ts:25-41 | A title is never empty and never longer than 80 code units. |
| ProductGenerator.FirstLineOfTrimmed | apps/mcp/src/product_generator.ts:26-34 | For text that is not all white space, the first non-empty trimmed line is the first line, and it is non-empty. The second `Untitled Product` branch is therefore unreachable. |
| ProductGenerator.TitleCases | apps/mcp/src/product_generator.ts:25-41 | White-space-only text gives `Untitled Product`. Otherwise the title is the first line if it has at most 80 code units, and else its first 77 code units, trimmed, plus an ellipsis. |
| ProductGenerator.TagBodies | apps/mcp/src/product_generator.ts:44 | Every tag body is non-empty and made of tag characters. `TagBodiesInOrder` gives the complete list. |
| ProductGenerator.ExtractHashtags | apps/mcp/src/product_generator.ts:43-46 | Every hashtag is non-empty and has no `#`. `HashtagsComplete` gives the complete list. |
| ProductGenerator.TagBodiesOccur | apps/mcp/src/product_generator.ts:44 | Every body found is the maximal run of tag characters after some `#` of the text. |
| ProductGenerator.HashtagsShape | apps/mcp/src/product_generator.ts:43-46 | Every hashtag is the lower-cased body of a `#` tag of the text and holds no upper-case letter. |
| ProductGenerator.TagOffsetsExact | apps/mcp/src/product_generator.ts:44 | The offsets listed are exactly those where a tag starts, in strictly increasing order. |
| ProductGenerator.NoTagStartInRun | apps/mcp/src/product_generator.ts:44 | No tag starts inside a run of tag characters. |
| ProductGenerator.TagBodiesInOrder | apps/mcp/src/product_generator.ts:44 | The global match finds, left to right, the body after every offset where a tag starts, and nothing else. |
| ProductGenerator.HashtagsComplete | apps/mcp/src/product_generator.ts:43-46 | The hashtags are, one for each offset where a tag starts and in the order of those offsets, the lower-cased body after it. |
| ProductGenerator.HashtagExample | apps/mcp/src/product_generator.ts:43-46 | `#Saree` yields the single tag `saree`. |
| ProductGenerator.DetermineAvailability | apps/mcp/src/product_generator.ts:48-59 | The result is pre-order exactly when the text mentions pre-order. It is out of stock exactly when the text mentions stock out and not pre-order, and in stock otherwise. |
| ProductGenerator.AvailabilityIgnoresCase | apps/mcp/src/product_generator.ts:49 | Lower-casing the text first changes nothing. |
| ProductGenerator.HyphenateSpaces | apps/mcp/src/product_generator.ts:73 | The result holds no white space and is no longer than the input. `HyphenateWord` and `HyphenateRun` state what it keeps and what it replaces. |
| ProductGenerator.HyphenateWord | apps/mcp/src/product_generator.ts:73 | A stretch without white space is kept as it is. |
| ProductGenerator.HyphenateRun | apps/mcp/src/product_generator.ts:73 | A maximal non-empty run of white space becomes exactly one hyphen. |
| ProductGenerator.TagsSpec | apps/mcp/src/product_generator.ts:70-76 | Tags have no duplicates. They hold the category id, every hashtag and every hyphenated keyword, and nothing else, in first-seen order. |
| ProductGenerator.Pricing | apps/mcp/src/product_generator.ts:68 | With pricing on or unset, the price comes from the text. With pricing off there is no amount, and the currency is the default currency, or `BDT` when none is given. |
| ProductGenerator.GenerateProducts | apps/mcp/src/product_generator.ts:61-94 | The output has one product per categorised post. |
| ProductGenerator.ProductsFollowPosts | apps/mcp/src/product_generator.ts:78-92 | Product i has id `prod-` plus post i's id. It keeps that post's id, URL, media, timestamp, category, trimmed text, title, tags and availability. |
| ProductGenerator.ToProduct | apps/mcp/src/product_generator.ts:78-92 | A product's id is `prod-` followed by, and so giving back, the post id. Its title is non-empty and at most 80 code units, its description has no outer white space, and it has a price only when pricing is on. |
| ProductGenerator.PricingOption | apps/mcp/src/product_generator.ts:68-83 | With pricing off there is no price and the currency is the default. With pricing on the price is extracted and the currency is `BDT`. |
| ProductGenerator.ProductIdInjective | apps/mcp/src/product_generator.ts:79 | Two products have the same id exactly when their posts have the same id. |
| ProductGenerator.MockPostsCategorize | apps/mcp/src/facebook_page_reader.ts:85-89 | The generated posts carry no `keywords` hint, so categorising them never fails. |
| ProductGenerator.PipelineIdsDistinct | apps/mcp/src/product_generator.ts:79 | Reading, categorising and generating give one product per post, with pairwise distinct ids. |
| ProductsApi.GetProducts | apps/products-api/src/index.ts:55-86 | A failed catalog read answers 500. Otherwise the answer is the filtered and limited list. |
| ProductsApi.ParseIntDecimal | apps/products-api/src/index.ts:76 | `parseInt` reads back every decimal numeral followed by a non-digit or by nothing. |
| ProductsApi.ParseInt | apps/products-api/src/index.ts:76 | Text without any digit gives `NaN`, so no limit applies. A negative result needs a minus sign as the first character after leading white space. |
| ProductsApi.QueryIsSubsequence | apps/products-api/src/index.ts:60-81 | The answer is a subsequence of the catalog: order is kept and products are only dropped. |
| ProductsApi.QueryProducts | apps/products-api/src/index.ts:60-81 | Every product in the answer is in the catalog and passes the category and search filters in force. The answer is never longer than the catalog, nor than a limit in force. |
| ProductsApi.FiltersExact | apps/products-api/src/index.ts:62-74 | After both filters, a product is present exactly when it is in the catalog and passes the category and search tests that are in force. |
| ProductsApi.QueryContents | apps/products-api/src/index.ts:60-81 | Without a limit the answer is the filtered list. With one it is the first `min(limit, count)` filtered products. |
| ProductsApi.NoParametersNoChange | apps/products-api/src/index.ts:60-81 | With no query parameters the whole catalog comes back unchanged. |
| ProductsApi.DecimalLimit | apps/products-api/src/index.ts:76-79 | A positive decimal limit caps the answer at that many products. |
| ProductsApi.FindByIdFirst | apps/products-api/src/index.ts:91 | The lookup finds nothing exactly when no product has the id. Otherwise it returns the first product that has it. |
| ProductsApi.GetProduct | apps/products-api/src/index.ts:88-102 | A failed read answers 500. Otherwise the answer is 200 or 404. |
| ProductsApi.GetProductFirstMatch | apps/products-api/src/index.ts:91-97 | The answer is 404 exactly when no product has the id. Otherwise it is the first product with it. |
| TransformRoute.Coalesce | apps/client/src/pages/api/transform.ts:30 | `a ?? b` is `a` unless `a` is null or undefined. |
| TransformRoute.RequestFields | apps/client/src/pages/api/transform.ts:38-51 | The serialised request always holds `page_url` with the URL. Every other field is present exactly when it is not `undefined`, and then holds the request's value. No other key appears. |
| TransformRoute.Transform | apps/client/src/pages/api/transform.ts:19-28 | A body that is not JSON answers 400 and forwards nothing. |
| TransformRoute.ValidationGate | apps/client/src/pages/api/transform.ts:30-36 | A parsed body is forwarded exactly when its page URL is a non-empty string. Otherwise the answer is 400 `page_url is required`. A forwarded request is the normalised body. |
| TransformRoute.PageUrlCases | apps/client/src/pages/api/transform.ts:30-31 | The URL is accepted exactly when the first non-nullish of `page_url` and `pageUrl` is a non-empty string. |
| TransformRoute.EmptySnakeCaseShadowsCamelCase | apps/client/src/pages/api/transform.ts:30-36 | An empty `page_url` is rejected even when `pageUrl` holds a valid URL. |
| TransformRoute.NormalizeFields | apps/client/src/pages/api/transform.ts:38-45 | Each field comes from its snake_case name, else its camelCase name, else the default: no categories, `bn`, 100. Any value present that is not nullish is passed on unchanged (`post_limit: 0` included). The description has no camelCase alias. |
| TransformRoute.Normalize | apps/client/src/pages/api/transform.ts:38-45 | The forwarded request carries the validated URL. Its categories, language and post limit are never nullish. |
| TransformRoute.ForwardOutcomes | apps/client/src/pages/api/transform.ts:47-95 | A non-ok upstream answer gives 502 with its text as details. A rejected call or failed read gives 500 with the error message. Success gives 200 with the catalog's fields and the message `Transformation completed for ` followed by the store's name. |
| TransformRoute.Forward | apps/client/src/pages/api/transform.ts:47-95 | The status is 200, 500 or 502. It is 200 exactly when the service answers ok and the catalog read succeeds, and 502 exactly when the service answers not ok. Only a 200 carries the success body. |
| TransformRoute.SerialisedDefaults | apps/client/src/pages/api/transform.ts:38-51 | The serialised request of a normalised body always carries `page_url`, `custom_categories`, `language` and `post_limit`. |
| TransformRoute.StoreNameCases | apps/client/src/pages/api/transform.ts:73 | The message names the store's string display name, or `store` when there is no store or no display name. |

## Left out

- The Express and Astro wiring is not modelled: CORS, JSON middleware, logging, `listen`, the `/healthz`, `/catalog`, `/store` and `/categories` routes, and response headers.
- `readDb` and file persistence are inputs. The catalog read is an `Option` in `ProductsApi` and a `DbRead` in `TransformRoute`.
- The upstream `fetch` to the transform service is the function parameter `upstream`. `MCP_URL` is not modelled.
- The orchestrator (apps/mcp/src/index.ts), the data manager and the catalog aggregator are not part of this model.
- `console.log` lines are not modelled. The `language` argument of `analyzeCategories` only reaches a log line, so it is dropped.
- `Date.now()` is the parameter `now`, and timestamps are milliseconds instead of ISO text. The `RangeError` that `toISOString` throws for out-of-range dates is not modelled.
- `toLowerCase` is modelled only for ASCII letters. The non-ASCII letters in the data, Bengali and an emoji, have no case.
- `normalize('NFKD')` is modelled only for the five Bengali code points that decompose: U+09CB, U+09CC, U+09DC, U+09DD and U+09DF. There is no canonical reordering and no other script.
- `[\p{L}\p{N}_-]` in hashtags is modelled as ASCII letters and digits, `_`, `-`, and the letters and digits of the Bengali block. An astral-plane letter, which is a surrogate pair in UTF-16, ends a tag.
- Categorizer.Confidence: the score is exact decimal arithmetic, not IEEE doubles. With three or more matches the source computes `0.6 + 0.3` as 0.8999999999999999, and the model gives 0.9.
- ProductGenerator.ExtractPrice: the amount is an exact decimal. `parseFloat`'s rounding to a double is not modelled.
- ProductsApi.ParseInt: digit runs are read as exact integers. `parseInt` loses precision above 2^53, and such a limit caps nothing anyway.
- JSON numbers in the transform body are integers. JSON arrays are arrays of strings. Property names are Dafny strings.
- Query parameters are a single string, a repeated key (joined with commas by `String`), or a nested object (printed as `[object Object]`). The inner structure of nested objects is not modelled.
- A JSON `null` body makes the route throw before it builds a response. The model answers 500 with an `Unhandled` body for it, standing for the framework's error page.
- An explicit `null` for `defaultCurrency` or for the option objects is not modelled. Only absent options take their defaults.
- `raw_metadata` values are null, booleans, integers, strings and string lists. A `keywords` entry that is present, not null, and not a string list throws `TypeError`, which is modelled as an error. An array holding non-strings is not modelled.
- Categorizer.DetermineCategory: the pipeline uses the corrected keyword comparison (`MatchedKeywords`), not the one the source writes (`MatchedKeywordsAsWritten`, see Findings). `AsWrittenAgrees` shows the two agree on every keyword free of the five decomposable code units, so the model differs from the source only on those keywords.
- PageReader.PostCount: `postLimit` is an optional integer. A `null`, `NaN` or fractional limit, and the way `Math.min` and the array-length conversion treat it, are not modelled.
- TransformRoute.Forward: a rejected `response.text()` on a failing service answer would give 500 and is not modelled. The upstream result carries the text directly.
- TransformRoute.Forward: a rejection that is not an `Error` gives the details `Unknown error`. The model's rejections always carry a message, so that branch is not modelled.

## Findings

| source | as written | input that shows it | evidently intended | confidence | as-written member | corrected member |
|---|---|---|---|---|---|---|
| apps/mcp/src/category_analyzer.ts:76 | The post text is lower-cased and NFKD-normalised (lines 69-71), but the keyword is only lower-cased before `includes`. The precomposed U+09DC in শাড়ি never survives NFKD, so it can never be found. | A post whose text is শাড়ি (U+09B6 U+09BE U+09DC U+09BF) matches no fashion keyword. | The keyword is normalised the same way as the text, so a post that contains it matches it. | not executed | Categorizer.SareeMissedAsWritten | Categorizer.VerbatimKeywordMatched |
| apps/mcp/src/category_analyzer.ts:76 | The same comparison misses পোশাক, whose U+09CB decomposes to U+09C7 U+09BE. | A post whose text is পোশাক matches no fashion keyword. | The keyword is normalised the same way as the text, so a post that contains it matches it. | not executed | Categorizer.ClothingMissedAsWritten | Categorizer.VerbatimKeywordMatched |
| apps/mcp/src/category_analyzer.ts:76 | The same comparison misses ঘর সাজানো, whose final U+09CB decomposes. | A post whose text is ঘর সাজানো matches no home keyword. | The keyword is normalised the same way as the text, so a post that contains it matches it. | not executed | Categorizer.HomeDecorMissedAsWritten | Categorizer.VerbatimKeywordMatched |
