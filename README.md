# newilano storefront — a Dafny model of the catalog logic

This project models the in-memory list and string processing of the newilano sneaker
storefront and proves properties of it. Six parts of the code are covered.

- **Catalog data** (`lib/data.ts`):
  - the mapper from stored product documents to view records, with its defaulting rules;
  - the currency suffix of the price label;
  - order-preserving slug resolution;
  - the campaign list and its limit;
  - the hero slides, with the built-in slides as fallback.
- **Rankings** (`lib/data.ts`):
  - most-favorited, trending and recommended products;
  - each one's aggregation pipeline, written as functions over in-memory collections;
  - each one's accumulation loop (a result list plus a `seen` id set, then a backfill from a fallback list), written as methods with loop invariants.
- **Catalog page filter** (`app/vitrin/VitrinClient.tsx`):
  - `applyFilter`;
  - `parseFilter` over the query parameters;
  - the query string `setUrl` writes.
- **Filter bar** (`components/FilterBar.tsx`):
  - the sorted, distinct category and brand facets;
  - the filter state, updated by a spread merge and re-synchronised from the parent.
- **Admin product form** (`app/admin/ProductForm.tsx`):
  - `parseList` and `normalizeProductUrl`;
  - the checks `handleSubmit` makes before it sends a product.
- **Product page and banner** (`components/ProductDetail.tsx`, `components/HeroSection.tsx`):
  - the de-duplicated gallery, the first image shown and the product link;
  - the banner's slide index, advanced by the timer and set by the dots.

Modules:
- `Wrappers`: `Option` and `Result`.
- `Seqs`: filter, slice, `indexOf`, de-duplication and stable sorting.
- `Text`: `trim`, `toLowerCase`, `includes`, `split`/`join`, the `^https?://` test and string order.
- `Catalog`, `Ranking`, `Vitrin`, `FilterBar`, `ProductForm`, `ProductDetail` and `HeroSection` follow the source files.

The document store is a record of in-memory sequences (`Ranking.Store`). The pipeline stages
(`$match`, `$unwind`, `$group`, `$sort`, `$limit`, `$lookup`) are functions over those sequences.
Runtime calls are fields of a `Catalog.Runtime` value that the caller supplies:
- the clock;
- `Number(...)`;
- `toLocaleString('tr-TR')`;
- `toISOString`.

Two behaviours of the code are worth knowing.
- **Backfill can fall short of `limit`.**
  - When the primary ranking returns fewer than `limit` products, the code asks the fallback query for only `limit - mapped.length` more (lib/data.ts:249, lib/data.ts:302).
  - Those fallback products can be ones the primary ranking already returned, and they are then skipped.
  - So the result can be shorter than `limit` although more products exist. `Ranking.BackfillCanFallShort` exhibits such a case.
- **The tag is ignored.** The filter carries a tag, but `applyFilter` never consults it (`Vitrin.ApplyFilterIgnoresTag`).

## Model

| member | source | states |
|---|---|---|
| Catalog.CurrencySymbol | lib/data.ts:67 | the symbol is `TL` exactly when the currency is `TRY` (or already `TL`); every other currency is its own symbol |
| Catalog.PriceLabelRoundTrip | lib/data.ts:67-68 | the label splits at its first space into the formatted number and the currency symbol, so exactly one space separates them; a `TRY` price ends in " TL" |
| Catalog.ProductUrlOf | lib/data.ts:87 | the link is set exactly when the stored field is a non-blank string, and is then its trimmed, non-empty value |
| Catalog.MapProduct | lib/data.ts:71-95 | the mapper copies id, slug, brand name, name, category, image, tag and description; `createdAt` defaults to the clock's current time |
| Catalog.MapProductFields | lib/data.ts:72-93 | brand id defaults to ""; currency defaults to `TRY` when not a string; the label is `formatPrice` of value and currency; a numeric price is kept and a missing one is 0; the link follows `ProductUrlOf`; each list field is the stored array or [] |
| Catalog.MapProductDefaults | lib/data.ts:72-92 | a document without price, currency, link or list fields maps to price 0, currency `TRY`, no link, empty lists and a label ending in " TL" |
| Catalog.MapProductRoundTrip | lib/data.ts:71-95 | storing a well-formed view record and mapping it back gives the same record |
| Catalog.MapProductWellFormed | lib/data.ts:71-95 | every mapped record is well formed (trimmed non-blank link, label consistent with value and currency) |
| Catalog.MapProducts | lib/data.ts:144 | `docs.map(mapProduct)` keeps length and position |
| Catalog.FindBySlug | lib/data.ts:345-348 | `findOne({ slug })` finds nothing exactly when no document has the slug, and otherwise the first document with it |
| Catalog.SlugIndex | lib/data.ts:184-185 | the slug map's keys are exactly the slugs of the found documents; each slug maps to the last document carrying it, as later `Map` entries replace earlier ones |
| Catalog.ResolveSlugsOrder | lib/data.ts:186 | the resolved products carry exactly the requested slugs that have a product, in request order |
| Catalog.ProductsBySlugsOrder | lib/data.ts:181-187 | `getProductsBySlugs` returns the products in the order of the input slugs, drops unknown slugs, and gives [] for no slugs |
| Catalog.ResolveSlugsSources | lib/data.ts:185-186 | every resolved product is the mapped document of a requested slug |
| Catalog.MapCampaign | lib/data.ts:116-126 | the campaign keeps id, title, description, image and the optional call to action unchanged; it has a date exactly when the document has one, and that date is the ISO rendering of the stored time |
| Catalog.GetCampaigns | lib/data.ts:147-152 | campaigns newest first; a numeric limit keeps the first `limit` (all of them when there are fewer), no limit keeps all |
| Catalog.CampaignsNewestFirstOrdered | lib/data.ts:149 | the campaign order is sorted by descending creation time and is a permutation of the documents |
| Catalog.GetHeroSlides | lib/data.ts:165-172 | no stored slides give the built-in slides when defaults are asked for and [] otherwise; stored slides are mapped in display order |
| Catalog.SlidesInOrderOrdered | lib/data.ts:167 | slides are sorted by `order` ascending, then newest first, and are a permutation of the documents |
| Ranking.GroupCount | lib/data.ts:208-212 | `$group` with `$sum: 1` yields one group per distinct key, counting that key's occurrences (always at least 1); the model lists the groups in first-occurrence order |
| Ranking.TopGroupsBest | lib/data.ts:213-214 | `$sort` by count and `$limit: limit * 2` keep `2·limit` groups (all when fewer), taken from the groups, and every group left out counts no more than each group kept |
| Ranking.MongoLimit | lib/data.ts:355 | `find().limit(0)` returns everything; a positive limit keeps that many leading documents |
| Ranking.Lookup | lib/data.ts:215-223 | `$lookup` plus `$unwind` pair each group with exactly the products whose join field equals the group key: every row is such a pair, and every such pair has a row |
| Ranking.RankRowsProperties | lib/data.ts:213-231 | of the rows the top groups join to, the pipeline returns the `limit` best (all when fewer), sorted by count descending and then product creation time descending; every joined row left out ranks no higher than each row returned; each row pairs a catalog product with its group's count |
| Ranking.KeyRowsProperties | lib/data.ts:208-231 | for both pipelines: the kept groups are the most counted, every product matching a kept group is joined, and the rows returned are the best `limit` joined rows in rank order, each counting the occurrences of its join key |
| Ranking.MostFavoritedRowsCounts | lib/data.ts:204-232 | the slugs kept are the `2·limit` most favorited; every catalog product with a kept slug is joined; the rows returned are the best `limit` of those, by favorite count and then newest first, each counting the favorite entries that name its slug |
| Ranking.TrendingRowsCounts | lib/data.ts:264-286 | the product ids kept are the `2·limit` most favorited within the 12-hour window; every catalog product with a kept id is joined; the rows returned are the best `limit` of those, by recent count and then newest first, each counting the window's events that name its id |
| Ranking.TrendingIgnoresOldEvents | lib/data.ts:264-266 | adding an event older than 12 hours anywhere in the event log changes neither the trending rows nor the trending products |
| Ranking.AppendUnseen | lib/data.ts:238-244 | the accumulation keeps what was already collected and appends only items of the input list |
| Ranking.AppendUnseenIds | lib/data.ts:235-256 | after the loop the seen ids are those collected plus those of the input; ids stay distinct; no appended product repeats a collected id |
| Ranking.AppendUnseenKeepsOrder | lib/data.ts:238-256 | the appended products keep their order in the input list |
| Ranking.AppendUnseenPush | lib/data.ts:240-243 | one more item is pushed exactly when its id has not been seen |
| Ranking.Backfill | lib/data.ts:235-259 | the returned list has at most `limit` products and no two share an id |
| Ranking.BackfillStructure | lib/data.ts:238-259 | the primary products come first in their own order; the fallback, asked for `limit - mapped.length` products, is consulted only when fewer than `limit` were collected and contributes only unseen ids, in its order |
| Ranking.BackfillCanFallShort | lib/data.ts:246-257 | when the requested fallback overlaps the primary result, the output is shorter than `limit` although a further product exists |
| Ranking.PushUnseen | lib/data.ts:238-244 | the loop over items computes the accumulation and keeps the seen set equal to the collected ids |
| Ranking.CollectUnseen | lib/data.ts:235-259 | the primary loop, the conditional fallback loop and the final slice compute `Backfill` |
| Ranking.MostFavoritedProducts | lib/data.ts:202-260 | `getMostFavoritedProducts` returns at most `limit` products with distinct ids, as the ranking specification defines them |
| Ranking.TrendingProducts | lib/data.ts:262-313 | `getTrendingProducts` returns at most `limit` products with distinct ids, as the ranking specification defines them |
| Ranking.FillUpTo | lib/data.ts:367-377 | the fallback loop keeps the collected prefix, stops at `limit`, skips the subject's slug and seen ids, and adds only fallback products; when it ends below `limit`, every fallback product other than the subject has its id in the result |
| Ranking.FillUpToInOrder | lib/data.ts:367-377 | the products the fallback loop adds keep their order in the fallback list |
| Ranking.Recommendations | lib/data.ts:343-380 | the recommendations never exceed `limit` |
| Ranking.RecommendationsFor | lib/data.ts:350-379 | for a found product the recommendations never exceed `limit`; their structure is stated by the lemmas below |
| Ranking.MapAll | lib/data.ts:358-365 | the same-brand loop maps every document in order and records every id as seen |
| Ranking.FillFromFallback | lib/data.ts:367-377 | the fallback loop with its `continue` and `break` computes `FillUpTo` and keeps the seen set equal to the collected ids |
| Ranking.ProductRecommendations | lib/data.ts:343-380 | `getProductRecommendations` computes the recommendation specification |
| Ranking.RecommendFor | lib/data.ts:350-379 | the part after the product is found computes the specification for that product |
| Ranking.RecommendationsUnknownSlug | lib/data.ts:345-348 | an unknown slug gives [] |
| Ranking.RecommendationsSameBrandFirst | lib/data.ts:358-379 | the same-brand products come first, cut at `limit`; the rest come from the most-favorited list of `limit + 4`, skip the subject's slug and repeat no same-brand id |
| Ranking.RecommendationsFallbackComplete | lib/data.ts:361-377 | when the same-brand products are fewer than `limit`, the products added after them come from the most-favorited list in its order, and a list that still ends below `limit` holds the id of every most-favorited product other than the subject |
| Ranking.RecommendationsExcludeSubject | lib/data.ts:350-370 | with unique slugs in the catalog, no recommendation has the subject's slug |
| Ranking.SameBrandQueryMembers | lib/data.ts:350-356 | every product the same-brand query returns is a catalog product of the subject's brand other than the subject |
| Ranking.SameBrandQueryNewest | lib/data.ts:350-356 | the same-brand query is sorted newest first, returns `limit` products when more qualify (all when `limit` is 0), and every other product of the brand it leaves out is no newer than each one it returns |
| Ranking.SameBrandQueryDistinct | lib/data.ts:350-356 | with unique ids in the catalog, the same-brand query repeats no id |
| Ranking.RecommendationsDistinct | lib/data.ts:358-376 | with unique ids in the catalog, no two recommendations share an id |
| Vitrin.ApplyFilterExact | app/vitrin/VitrinClient.tsx:32-52 | the result is an ordered subsequence of the input holding exactly the products that pass, each as often as in the input; kept products have the selected category and brand |
| Vitrin.EmptyFilterIsIdentity | app/vitrin/VitrinClient.tsx:33-50 | with no field set (unset or empty) the product list comes back unchanged |
| Vitrin.ApplyFilterIdempotent | app/vitrin/VitrinClient.tsx:32-52 | filtering twice with the same filter equals filtering once |
| Vitrin.ApplyFilterIgnoresTag | app/vitrin/VitrinClient.tsx:32-52 | the filter's tag has no effect on the result |
| Vitrin.SearchIgnoresCase | app/vitrin/VitrinClient.tsx:42-47 | a search term equal to the brand up to letter case keeps the product |
| Vitrin.SearchNikeFindsNike | app/vitrin/VitrinClient.tsx:42-47 | searching "nike" keeps a product of the brand "Nike" |
| Vitrin.Get | app/vitrin/VitrinClient.tsx:12-14 | `get(name)` is missing exactly when no parameter has the name, and otherwise the value of the first parameter with that name |
| Vitrin.Facet | app/vitrin/VitrinClient.tsx:17-18 | a facet is unset exactly when the parameter is missing or empty, and otherwise is the parameter |
| Vitrin.SearchTerm | app/vitrin/VitrinClient.tsx:16 | the search is unset exactly when the parameter is missing or blank, and otherwise is its trimmed, non-empty value |
| Vitrin.ParseFilterNormalizes | app/vitrin/VitrinClient.tsx:11-20 | a parsed filter has no tag, no empty facet and no blank or untrimmed search |
| Vitrin.QueryOfExact | app/vitrin/VitrinClient.tsx:23-26 | the query holds the set fields under their own names and nothing else; it is empty exactly when no field is set |
| Vitrin.QueryRoundTrip | app/vitrin/VitrinClient.tsx:11-26 | parsing the written query gives the filter back up to normalisation; a normalised filter comes back unchanged |
| Vitrin.ParseQueryParse | app/vitrin/VitrinClient.tsx:11-26 | re-parsing the parameters `setUrl` sets for a parsed filter reproduces that filter |
| Vitrin.BuildQuery | app/vitrin/VitrinClient.tsx:23-26 | the conditional `set` calls build the query parameters of the filter |
| Vitrin.Serialize | app/vitrin/VitrinClient.tsx:27 | a non-empty parameter list serialises to a query holding `=`; its structure is stated by `SerializeJoins` and `SerializeSplits` |
| Vitrin.SerializeJoins | app/vitrin/VitrinClient.tsx:27 | the query is the encoded `name=value` pieces, in parameter order, joined by `&` |
| Vitrin.SerializeSplits | app/vitrin/VitrinClient.tsx:27 | when the encoding escapes `&`, splitting the query at `&` gives one piece per parameter, in order, and a piece whose parts hold no `=` splits into the encoded name and value |
| Vitrin.NextUrlBare | app/vitrin/VitrinClient.tsx:27-28 | the URL is exactly `/vitrin` when no field is set, and carries a query otherwise |
| Vitrin.SetUrl | app/vitrin/VitrinClient.tsx:22-30 | `setUrl` writes `/vitrin` followed by `?` and the serialised query when there is one |
| FilterBar.Merge | components/FilterBar.tsx:40 | a field given in the update overrides the current one, even with `undefined`; an absent field keeps the current value |
| FilterBar.MergeNeutralAndIdempotent | components/FilterBar.tsx:39-43 | an empty update changes nothing, and applying the same update twice equals applying it once |
| FilterBar.MergeCompose | components/FilterBar.tsx:39-43 | two successive updates equal one update combining them, the later winning |
| FilterBar.MergeFullPatch | components/FilterBar.tsx:40 | an update giving every field replaces the filter wholesale |
| FilterBar.ChipClicks | components/FilterBar.tsx:62-94 | "Hepsi" unsets the facet and highlights the all-chip; a chip click selects and highlights exactly that value; the other fields are untouched |
| FilterBar.SortedDistinct | components/FilterBar.tsx:22 | `Array.from(new Set(values)).sort()` has no repeats, is sorted and holds exactly the values |
| FilterBar.CategoriesExact | components/FilterBar.tsx:21-24 | the category facet is distinct, sorted, and holds exactly the categories of the products |
| FilterBar.BrandsExact | components/FilterBar.tsx:25-28 | the brand facet is distinct, sorted, and holds exactly the brands of the products |
| FilterBar.SortedDistinctUnique | components/FilterBar.tsx:21-28 | two distinct sorted lists with the same members are equal |
| FilterBar.FacetsIgnoreOrder | components/FilterBar.tsx:21-28 | the facets do not depend on the order of the product list |
| FilterBar.FilterBarState.constructor | components/FilterBar.tsx:29 | the state starts as the initial filter, or `{}` without one |
| FilterBar.FilterBarState.UpdateFilter | components/FilterBar.tsx:39-43 | the state becomes the merge of the old state and the update, and the same value is emitted |
| FilterBar.FilterBarState.Sync | components/FilterBar.tsx:31-37 | a new initial filter replaces the state; its absence resets it to `{}` |
| FilterBar.ClickThenClear | components/FilterBar.tsx:65-74 | a category click followed by "Hepsi" leaves the old state with the category unset |
| ProductForm.TrimAll | app/admin/ProductForm.tsx:31 | each piece is trimmed in place |
| ProductForm.ParseListShape | app/admin/ProductForm.tsx:27-33 | missing or empty input gives []; items are non-empty, trimmed and comma-free; there are at most commas + 1 items |
| ProductForm.ParseListJoinRoundTrip | app/admin/ProductForm.tsx:64-66 | a stored list shown joined with ", " parses back to itself when its items are non-empty, trimmed and comma-free |
| ProductForm.SplitJoined | app/admin/ProductForm.tsx:64-66 | splitting a ", "-joined list at commas gives the first item and then each later item behind one space |
| ProductForm.NormalizeProductUrlCases | app/admin/ProductForm.tsx:35-42 | blank input gives ""; an http(s) link in any case or a root-relative path is returned trimmed; anything else becomes `https://` + trimmed; a non-empty result is a trimmed http(s) link or path |
| ProductForm.NormalizeProductUrlIdempotent | app/admin/ProductForm.tsx:187-191 | normalising a normalised link changes nothing |
| ProductForm.ReplaceFirst | app/admin/ProductForm.tsx:181 | `replace(',', '.')` changes only the first comma |
| ProductForm.Rejection | app/admin/ProductForm.tsx:193-206 | the required-fields message comes first, then the price message for a non-finite or non-positive price, then a pending gallery error; no message exactly when all checks pass |
| ProductForm.SubmitPayload | app/admin/ProductForm.tsx:178-229 | the link field becomes the normalised link; the submission fails exactly when a check rejects it, with that message; an accepted payload carries trimmed fields, the parsed price and lists, and the normalised link |
| ProductForm.ResubmitKeepsLink | app/admin/ProductForm.tsx:187-191 | submitting again after the write-back leaves the link field as it is |
| ProductDetail.KeepFirstOccurrencesIsDistinct | components/ProductDetail.tsx:19 | the `indexOf` filter keeps exactly the first occurrence of each value |
| ProductDetail.GalleryImagesProperties | components/ProductDetail.tsx:17-20 | the gallery starts with the main image, has no repeats, holds exactly the values of `[image, ...gallery]`, and keeps their first-occurrence order |
| ProductDetail.InitialActiveImageIsMain | components/ProductDetail.tsx:22-26 | the image shown first is the main image |
| ProductDetail.PagePathIsInternal | components/ProductDetail.tsx:30-31 | the product page path is never taken for an external link |
| ProductDetail.DetailHrefCases | components/ProductDetail.tsx:30-31 | the button goes to the trimmed link when it is non-blank and to `/vitrin/<slug>` otherwise; it is external exactly when that trimmed link starts with http:// or https:// in any case |
| ProductDetail.MappedDetailHref | components/ProductDetail.tsx:30 | for a mapped record the button goes to its stored link, or to the product page when there is none |
| HeroSection.ActiveSlideOf | components/HeroSection.tsx:15-16 | there is no active slide exactly when there are no slides; otherwise it is one of the slides, and the slide at the index when the index is in range |
| HeroSection.NextIndex | components/HeroSection.tsx:24 | a tick always gives a valid position, below the slide count |
| HeroSection.NextIndexWraps | components/HeroSection.tsx:24 | from a valid position a tick moves to the next slide, and from the last slide back to the first |
| HeroSection.TicksFormula | components/HeroSection.tsx:23-25 | up to one round of ticks advances a valid index by the number of ticks, wrapping past the end |
| HeroSection.TicksFullRound | components/HeroSection.tsx:23-25 | as many ticks as there are slides return to the starting slide |
| HeroSection.TicksVisitAll | components/HeroSection.tsx:23-25 | every slide is shown within one round of ticks |
| HeroSection.ActiveDotShowsSlide | components/HeroSection.tsx:61 | the highlighted dot is the dot of the slide on show |
| HeroSection.NoActiveDotPastEnd | components/HeroSection.tsx:57-63 | an index left past the end by a shorter slide list still shows a slide, but highlights no dot |
| HeroSection.Carousel.constructor | components/HeroSection.tsx:14 | the banner starts on the first slide |
| HeroSection.Carousel.Tick | components/HeroSection.tsx:24 | a tick keeps the slides and sets the index to `(prev + 1) % n`, which shows a slide in range |
| HeroSection.Carousel.Select | components/HeroSection.tsx:63 | a dot click sets the index to that dot and shows its slide |
| HeroSection.Carousel.SetSlides | components/HeroSection.tsx:13-16 | new slides keep the stored index, which then selects modulo the new count |
| Seqs.Filter | app/vitrin/VitrinClient.tsx:33 | `Array.prototype.filter` returns a subsequence of its input in which every element passes, keeping every occurrence of a passing value and none of a failing one |
| Seqs.Slice | lib/data.ts:259 | `slice(0, end)` is the prefix of length `end` when it fits, the whole list otherwise |
| Seqs.IndexOf | components/ProductDetail.tsx:19 | `indexOf` is -1 exactly for a missing value, and otherwise the first position holding it |
| Seqs.Distinct | components/FilterBar.tsx:22 | de-duplication has no repeats and keeps exactly the values of its input |
| Seqs.DistinctKeepsFirstOccurrences | components/ProductDetail.tsx:19 | de-duplication is a subsequence that starts with the first element and keeps first-occurrence order |
| Seqs.SortBy | lib/data.ts:149 | the store's sort returns a permutation of its input |
| Seqs.SortBySorted | lib/data.ts:149 | the stable sort under a total preorder yields a sorted list |
| Seqs.TopK | lib/data.ts:213-214 | a sort followed by a limit of `k` keeps `k` elements (all when fewer), sorted and taken from the input, and every element left out comes no earlier than each one kept |
| Text.Trim | app/admin/ProductForm.tsx:36 | `trim` returns a stretch of its input with only whitespace before and after it; it is empty exactly for blank input and otherwise neither starts nor ends with whitespace |
| Text.TrimIdempotent | app/admin/ProductForm.tsx:36 | trimming twice equals trimming once |
| Text.Lower | app/vitrin/VitrinClient.tsx:43-44 | `toLowerCase` keeps length and lowers each code point on its own |
| Text.Split | app/admin/ProductForm.tsx:30 | `split(',')` yields at least one piece and no piece holds the separator |
| Text.SplitCount | app/admin/ProductForm.tsx:30 | there is one piece more than there are separators |
| Text.StrLeIsTotalPreorder | components/FilterBar.tsx:22 | the default string order of `sort` is total and transitive |

## Left out

- Ranking.GroupCount: the store gives `$group` output no order; the model fixes first-occurrence order, one of the store's possible outcomes. That order decides which tied groups survive `$limit: limit * 2`, so `MostFavoritedProducts` and `TrendingProducts` equal the rankings for that outcome; the properties in `TopGroupsBest`, `RankRowsProperties` and `KeyRowsProperties` do not mention the order of tied groups.
- Database access (connection, `find`, `aggregate`, `lean`, ObjectId conversion) is not modelled: the store is in-memory sequences and the pipeline stages are functions.
- The clock, `Number(...)`, `toLocaleString('tr-TR')` and `toISOString` are parameters (`Catalog.Runtime`), so the formatted number, the rounding test in `formatPrice` and number parsing are not modelled; only the currency suffix is.
- `Number(price.replace(',', '.'))` and `Number.isFinite` in the form are a `toNumber` parameter that returns no number for a non-finite result.
- `searchProducts` (lib/data.ts:315-341) hands user input to the store's regular-expression engine, which is not part of this model.
- `getBrands`, `getAllProducts`, `getProductBySlug`, `getProductById` and `getNewProducts` are plain queries followed by `mapProduct`; only `mapProduct` and the queries the rankings use are modelled.
- Image uploads, `fetch`, router and history calls, the `setInterval` wiring of the banner, rendering, styling and authentication are left out; `setUrl` returns the URL instead of writing history.
- URL percent-encoding in `URLSearchParams.toString()` is an `encode` parameter.
- `Text.Lower` covers the Basic Latin and Latin-1 capitals and the Turkish G and S with breve and cedilla; other case mappings (such as dotted capital I, which lowers to two code points) are not modelled.
- `Text.StrLe` orders strings by code point; JavaScript's `sort` compares UTF-16 code units, which differs only for characters outside the Basic Multilingual Plane.
- Sorting in the store leaves the order of ties unspecified; the model sorts stably, so ties keep their stored order.
- Ranking.MostFavoritedProducts: requires `limit > 0`, because the store rejects an aggregation `$limit` of 0; every caller passes a positive limit.
- Ranking.TrendingProducts: requires `limit > 0`, for the same reason.
- Ranking.Backfill: does not promise `limit` products when enough exist, because the code requests only `limit - mapped.length` fallback products (see `Ranking.BackfillCanFallShort`).
- Ranking.Recommendations: its own contract states only the length bound; absence of the subject, distinct ids and same-brand-first are separate lemmas, which need unique slugs or ids in the catalog.
- Ranking.RecommendationsFor: its own contract states only the length bound; same-brand-first, the fallback's order and completeness, and the absence of the subject are the lemmas `RecommendationsSameBrandFirst`, `RecommendationsFallbackComplete` and `RecommendationsExcludeSubject`.
- Vitrin.ParseQueryParse: the round trip is stated on the parameter list; percent-decoding the written URL back into parameters is not modelled.
- The three ranking loops are factored into helper methods (`PushUnseen`, `MapAll`, `FillFromFallback`); React state updates are modelled as assignments to fields.
- Timestamps are whole milliseconds; a missing timestamp sorts below every present one.
