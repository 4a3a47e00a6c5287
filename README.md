# Portfolio site core, modelled in Dafny

This project models the deterministic logic of a bilingual (Chinese and English) personal portfolio site. The site is built with Astro and React, and it also has a Next.js variant and a single-page variant. Each part of the site is a Dafny module:

- **Feed ingestion** (`scripts/fetch-rss.bun.js`). A build script reads the RSS/Atom feeds configured per language and turns each `<entry>`/`<item>` block into a record. It then keeps the first record for each URL, sorts the records newest first with a stable sort, and cuts the list to the configured limit. Finally it decorates each post with an id, an image seed and fixed overlay classes.
  - `FeedText` models the regular-expression extraction (stripHtml, getTagContent, getLinkHref). Each regex is written out as an explicit scan, with the leftmost, greedy and lazy choices that JavaScript makes.
  - `FeedParse` models getCategories and parseFeed: the `regex.exec` loops, proved against functions that describe the whole scan.
  - `FeedBuild` models the per-language block of the main loop.
  - `StableSort` holds the stable descending insertion sort. It is an in-place array method, specified by a function on sequences.
- **URLs, locales and routing.**
  - `UrlUtils` models `src/lib/urlUtils.js`.
  - `I18n` models `src/lib/i18n.ts`.
  - `Middleware` models the pass-through or 302 decision of `src/middleware.ts`.
  - `AstroNav` and `UiNav` model the two primary navigations.
  - `LocaleCycle` models the "next key, wrapping" step that both language toggles share.
  - `LanguageSwitcher` models the Astro switch button.
  - `LanguageContext` models the Next.js language state. It is a class whose `language` and stored value change on each toggle.
- **Content merging.** `SiteContent` (`src/lib/content.js`) and `AppContent` (`app.js`) merge remote content with built-in defaults. Both work over a small `Json` datatype that has JavaScript's truthiness, `??`, optional property access and object spread.
- **Page derivations.**
  - `Home` models the homepage post list: RSS and static posts marked by origin, stably sorted, then cut.
  - `Cards` models what a post card or website card derives from its item.
  - `Footer` models the copyright template, the social links and the registration-notice visibility.

Values the code reads from its host are parameters of the model:

- the fetched text of each feed, or its failure;
- the MD5 hash;
- date parsing and `toISOString`;
- the current year;
- the locale table of `src/locales/config`.

## Model

| member | source | states |
|---|---|---|
| Json.Get | src/lib/content.js:131 | Optional access reads an object's own field: the field's value when the key is present, `undefined` on a missing key or on a non-object. |
| Json.Coalesce | src/lib/content.js:131-132 | `a ?? b` is `b` exactly when `a` is null or undefined; `''` and `0` are kept. |
| Json.Or | src/components/astro/FeaturedPostItem.jsx:35 | `a \|\| b` is `a` when `a` is truthy, else `b`. |
| Json.OwnEntries | src/lib/content.js:113-116 | The entries a spread copies: an object's fields, and nothing for null, undefined, booleans or numbers. |
| Json.Spread | src/lib/content.js:113-116 | `{...fallback, ...section}` has the keys of both; a section key wins; every other fallback key keeps its value. |
| Text.Trim | scripts/fetch-rss.bun.js:102 | `trim()` returns the contiguous middle of the input with no whitespace at either end; everything cut from the front and the back is whitespace. |
| Text.TrimFirst | src/lib/urlUtils.js:11 | Trimming keeps a first character that is not whitespace. |
| Text.TrimPlain | src/lib/urlUtils.js:11 | Text without surrounding whitespace is unchanged by trimming. |
| Text.ReplaceFirst | src/components/astro/Footer.jsx:96-98 | A string-pattern `replace` changes only the first occurrence, and leaves the text alone when there is none. |
| Text.BeforeChar | src/lib/urlUtils.js:26 | The first piece of `split('#')` has no `#` and is a prefix of the input, ending at the first `#`. |
| Text.SecondPiece | src/lib/urlUtils.js:36 | The second piece of `split('#')` (default `''` when there is no `#`) has no `#`; it starts right after the first `#` and ends at the second `#` or at the end. |
| Text.Split | src/lib/i18n.ts:100 | `split('/')` has at least one piece; no piece contains `/`; the first piece is the text before the first `/`; joining the pieces with `/` gives the input back. |
| Text.NonEmptyAppend | src/lib/i18n.ts:100 | `filter(Boolean)` distributes over concatenation, so the kept segments stay in order. |
| Text.NonEmpty | src/lib/i18n.ts:100 | `filter(Boolean)` keeps exactly the non-empty strings of the input, is never longer, keeps a non-empty head first and skips an empty one. |
| Text.FirstSegment | src/lib/i18n.ts:100-101 | The first path segment of `/seg` or `/seg/…` is `seg`. |
| Text.Decimal | src/components/astro/Footer.jsx:98 | `toString()` of a natural number is a non-empty string of decimal digits, of length 1 exactly for numbers below 10 (its value is stated by DecimalValue). |
| Text.DecimalInjective | scripts/fetch-rss.bun.js:302 | Different numbers have different decimal numerals. |
| Text.DecimalValue | src/components/astro/Footer.jsx:98 | The numeral denotes the number, and starts with `0` only for 0. |
| StableSort.SortDescSorted | scripts/fetch-rss.bun.js:289-293 | The sorted sequence has non-increasing keys. |
| StableSort.SortDescPermutation | scripts/fetch-rss.bun.js:289-293 | Sorting is a permutation: the multiset of elements is unchanged. |
| StableSort.SortDescStable | scripts/fetch-rss.bun.js:289-293 | Sorting is stable: for every key, the elements with that key keep their order. |
| StableSort.InsertInPlace | scripts/fetch-rss.bun.js:289-293 | One insertion step on the array inserts `a[i]` into the sorted prefix and leaves the rest untouched. |
| StableSort.SortInPlace | scripts/fetch-rss.bun.js:289-293 | The in-place sort leaves exactly the stably sorted sequence in the array. |
| StableSort.Insert | scripts/fetch-rss.bun.js:289-293 | Inserting adds one element. |
| StableSort.InsertPermutation | scripts/fetch-rss.bun.js:289-293 | Inserting adds exactly the new element to the multiset. |
| StableSort.InsertSorted | scripts/fetch-rss.bun.js:289-293 | Inserting into a list with non-increasing keys keeps the keys non-increasing. |
| StableSort.InsertStable | scripts/fetch-rss.bun.js:289-293 | Inserting into a list with non-increasing keys puts the new element after every element with its key. |
| StableSort.InsertAt | scripts/fetch-rss.bun.js:289-293 | Inserting places the new element at the first position whose key is smaller, after all elements with keys at least its own. |
| StableSort.SortDesc | scripts/fetch-rss.bun.js:289-293 | The stable sort keeps the length; its order, permutation and stability are stated by SortDescSorted, SortDescPermutation and SortDescStable. |
| FeedText.CdataClosing | scripts/fetch-rss.bun.js:100 | A CDATA section that opens at the start ends at the first `]]>` after the opener. |
| FeedText.UnwrapCdata | scripts/fetch-rss.bun.js:100 | The CDATA replacement never lengthens the text and adds no characters. |
| FeedText.UnwrapCdataSection | scripts/fetch-rss.bun.js:100 | A section `<![CDATA[x]]>` after `<`-free text is replaced by its content x, and the rest is processed on. |
| FeedText.UnwrapCdataNoSection | scripts/fetch-rss.bun.js:100 | Text without a CDATA opener is left unchanged by the CDATA replacement. |
| FeedText.TagEnd | scripts/fetch-rss.bun.js:101 | A `<[^>]+>` run at the start ends at the first `>`, which must not follow `<` directly. |
| FeedText.RemoveTags | scripts/fetch-rss.bun.js:101 | Deleting tag runs never lengthens the text and adds no characters. |
| FeedText.RemoveTagsNoTagRun | scripts/fetch-rss.bun.js:101 | After the deletion, no `<` + non-`>` characters + `>` run is left. |
| FeedText.SubstringNoTagRun | scripts/fetch-rss.bun.js:101-102 | A substring of text without tag runs has none either. |
| FeedText.TrimNoTagRun | scripts/fetch-rss.bun.js:101-102 | Trimming cannot create a tag run. |
| FeedText.RemoveTagsNoOpen | scripts/fetch-rss.bun.js:101 | Text without `<` is left unchanged by the deletion. |
| FeedText.RemoveTagsAround | scripts/fetch-rss.bun.js:101 | A tag `<t>` after `<`-free text is deleted and the text before it is kept. |
| FeedText.StripHtml | scripts/fetch-rss.bun.js:97-103 | stripHtml returns `''` for empty input, and otherwise the trimmed text after unwrapping CDATA sections and deleting tag runs; the result has no tag run and no surrounding whitespace. |
| FeedText.StripHtmlPlain | scripts/fetch-rss.bun.js:97-103 | Text without `<` and without surrounding whitespace, such as 'Untitled', passes stripHtml unchanged. |
| FeedText.StripHtmlTagged | scripts/fetch-rss.bun.js:97-103 | `a<t>b` with `<`-free a and b and a non-CDATA tag strips to trim(a + b). |
| FeedText.ElementAt | scripts/fetch-rss.bun.js:109 | An element match at `i` opens with `<tag` (any case), followed by `>` or whitespace. The opening tag ends at its first `>`. The body ends at the first closing tag after that. |
| FeedText.ElementAtOneOf | scripts/fetch-rss.bun.js:166 | The alternation `(entry\|item)` matches inside the text, starting at `i`. |
| FeedText.FindElement | scripts/fetch-rss.bun.js:109-110 | The match found is the leftmost one: no earlier position matches; when none is found, no position matches. |
| FeedText.GetTagContent | scripts/fetch-rss.bun.js:108-113 | getTagContent is null exactly when no element matches; otherwise it is the trimmed, CDATA-unwrapped body of the leftmost matching element. |
| FeedText.GetTagContentFirst | scripts/fetch-rss.bun.js:108-113 | In `a<tag>body</tag>rest` with `<`-free a and body, getTagContent is the trimmed, CDATA-unwrapped body. |
| FeedText.LongerNameNeverMatches | scripts/fetch-rss.bun.js:109 | A longer tag name such as `<titles>` never matches `title`. |
| FeedText.OrElse | scripts/fetch-rss.bun.js:172-183 | `x \|\| fallback` on a getTagContent result: null and `''` fall back, anything else is kept. |
| FeedText.QuoteFrom | scripts/fetch-rss.bun.js:120 | The value `[^"']+` runs to the first quote of either kind. |
| FeedText.AttrValueAt | scripts/fetch-rss.bun.js:120 | An attribute match at `h` starts with `href=` (any case) and has a non-empty quote-free value. The match ends at a `>`. |
| FeedText.LastAttr | scripts/fetch-rss.bun.js:120 | The greedy `[^>]*` backs off to the last position in range where the rest of the pattern matches. |
| FeedText.LastAttrIsLast | scripts/fetch-rss.bun.js:120 | No later position of the range matches. |
| FeedText.LastAttrNone | scripts/fetch-rss.bun.js:120 | When nothing is found, no position of the range matches. |
| FeedText.AttrTagAt | scripts/fetch-rss.bun.js:120 | An attribute match at `i` opens with `<link`, and its `href=` lies before the tag's first `>`. |
| FeedText.FindAttrTag | scripts/fetch-rss.bun.js:120 | The match returned is the one at the leftmost matching position (no earlier position matches); its value is non-empty; when none is found, no position matches. |
| FeedText.GetLinkHref | scripts/fetch-rss.bun.js:118-126 | getLinkHref gives the quoted href of the first matching `<link …>`, else the non-empty `<link>` text, else `#`. It is never empty. |
| FeedParse.Push | scripts/fetch-rss.bun.js:138-148 | A value is appended only when it is non-empty and not yet present. |
| FeedParse.AddAllFacts | scripts/fetch-rss.bun.js:137-150 | Pushing a list keeps the accumulator as a prefix. Later positions hold new non-empty values of the list. Every non-empty value ends up present. No duplicates appear. |
| FeedParse.Terms | scripts/fetch-rss.bun.js:135-141 | The `term` values scanned never include `''`. |
| FeedParse.CategoriesShape | scripts/fetch-rss.bun.js:131-153 | Categories are distinct and non-empty. Distinct term values come first, in document order; text values that are not terms follow. |
| FeedParse.Categories | scripts/fetch-rss.bun.js:131-153 | The categories are distinct and non-empty, and begin with the distinct term values. |
| FeedParse.GetCategories | scripts/fetch-rss.bun.js:131-153 | The two exec loops compute exactly the described category list. |
| FeedParse.TagText | scripts/fetch-rss.bun.js:172-183 | A tag counts as present exactly when getTagContent is non-null and non-empty. |
| FeedParse.Title | scripts/fetch-rss.bun.js:172 | The title is the stripped first `<title>` when it is non-empty, else 'Untitled'; it has no tag run. |
| FeedParse.Description | scripts/fetch-rss.bun.js:174-178 | The description is the first non-empty of summary, description and content, stripped; else `''`. |
| FeedParse.PubDate | scripts/fetch-rss.bun.js:179-183 | pubDate is the first non-empty of updated, pubDate and published, else null; never `''`. |
| FeedParse.MakeEntry | scripts/fetch-rss.bun.js:170-192 | A record holds these fields, and its url (getLinkHref) is never empty. |
| FeedParse.Entries | scripts/fetch-rss.bun.js:166-169 | The global scan yields one record per leftmost non-overlapping block, in document order, and none when no block matches. |
| FeedParse.EntriesBound | scripts/fetch-rss.bun.js:162-196 | There are no more records than characters. Every record has a non-empty url and distinct categories. |
| FeedParse.ParseFeed | scripts/fetch-rss.bun.js:162-196 | The exec loop returns exactly the records of the scan. |
| FeedBuild.FeedsOf | scripts/fetch-rss.bun.js:249 | `config?.feeds \|\| []`. |
| FeedBuild.LimitOf | scripts/fetch-rss.bun.js:250 | `config?.limit \|\| 4`: a missing or zero limit means 4, and the limit is never 0. |
| FeedBuild.FailedFeedSkipped | scripts/fetch-rss.bun.js:265-278 | A feed whose fetch fails contributes nothing, and the remaining feeds are still collected. |
| FeedBuild.CollectPosts | scripts/fetch-rss.bun.js:263-278 | The feed loop concatenates each feed's records, in configuration order. |
| FeedBuild.UrlsSnoc | scripts/fetch-rss.bun.js:283-284 | A record's URL is in the `seen` set of the records before it exactly when it is not the first with that URL. |
| FeedBuild.DedupFacts | scripts/fetch-rss.bun.js:281-286 | After deduplication, URLs are pairwise distinct. Every input URL is kept. The record kept for a URL is its first record. |
| FeedBuild.DedupUrls | scripts/fetch-rss.bun.js:281-286 | Deduplication keeps only input records and loses no URL. |
| FeedBuild.Dedup | scripts/fetch-rss.bun.js:281-286 | Deduplication never lengthens the list and keeps only input records. |
| FeedBuild.DedupDistinct | scripts/fetch-rss.bun.js:281-286 | The kept records have pairwise distinct URLs. |
| FeedBuild.DedupFirst | scripts/fetch-rss.bun.js:281-286 | The record kept for a URL is the first record with that URL. |
| FeedBuild.DedupSnoc | scripts/fetch-rss.bun.js:282-285 | The filter keeps the last record exactly when its URL is new. |
| FeedBuild.DedupPrefix | scripts/fetch-rss.bun.js:281-286 | Records are kept in encounter order: deduplicating a prefix gives a prefix of the result. |
| FeedBuild.DedupByUrl | scripts/fetch-rss.bun.js:281-286 | The `seen`-set filter computes exactly the deduplication. |
| FeedBuild.SliceEnd | scripts/fetch-rss.bun.js:296 | `slice(0, limit)` keeps `min(limit, n)` records for a non-negative limit, and counts from the end for a negative one. |
| FeedBuild.DateKey | scripts/fetch-rss.bun.js:289-293 | The sort key is the parsed pubDate, or 0 when pubDate is missing or empty. |
| FeedBuild.SortedPrefixFacts | scripts/fetch-rss.bun.js:289-296 | A cut of the sorted distinct records is sorted, has distinct URLs and holds only input records. The full cut is a permutation. |
| FeedBuild.SelectedFacts | scripts/fetch-rss.bun.js:281-296 | The selection is a prefix of the stably sorted, deduplicated records. It is newest first, with a missing date counted as 0, and has distinct URLs. Its size is the slice size, and it holds all records when the limit covers them. |
| FeedBuild.Selected | scripts/fetch-rss.bun.js:281-296 | The selection is no longer than the collected records, nor than a non-negative limit. |
| FeedBuild.SortedDistinct | scripts/fetch-rss.bun.js:289-293 | Sorting records with distinct URLs puts different records at different positions. |
| FeedBuild.DistinctCountOne | scripts/fetch-rss.bun.js:281-286 | A record occurs at most once in a list with distinct URLs. |
| FeedBuild.SortedCut | scripts/fetch-rss.bun.js:289-296 | Sorting in place and slicing gives the first `SliceEnd` records of the stable sort. |
| FeedBuild.Truncate | scripts/fetch-rss.bun.js:298-299 | A description of up to 200 characters is unchanged; a longer one becomes its first 200 characters + '...'. |
| FeedBuild.Decorate | scripts/fetch-rss.bun.js:296-313 | A post copies url, title and categories and truncates the description. Its id is `rss-<lang>-<index>-<hash(url)>` and its image is seeded with hash(url+title). pubDate is null exactly when absent. Overlay and isRSS are constant. |
| FeedBuild.Decorated | scripts/fetch-rss.bun.js:296-313 | The map decorates each record with its own index. |
| FeedBuild.DashAfterDigits | scripts/fetch-rss.bun.js:302 | In an id, the first `-` after the prefix ends the index numeral. |
| FeedBuild.PostId | scripts/fetch-rss.bun.js:302 | An id starts with `rss-<lang>-`. |
| FeedBuild.PostIdsDistinct | scripts/fetch-rss.bun.js:302 | Equal ids imply equal indices, whatever the hash returns. |
| FeedBuild.DecoratedIdsDistinct | scripts/fetch-rss.bun.js:296-313 | The ids of one language's posts are pairwise distinct. |
| FeedBuild.LanguagePosts | scripts/fetch-rss.bun.js:249-315 | A language with no feeds gets `[]`; otherwise one post per selected record, with distinct ids, each an RSS post with a description of at most 203 characters. |
| FeedBuild.LanguagePostsOf | scripts/fetch-rss.bun.js:263-315 | With feeds configured, the posts are the decorated selection. |
| FeedBuild.BuildLanguagePosts | scripts/fetch-rss.bun.js:246-316 | The per-language block (collect, deduplicate, sort, slice, decorate) computes exactly these posts. |
| FeedBuild.BuildAll | scripts/fetch-rss.bun.js:241-317 | The output has exactly the keys zh and en, each holding that language's posts. |
| UrlUtils.StripHtmlExtension | src/lib/urlUtils.js:5 | Exactly one trailing `.html`, in any case, is removed. |
| UrlUtils.IsExternalHref | src/lib/urlUtils.js:19 | An external href has at least four characters and starts with h, m or t in any case. |
| UrlUtils.IsHashHref | src/lib/urlUtils.js:3 | A hash href contains `#` and is not external. |
| UrlUtils.TrimmedHash | src/lib/urlUtils.js:1-3 | An href whose trimmed form starts with `#` contains `#` and is not external. |
| UrlUtils.DropLeadingSlashes | src/lib/urlUtils.js:7 | Only leading slashes are removed, and all of them. |
| UrlUtils.DropTrailingSlashes | src/lib/urlUtils.js:7 | Only trailing slashes are removed, and all of them. |
| UrlUtils.TrimSlashes | src/lib/urlUtils.js:7 | The result is the input with all leading and then all trailing slashes removed, so it neither starts nor ends with `/`. |
| UrlUtils.TrimSlashesNoSlashes | src/lib/urlUtils.js:7 | Text without surrounding slashes is unchanged. |
| UrlUtils.LowerNoCapitals | src/lib/urlUtils.js:13 | Lower-casing leaves text without capitals unchanged. |
| UrlUtils.NotExternal | src/lib/urlUtils.js:1 | An href whose first letter cannot start `http:`, `https:`, `mailto:` or `tel:` is not external. |
| UrlUtils.EndsWithHtml | src/lib/urlUtils.js:5 | A literal `.html` suffix matches the case-insensitive pattern. |
| UrlUtils.NormalizeSegment | src/lib/urlUtils.js:9-17 | A falsy value gives `''`. Otherwise the value loses one `.html`, is trimmed and loses its surrounding slashes; `''` and `index` in any case give `''`, anything else is kept. The segment never starts or ends with `/`. |
| UrlUtils.PathOf | src/lib/urlUtils.js:28 | `/` for an empty segment, else `/` + segment. |
| UrlUtils.NormalizeContentPath | src/lib/urlUtils.js:21-29 | A falsy href gives `/`; hash and external hrefs are returned unchanged. |
| UrlUtils.ResolveContentHref | src/lib/urlUtils.js:31-40 | A falsy href gives `/`; hash and external hrefs are returned unchanged. |
| UrlUtils.NormalizedPathShape | src/lib/urlUtils.js:26-28 | Every other href becomes a path that starts with `/`, ends with `/` only when it is `/`, and has no `#`. |
| UrlUtils.PathOfShape | src/lib/urlUtils.js:28 | `/` + segment starts with `/` and has no trailing slash unless it is `/`. |
| UrlUtils.NormalizeResolveAgree | src/lib/urlUtils.js:21-40 | The two functions agree on every href without `#`. |
| UrlUtils.ResolveExtendsNormalize | src/lib/urlUtils.js:36-39 | resolveContentHref is the normalised path + `#` + the text between the first and second `#`, only when that text is non-empty. |
| UrlUtils.NormalizePrefixOfResolve | src/lib/urlUtils.js:21-40 | The normalised path is always a prefix of the resolved href. |
| UrlUtils.NormalizeIdempotent | src/lib/urlUtils.js:21-29 | Normalising a normalised path changes nothing when its segment ends in neither `.html` nor whitespace. |
| UrlUtils.SegmentPathFixed | src/lib/urlUtils.js:21-29 | `/seg` for a normalised segment normalises to itself. |
| UrlUtils.PathOfEmpty | src/lib/urlUtils.js:21-29 | `/` normalises to itself. |
| UrlUtils.NormalizeNotIdempotent | src/lib/urlUtils.js:5-29 | When the normalised path still ends in `.html` (as for `a.html.html`), normalising again changes it. |
| UrlUtils.HtmlPathShrinks | src/lib/urlUtils.js:5-29 | A path ending in `.html` gets shorter when normalised. |
| UrlUtils.InternalPath | src/lib/urlUtils.js:26-28 | An internal href without `#` becomes `/` + its normalised segment, or `/`. |
| UrlUtils.PlainInternal | src/lib/urlUtils.js:21-29 | An internal href without `#` normalises to the path of its segment. |
| UrlUtils.NormalizePageHtml | src/lib/urlUtils.js:5-29 | A page name x with any-case `.html` normalises to `/x`. |
| UrlUtils.NormalizeIndexPage | src/lib/urlUtils.js:5-29 | `/index.html`, in any case, normalises to `/`. |
| UrlUtils.NormalizeAboutHtml | src/lib/urlUtils.js:21-29 | `about.html` normalises to `/about`. |
| UrlUtils.NormalizeIndexHtml | src/lib/urlUtils.js:21-29 | `/Index.HTML` normalises to `/`. |
| I18n.LocaleLabel | src/lib/i18n.ts:72-74 | The label is '中' for zh and 'EN' for en. |
| I18n.IsValidLocale | src/lib/i18n.ts:63-65 | A valid locale is a two-letter code without `/`. |
| I18n.LocaleConfig | src/lib/i18n.ts:15-26 | Each locale has a non-empty label and name, and its hrefLang starts with the locale code. |
| I18n.LocaleName | src/lib/i18n.ts:81-83 | The name is '中文' for zh and 'English' for en. |
| I18n.HrefLang | src/lib/i18n.ts:90-92 | hrefLang is 'zh-CN' for zh and 'en' for en; it starts with the locale code. |
| I18n.LocaleConfigInjective | src/lib/i18n.ts:15-26 | Different locales have different labels, names and hrefLang values. |
| I18n.LocaleFromPath | src/lib/i18n.ts:99-108 | The result is the first non-empty segment when that is a valid locale, else 'zh'; it is always valid. |
| I18n.DropOneSlash | src/lib/i18n.ts:118 | At most one leading `/` is removed. |
| I18n.DropLocalePrefix | src/lib/i18n.ts:120 | At most one leading `zh/` or `en/` is removed. |
| I18n.LocalePrefixCases | src/lib/i18n.ts:118-120 | Removing one `/` and then one `zh/` or `en/` leaves what follows the locale prefix, and leaves a prefix-free path whole. |
| I18n.LocalizedPath | src/lib/i18n.ts:116-123 | getLocalizedPath starts with `/` + locale + `/`. A `/zh/…` or `/en/…` path keeps what follows the prefix; so does a `zh/…` or `en/…` path; any other path gets `/` + locale prefixed, with one `/` between. |
| I18n.Relocalize | src/lib/i18n.ts:116-123 | Localising a localised path replaces the locale. With the same locale this is idempotence. |
| I18n.LocalizedPathLocale | src/lib/i18n.ts:99-123 | The locale read back from a localised path is its locale. |
| I18n.AlternateLocales | src/lib/i18n.ts:130-132 | The alternates are exactly the other valid locales: one for a valid locale, both otherwise. |
| I18n.Without | src/lib/i18n.ts:131 | filter keeps every other element, and removes exactly one element from a list without duplicates. |
| Middleware.ExtractLocale | src/middleware.ts:21-24 | extractLocaleFromPath is the first non-empty segment, or null when there is none. |
| Middleware.IsPassThrough | src/middleware.ts:39-48 | `/` and the empty path never pass through unchanged. |
| Middleware.OnRequest | src/middleware.ts:34-70 | Internal, asset, API and dotted paths and the four root files pass through. `/` goes to `/zh/` with 302. A path with a valid first locale passes. Any other path goes to `/zh` + path with 302. |
| Middleware.RootRedirect | src/middleware.ts:54-56 | `/` is redirected to `/zh/` with status 302. |
| Middleware.LocalePathPasses | src/middleware.ts:59-64 | Every path under `/zh` or `/en` passes through. |
| Middleware.NoRedirectLoop | src/middleware.ts:54-69 | For a pathname starting with `/`, the redirect target passes through on the next request. |
| AstroNav.SlashNotPassThrough | src/components/astro/PrimaryNav.jsx:21 | A path starting with `/` is never returned as external or as an anchor. |
| AstroNav.SlashEndNotHtml | src/components/astro/PrimaryNav.jsx:25 | A path ending in `/` has no `.html` suffix to remove. |
| AstroNav.NormalizePath | src/components/astro/PrimaryNav.jsx:18-35 | A falsy href gives `/`, and `http…`, `mailto:` and `#` hrefs are unchanged. Any other href loses one `.html`; then `index` and `/index` become `/`, a path with a leading `/` is kept and any other gets one. |
| AstroNav.NormalizePathPage | src/components/astro/PrimaryNav.jsx:18-35 | A page name x with any-case `.html` becomes `/x`. |
| AstroNav.NormalizePathAboutHtml | src/components/astro/PrimaryNav.jsx:18-35 | `about.html` becomes `/about`. |
| AstroNav.NormalizeKeepsTrailingSlash | src/components/astro/PrimaryNav.jsx:15-35 | A trailing slash survives normalisation, although the doc comment says it is removed. |
| AstroNav.NormalizeFixed | src/components/astro/PrimaryNav.jsx:18-35 | An already normalised internal path is left alone. |
| AstroNav.NormalizeIdempotent | src/components/astro/PrimaryNav.jsx:18-35 | normalizePath is idempotent unless its result still ends in `.html`. |
| AstroNav.ShownLinks | src/components/astro/PrimaryNav.jsx:41 | The filter keeps exactly the links with a truthy href that are not hidden. |
| AstroNav.ShownLinksAppend | src/components/astro/PrimaryNav.jsx:41 | Filtering distributes over concatenation, so order is preserved. |
| AstroNav.ShownLinksAll | src/components/astro/PrimaryNav.jsx:41 | A list whose links are all shown is kept whole. |
| AstroNav.NavLinks | src/components/astro/PrimaryNav.jsx:39-42 | navLinks is `[]` when nav is not an array, else its shown links. |
| AstroNav.IsActiveLink | src/components/astro/PrimaryNav.jsx:45-67 | External links are never active. The home link is active iff the page is `/`, `/lang` or `/lang/`. Any other link is active iff the page ends with it or equals `/lang` + link. |
| AstroNav.ResolveHref | src/components/astro/PrimaryNav.jsx:74-93 | External and anchor links are unchanged; home goes to `/lang/`; any other link goes to `/lang` + path + `/`. |
| AstroNav.ExternalNeverActive | src/components/astro/PrimaryNav.jsx:49-52 | An `http…` or `mailto:` href is never active. |
| AstroNav.HomeActiveOnLanguageRoot | src/components/astro/PrimaryNav.jsx:54-61 | The home link is active on the language root, which is the page it resolves to. |
| AstroNav.NotActiveOnOwnPage | src/components/astro/PrimaryNav.jsx:45-93 | As written, an internal link not ending in `/` is never active on the page it resolves to. |
| AstroNav.NormalizePathIntended | src/components/astro/PrimaryNav.jsx:15-17 | The documented normalisation also removes trailing slashes: results start with `/` and end with it only when they are `/`. |
| AstroNav.IntendedAgreesWithoutTrailingSlash | src/components/astro/PrimaryNav.jsx:18-35 | The documented normalisation differs from the written one only on results ending in `/`. |
| AstroNav.IsActiveLinkIntended | src/components/astro/PrimaryNav.jsx:45-67 | The same activity rule as IsActiveLink, over the documented normalisation. |
| AstroNav.ResolveHrefIntended | src/components/astro/PrimaryNav.jsx:74-93 | The same href rule as ResolveHref, over the documented normalisation. |
| AstroNav.ActiveOnOwnPageIntended | src/components/astro/PrimaryNav.jsx:45-93 | With the documented normalisation, every internal link is active on the page it resolves to. |
| AstroNav.HomeActiveIntended | src/components/astro/PrimaryNav.jsx:54-61 | The home link is active on `/lang/`. |
| AstroNav.PageActiveIntended | src/components/astro/PrimaryNav.jsx:63-66 | A page link is active on `/lang` + its path + `/`. |
| AstroNav.IntendedOfPage | src/components/astro/PrimaryNav.jsx:15-35 | The documented normalisation of `/lang<path>/` is `/lang<path>`. |
| UiNav.Unhidden | src/components/ui/PrimaryNav.jsx:10 | The filter never lengthens the list. |
| UiNav.UnhiddenMembers | src/components/ui/PrimaryNav.jsx:10 | The filter keeps exactly the links whose hidden flag is falsy. |
| UiNav.UnhiddenAppend | src/components/ui/PrimaryNav.jsx:10 | Filtering distributes over concatenation, so order is preserved. |
| UiNav.NavLinks | src/components/ui/PrimaryNav.jsx:10 | A missing nav gives `[]`. A non-array nav or a null entry throws. Otherwise the result is exactly the unhidden links, in order. |
| UiNav.IsActiveLink | src/components/ui/PrimaryNav.jsx:14-24 | `index.html` and `/` are active iff the pathname is `/`. Any other href is active iff, without its first `.html`, it equals the pathname without its first `/`. |
| UiNav.GetHref | src/components/ui/PrimaryNav.jsx:27-30 | `index.html` maps to `/`, any other href to `/` + href without its first `.html`; results start with `/`. |
| UiNav.DropFirstSlash | src/components/ui/PrimaryNav.jsx:22 | Removing the first `/` of `/` + s gives back s. |
| UiNav.ActiveOnOwnRoute | src/components/ui/PrimaryNav.jsx:14-30 | Every href other than `/` is active on the route getHref gives it. |
| UiNav.RootLinkAsWritten | src/components/ui/PrimaryNav.jsx:14-30 | As written, getHref maps `/` to `//`, where `/` is not active. |
| UiNav.GetHrefIntended | src/components/ui/PrimaryNav.jsx:27-30 | getHref with `/` recognised as home, as isActiveLink does; otherwise unchanged. |
| UiNav.ActiveOnOwnRouteIntended | src/components/ui/PrimaryNav.jsx:14-30 | With `/` recognised as home in both places, every href is active on its own route. |
| LocaleCycle.KeyIndex | src/lib/LanguageContext.jsx:34 | indexOf returns the first index that holds the key, or -1 exactly when the key is missing. |
| LocaleCycle.NextKey | src/lib/LanguageContext.jsx:33-36 | The next key is always a key; an unknown current key gives the first key. |
| LocaleCycle.NextKeyAt | src/lib/LanguageContext.jsx:33-36 | With distinct keys, the key after `keys[i]` is `keys[i+1]`, wrapping from the last to the first. |
| LocaleCycle.Advance | src/lib/LanguageContext.jsx:35 | Repeated wrapping steps stay within the indices. |
| LocaleCycle.AdvanceWrapsOnce | src/lib/LanguageContext.jsx:35 | Up to a full cycle of steps wraps at most once. |
| LocaleCycle.IterateAdvance | src/lib/LanguageContext.jsx:32-37 | Repeated toggles follow the indices of the keys. |
| LocaleCycle.IterateIndex | src/lib/LanguageContext.jsx:32-37 | n toggles (n up to the key count) land n places further on, wrapping once. |
| LocaleCycle.FullCycle | src/lib/LanguageContext.jsx:29-38 | Toggling as many times as there are keys returns to the start, and no smaller positive number of toggles does. |
| LanguageSwitcher.NextLang | src/components/astro/LanguageSwitcher.jsx:33-38 | getNextLang gives en for zh and zh for en: a key different from the current one. |
| LanguageSwitcher.NextLangInvolution | src/components/astro/LanguageSwitcher.jsx:33-38 | Applying getNextLang twice gives the current language back. |
| LanguageSwitcher.DropLangPrefix | src/components/astro/LanguageSwitcher.jsx:47 | At most one leading `/en/` or `/zh/` is replaced by `/`. |
| LanguageSwitcher.SwitchPath | src/components/astro/LanguageSwitcher.jsx:46-48 | The new path is `/` + nextLang + the rest. From a path starting with `/`, it starts with `/` + nextLang + `/`. |
| LanguageSwitcher.SwitchKeepsRest | src/components/astro/LanguageSwitcher.jsx:46-48 | A path under a language prefix keeps everything after the prefix. |
| LanguageSwitcher.SwitchRoundTrip | src/components/astro/LanguageSwitcher.jsx:33-48 | Switching twice from a page under the current language returns to the same page. |
| LanguageContext.StoredLanguage | src/lib/LanguageContext.jsx:9-17 | The stored value is used only when the table has an entry for it. A missing or unknown value, no window, or a storage exception gives the default locale. |
| LanguageContext.LanguageProvider.constructor | src/lib/LanguageContext.jsx:28-29 | The initial language is getStoredLanguage's result and is a key of the table. |
| LanguageContext.LanguageProvider.ToggleLanguage | src/lib/LanguageContext.jsx:32-40 | The language moves to the next key, wrapping, and stays a key. It changes whenever there are two or more keys. Storage gets the same value unless the write fails; nothing else changes. |
| SiteContent.ArrayOr | src/lib/content.js:120 | `Array.isArray(v) ? v : fallback`. |
| SiteContent.MergeSection | src/lib/content.js:113-116 | Every fallback key is kept, and every key present in the section overrides it, even with null or undefined. A missing section yields the fallback. |
| SiteContent.MergeListSection | src/lib/content.js:118-121 | items come from the section only when that is an array, else from the fallback; every other key of the section overrides the fallback's, and the fallback's other keys are kept. A null section is tolerated; a null fallback is read only when the section's items are not an array. |
| SiteContent.MergeFeaturedPosts | src/lib/content.js:129-133 | The keys are those of the list merge plus seeAllText and seeAllUrl. These two fall back only on null or undefined, items only on a non-array; every other key is the list merge's. |
| SiteContent.MergeFooter | src/lib/content.js:134-139 | socialLinks come from the data only when they are an array; every other key is the plain section merge's. |
| SiteContent.MergeValues | src/lib/content.js:144-150 | `about.values` is a list section plus `product`, which is merged one level deeper; every other key is the list merge's. |
| SiteContent.AboutRecord | src/lib/content.js:141-155 | `about` has exactly the keys hero, timeline, values and philosophy. |
| SiteContent.ContactRecord | src/lib/content.js:157-174 | `contact` has exactly the keys hero, cards, form and services. |
| SiteContent.CardsRecord | src/lib/content.js:159-168 | `contact.cards` has exactly the keys email and social. |
| SiteContent.MergeAbout | src/lib/content.js:141-155 | The merged `about` has exactly hero, timeline, values and philosophy: hero and philosophy plain merges, timeline a list merge, values the deeper merge. |
| SiteContent.MergeContact | src/lib/content.js:157-174 | The merged `contact` has exactly hero, cards, form and services: hero and form plain merges, services a list merge; `cards` has exactly email (plain merge) and social (list merge). |
| SiteContent.ContentRecord | src/lib/content.js:176-186 | One language's content has exactly the nine section keys. |
| SiteContent.MergeSingleContent | src/lib/content.js:123-187 | Null data throws. Otherwise the result has exactly the nine keys: nav taken from the data only as an array, site, header and hero plain merges, and every other section merged as above. |
| SiteContent.ShallowSiteMerge | src/lib/content.js:113-124 | Merging is shallow: a nested value of the data's `site`, such as favicon, replaces the default wholesale. |
| SiteContent.ProductMergedDeeper | src/lib/content.js:144-150 | A product key missing from the data keeps its default. |
| SiteContent.ListSectionOfNothing | src/lib/content.js:118-121 | Merging nothing into a list section gives it back. |
| SiteContent.AboutOfNothing | src/lib/content.js:141-155 | Merging nothing into `about` gives it back. |
| SiteContent.ContactOfNothing | src/lib/content.js:157-174 | Merging nothing into `contact` gives it back. |
| SiteContent.FeaturedPostsOfNothing | src/lib/content.js:129-133 | Merging nothing into `featuredPosts` gives it back. |
| SiteContent.FooterOfNothing | src/lib/content.js:134-139 | Merging nothing into `footer` gives it back. |
| SiteContent.ContentRecordOfFields | src/lib/content.js:176-186 | A content object is the record of its own nine sections. |
| SiteContent.ClosedDereferenceable | src/lib/content.js:123-174 | A closed fallback has every part the merge dereferences without `?.`. |
| SiteContent.MergeNothing | src/lib/content.js:123-187 | Merging `{}` or undefined into a closed fallback returns the fallback. |
| SiteContent.EmptyDataIsUndefined | src/lib/content.js:123 | `{}` and undefined data merge the same. |
| SiteContent.SectionsOfNothing | src/lib/content.js:123-187 | Each section of a closed fallback survives a merge with nothing. |
| SiteContent.LanguagesRecord | src/lib/content.js:189-194 | The result has exactly the keys zh and en. |
| SiteContent.DefaultClosed | src/lib/content.js:3-99 | `DEFAULT_CONTENT_SINGLE` is closed under merging with nothing. |
| SiteContent.DefaultDereferenceable | src/lib/content.js:3-99 | The defaults have every part the merge dereferences. |
| SiteContent.MergeLanguages | src/lib/content.js:189-194 | mergeContent returns exactly zh and en, each merged against its own default, and ignores other keys. A null data, zh or en throws. |
| SiteContent.MergeLanguagesNothing | src/lib/content.js:189-194 | Merging nothing gives the fallback for both languages. |
| SiteContent.MergeContent | src/lib/content.js:189-194 | mergeContent(data) has exactly the keys zh and en, and fails exactly on null data, zh or en. |
| SiteContent.MergeDefaults | src/lib/content.js:101-194 | `mergeContent()` and `mergeContent({})` equal `DEFAULT_CONTENT`. |
| AppContent.AppListSection | app.js:50-53 | The list merge reads `section.items` and `fallback.items` without `?.`: it throws exactly on a null section, or on a null fallback when the section's items are not an array; otherwise it is the shared list merge. |
| AppContent.AppRecord | app.js:71 | The single-page content has exactly the six keys. |
| AppContent.MergeAppWith | app.js:44-72 | site, header and hero are plain merges. portfolio and featuredPosts items come from the data only as arrays. seeAll* fall back on null or undefined; socialLinks unless an array. A null data, portfolio or featuredPosts throws, and nothing else does for defaults whose read parts exist. |
| AppContent.PlainSectionsMerge | app.js:45-57 | site, header and hero keep every default key, and data keys override it. |
| AppContent.MergeAppNothing | app.js:44-72 | Merging nothing into a closed fallback returns it, and such a fallback has every part the merge reads. |
| AppContent.AppRecordOfFields | app.js:71 | A single-page content object is the record of its six sections. |
| AppContent.NullListSectionDiffers | app.js:58-60 | A null featuredPosts throws here, but not in src/lib/content.js. |
| AppContent.AppDefaultClosed | app.js:6-39 | The defaults are closed under merging with nothing. |
| AppContent.MergeApp | app.js:44-72 | mergeContent has exactly the six keys, and fails exactly on null data, portfolio or featuredPosts. |
| AppContent.MergeAppDefaults | app.js:6-72 | `mergeContent()` and `mergeContent({})` equal `DEFAULT_CONTENT`. |
| Home.ListOrEmpty | src/components/astro/Home.jsx:17-18 | A non-array list is treated as empty. |
| Home.Mark | src/components/astro/Home.jsx:21-22 | A marked post is the post with the flag set to true and no other field changed. |
| Home.DateKey | src/components/astro/Home.jsx:29-30 | The sort key is the time of pubDate when truthy, else of updated when truthy, else of 0. |
| Home.MarkAll | src/components/astro/Home.jsx:21-22 | Every post is marked, in place. |
| Home.Combined | src/components/astro/Home.jsx:25 | The combined list is the RSS posts, each marked isRSS, followed by the static posts, each marked isManual, position by position. |
| Home.RssLimit | src/components/astro/Home.jsx:35 | rssLimit is featuredPosts.rss.limit, or 6 when that is missing or 0. |
| Home.CutOff | src/components/astro/Home.jsx:36-37 | The cut-off is max(rssLimit, rssLimit + staticCount). |
| Home.SliceTo | src/components/astro/Home.jsx:37 | `slice(0, end)` keeps a prefix, counting a negative end from the back. |
| Home.SliceIsPrefix | src/components/astro/Home.jsx:37 | The cut is a prefix. |
| Home.DisplayPosts | src/components/astro/Home.jsx:16-38 | Sorting the combined list in place and slicing gives the specified list. |
| Home.DisplaySpec | src/components/astro/Home.jsx:25-37 | The posts shown are at most, and a sub-multiset of, the combined posts. |
| Home.DisplayOrdered | src/components/astro/Home.jsx:25-37 | The posts shown are newest first, by pubDate, else updated, else 0. They are a prefix of the stable sort, and ties keep RSS before static. |
| Home.DisplayMarked | src/components/astro/Home.jsx:21-37 | Every post shown is a marked RSS post or a marked static post. |
| Home.MarkAllMember | src/components/astro/Home.jsx:21-22 | A marked list holds only marked posts of the list. |
| Home.DisplayKeepsAll | src/components/astro/Home.jsx:33-37 | With no more RSS posts than rssLimit, the output is a permutation of all the marked posts. |
| Home.DisplayCutsToLimit | src/components/astro/Home.jsx:35-37 | With more RSS posts than a positive rssLimit, exactly the cut-off number is shown. |
| Home.ShowSeeAllStrings | src/components/astro/Home.jsx:41-42 | showSeeAll holds iff seeAllUrl is non-empty and not `#`, and seeAllText is non-empty. |
| Home.ShowSeeAll | src/components/astro/Home.jsx:41-42 | The link is hidden when seeAllUrl is `#`, when seeAllText is falsy, or when featuredPosts is missing. |
| Cards.ResolveContentHref | src/components/astro/FeaturedPostItem.jsx:15-23 | A falsy href gives `#`. `http://` and `https://` hrefs are unchanged. Other hrefs keep a leading `/` or get one. Results are never empty. |
| Cards.ResolveIdempotent | src/components/astro/WebsiteItem.jsx:9-17 | Resolving a resolved non-empty href changes nothing. |
| Cards.ResolveEmptyNotIdempotent | src/components/astro/WebsiteItem.jsx:9-17 | `''` becomes `#`, which becomes `/#`. |
| Cards.ResolveCaseSensitive | src/components/astro/FeaturedPostItem.jsx:18-20 | The external check is case-sensitive: `HTTP://…` gets a `/` prefix. |
| Cards.Categories | src/components/astro/FeaturedPostItem.jsx:34 | categories is item.categories whenever that is truthy (even `[]`), else `[item.category]` when that is truthy, else `[]`. |
| Cards.PubDate | src/components/astro/FeaturedPostItem.jsx:35 | pubDate is the first truthy of pubDate, updated and published, else null. |
| Cards.CustomOverlay | src/components/astro/FeaturedPostItem.jsx:39 | The custom overlay is the POST_STYLES entry of the item's id, when there is one. |
| Cards.OverlayClass | src/components/astro/FeaturedPostItem.jsx:39-40 | The overlay is the black gradient exactly when there is no custom entry (isBlackOverlay); otherwise it is the entry. |
| Cards.DateLocale | src/components/astro/FeaturedPostItem.jsx:46 | The date locale is en-US for en and zh-CN for any other language. |
| Footer.Copyright | src/components/astro/Footer.jsx:89-99 | A missing or empty copyright gives `''`. A truthy non-string throws. |
| Footer.CopyrightPlain | src/components/astro/Footer.jsx:96-98 | A template without placeholders is unchanged. |
| Footer.CopyrightFills | src/components/astro/Footer.jsx:96-98 | The first `{startYear}` becomes 2024 and the first `{currentYear}` the current year; all other text stays. |
| Footer.CopyrightFirstOnly | src/components/astro/Footer.jsx:96-98 | Later placeholders stay: `{startYear}-{startYear}` becomes `2024-{startYear}`. |
| Footer.Fill | src/components/astro/Footer.jsx:96-98 | A template without either placeholder is returned unchanged. |
| Footer.IcpInfo | src/components/astro/Footer.jsx:41-64 | The ICP link shows iff icp.text and icp.url are set, and the MPS link iff mps.text and mps.url are set. The separator shows iff both texts are set. A falsy footer shows nothing. |
| Footer.SeparatorBetweenLinks | src/components/astro/Footer.jsx:49-64 | When both links show, so does the separator. |
| Footer.SeparatorWithoutLinks | src/components/astro/Footer.jsx:61 | The separator can show with neither link. |
| Footer.RenderFooter | src/components/astro/Footer.jsx:83-99 | A falsy footer renders nothing. Otherwise it renders the copyright line, socialLinks when an array (else none) and the notice; a non-string copyright throws. |

## Left out

- Network and file I/O of the feed script are inputs of the model, not modelled. This covers fetchWithRetry with its timeout and retries, getConfig's file reads, the output write, logging and timing. A feed is a `FetchOutcome`, and a language's configuration an `Option<RssConfig>`.
- The MD5 hash is the parameter `hash`. Date parsing, `toISOString` and `toLocaleDateString` are the parameters `parseDate`, `iso` and `time`. The model does not capture:
  - an unparseable date: NaN keys in the sort comparators, and the `toISOString` throw on an invalid date;
  - the formatted date of a post card.
- FeedBuild.CollectPosts: a feed entry is a `FeedRef`, which has a url, so a `null` or `undefined` entry of `feeds` cannot be written. In JavaScript such an entry throws at the destructuring on scripts/fetch-rss.bun.js:266, outside the `try` that starts on line 268.
- FeedBuild.SliceEnd and Home.SliceTo: limits are integers. A fractional or NaN limit, which `slice` truncates or treats as 0, is not modelled.
- Cards.CustomOverlay: looks up only the table's own ids. `POST_STYLES[item.id]` in JavaScript would also find inherited property names such as `constructor`, and use a function as the overlay class.
- FeedBuild.LimitOf: models only a numeric `limit`. A non-numeric truthy limit, which `slice` would convert, is not modelled. A non-array truthy `feeds` value is not modelled either.
- Home.RssLimit: models only a numeric `rss.limit`; any other truthy value falls back to 6 in the model, whereas JavaScript would use it.
- FeedText.GetLinkHref: the greedy `[^>]*` of the pattern takes the last `href=` inside the first matching `<link …>` tag. The model follows the code, so this is the value returned.
- Lengths and the 200-character cut count Unicode scalar values; JavaScript counts UTF-16 code units.
- `/i` matching and `toLowerCase` fold ASCII letters only.
- Strings are the only hrefs the URL and navigation helpers take. A non-string truthy href, which would make `startsWith` or `split` throw, is modelled only in `Cards`, `UiNav.NavLinks` and `Footer.Copyright`.
- LanguageContext.LanguageProvider.Content: `locales[language].data` is stated as the function's body and has no contract. The table in `src/locales/config` is not part of this model; its keys, entries and default locale are inputs.
- LanguageContext.StoredLanguage: accepts only the table's own keys. JavaScript's `locales[stored]` would also accept inherited property names such as `constructor`.
- React state, effects and memoisation, the View Transitions navigation of the switch button, and all markup are not modelled.
- SiteContent.MergeSingleContent: requires a fallback (`Dereferenceable`) whose parts read without `?.` exist: websites, featuredPosts, footer, about with its timeline and values, and contact with its cards, cards.social and services. JavaScript throws without them only for some data, since `fallback.x.items` is read only when the data's items are not an array. The requirement is on the defaults alone, and the built-in defaults meet it (`DefaultDereferenceable`). AppContent.MergeAppWith has the same kind of requirement (`AppDereferenceable`), which app.js's own defaults meet.
- SiteContent.MergeLanguages and AppContent.MergeAppWith take the defaults as a parameter, so that the merge laws hold for every closed fallback. `MergeContent` and `MergeApp` apply them to the built-in defaults.
- LocaleCycle.Iterate: has no contract of its own; its properties are the lemmas IterateAdvance, IterateIndex and FullCycle.
- Footer.Copyright: the contract covers only the empty and throwing cases. The substitution itself is stated by CopyrightPlain, CopyrightFills and CopyrightFirstOnly, for templates without a `{` before the placeholders.
- Text.Decimal: its own contract gives only the digit shape and length. The numeral's value and the absence of a leading zero are stated by the lemma DecimalValue.
- UiNav.Unhidden: the contract bounds the length only; membership is stated by UnhiddenMembers, and order by UnhiddenAppend.
- The homepage's `isRSS` field of a post card, remote content loading, `getI18n`/`getAllI18n` and the favicon update are outside the modelled core.

## Findings

| source | as written | input that shows it | evidently intended | confidence | as-written member | corrected member |
|---|---|---|---|---|---|---|
| src/components/astro/PrimaryNav.jsx:15-35 | normalizePath keeps trailing slashes, although its doc comment says it removes them. The site is configured with `trailingSlash: 'always'` (astro.config.mjs:11), so every page path ends in `/`. | href `about.html`, lang `zh`: resolveHref gives `/zh/about/`, and on that page isActiveLink(`about.html`) is false, because `/zh/about/` neither ends with `/about` nor equals `/zh/about`. | Trailing slashes are removed as documented, so each nav link is active on the page it links to. | medium; not executed | AstroNav.NotActiveOnOwnPage | AstroNav.ActiveOnOwnPageIntended |
| src/components/ui/PrimaryNav.jsx:27-30 | getHref recognises `index.html` as the home link but not `/`, which isActiveLink treats as home (line 16). | href `/`: getHref gives `//`, and isActiveLink(`/`) is false on the pathname `//`. | getHref(`/`) is `/`, so every link is active on its own route. | medium; not executed | UiNav.RootLinkAsWritten | UiNav.ActiveOnOwnRouteIntended |
