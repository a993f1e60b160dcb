# zhishu blog core, modelled in Dafny

zhishu is a bilingual (Chinese and English) blog built on Next.js. This project models the
logic that sits under its pages and stays the same however it is rendered:

- **Post store** (`src/lib/posts.ts`). A class holds the stored posts as a sequence field.
  It lists them newest first, filters the published ones and filters by category (with the
  `latest` sentinel). It finds a post by slug or id, appends new posts, merges updates
  (always re-stamping `updatedAt`) and deletes by id.
- **Posts endpoint** (`src/app/api/posts/route.ts`). GET branches on the category
  parameter. POST validates the body, builds the slug, fills the defaults and answers 400,
  201 or 500.
- **Translation cache** (`src/lib/translate.ts`). The batch call to the translation
  service drops blank texts and writes the answers back by index. A record cache is keyed
  by `id_locale`. It serves full translations, summary-only translations and the batched
  summaries of a post list.
- **Translate endpoint** (`src/app/api/translate/route.ts`). Its decision order is 400,
  then cache hit, then 503, then translate or 500. A fresh translation is written to the
  cache.
- **Locale resolution**. The middleware (`src/middleware.ts`) tries query, subdomain,
  cookie and `Accept-Language`, in that order, and sets the `x-locale` header and the
  cookie. The server-side `getLocale` (`src/i18n/server.ts`) tries cookie, then header,
  then `zh`.
- **Blog index** (`src/components/Pagination.tsx`, `src/app/blog/page.tsx`). The page
  window with ellipses, nine posts to a page, and the category switch.
- **Demo form** (`src/app/demo/page.tsx`). Required fields, the email and phone patterns,
  and the submit gate.

The translation service, the clock and the uuid generator are parameters. The service is a
`Translator` object holding whether a key is configured and a reply function. It records
every request sent. File contents are fields: the post list is a `seq<Post>` and the cache
a `map<string, CacheEntry>`. Timestamps are integers.

Modules, one per file: `Wrappers`, `Text` (JavaScript string helpers), `Seqs` (filter and
find), `PostTypes`, `Posts`, `PostsRoute`, `Translate`, `TranslateRoute`, `Middleware`,
`ServerLocale`, `Pagination`, `BlogPage` and `DemoPage`.

## Model

| member | source | states |
|---|---|---|
| Posts.AllPosts | src/lib/posts.ts:17-22 | the listing is a permutation of the stored posts (same multiset), ordered by `createdAt` descending |
| Posts.InsertSorted | src/lib/posts.ts:21 | one insertion step of the sort keeps a descending list descending |
| Posts.AllPostsStable | src/lib/posts.ts:21 | the sort is stable: posts with equal `createdAt` keep their stored order |
| Posts.FilterSorted | src/lib/posts.ts:25 | filtering a newest-first list keeps it newest first |
| Posts.PublishedPosts | src/lib/posts.ts:24-26 | each published post appears as often as stored, no unpublished post appears, newest first |
| Posts.PublishedStable | src/lib/posts.ts:21-25 | among published posts with equal `createdAt`, the listing keeps their stored order; with the two clauses above this fixes the listing completely |
| Posts.PostsByCategory | src/lib/posts.ts:28-31 | `latest` gives exactly the published list; any other category keeps exactly the published posts of that category, as often as stored, newest first |
| Posts.CategoryStable | src/lib/posts.ts:28-31 | among listed posts with equal `createdAt`, a category listing keeps their stored order |
| Posts.FirstMatch | src/lib/posts.ts:33-39 | none exactly when no stored post matches; otherwise a stored matching post that no matching post is newer than, standing in the sorted list before every other match |
| Posts.PostBySlug | src/lib/posts.ts:33-35 | none iff no post has the slug; else the newest post with it, published or not, and among equally new ones the first of the sorted list |
| Posts.PostById | src/lib/posts.ts:37-39 | none iff no post has the id; else the newest post with it, published or not, and among equally new ones the first of the sorted list |
| Posts.Merge | src/lib/posts.ts:54 | each field the update supplies replaces the post's, every other field is kept, and `updatedAt` is now |
| Posts.FirstIsNewest | src/lib/posts.ts:34 | in a newest-first list, the first match is at least as new as every match |
| Posts.FoundFirstUnique | src/lib/posts.ts:34-38 | only one matching post stands before every other match, so a lookup leaves no tie between equally new posts open |
| Posts.MergeEmpty | src/lib/posts.ts:54 | an empty update changes nothing but `updatedAt` |
| Posts.MergeStampsAndIsIdempotent | src/lib/posts.ts:54 | `updatedAt` is always now, even when the update supplies one; merging the same update twice equals merging it once |
| Posts.MergeTitleOnly | src/lib/posts.ts:54 | an update of the title alone changes the title and `updatedAt` and keeps every other field |
| Posts.PostStore.constructor | src/lib/posts.ts:12-14 | a fresh store is empty |
| Posts.PostStore.CreatePost | src/lib/posts.ts:41-47 | returns its argument unchanged; the store becomes the sorted list plus that post at the end, one more post, no duplicate-id check |
| Posts.PostStore.UpdatePost | src/lib/posts.ts:49-57 | null and no write iff no post has the id; else the first sorted post with the id, the same one `getPostById` returns, becomes its merge with the update, and every other position is unchanged |
| Posts.PostStore.DeletePost | src/lib/posts.ts:59-66 | false and no write iff no post has the id; else the sorted list without every post of that id, other posts in order and as often as stored |
| Posts.DeleteCounts | src/lib/posts.ts:62 | the filtered list is sorted and holds every post of another id as often as stored, none of the id |
| Posts.DeleteLength | src/lib/posts.ts:63 | the filtered list is as long as the original exactly when no post has the id |
| Posts.CreatedPostIsFound | src/lib/posts.ts:37-47 | a post created with a fresh id is found by that id afterwards |
| PostsRoute.SlugBaseWellFormed | src/app/api/posts/route.ts:30-33 | the slug base never starts or ends with `-`, never holds `--`, and holds only lower-case letters, digits, CJK ideographs and hyphens |
| PostsRoute.HyphenateNoDouble | src/app/api/posts/route.ts:32 | replacing each maximal run of other characters by one `-` never leaves two hyphens in a row |
| PostsRoute.HyphenateChars | src/app/api/posts/route.ts:32 | after the replacement only kept characters and hyphens remain |
| PostsRoute.SlugBaseKeepsLetters | src/app/api/posts/route.ts:30-33 | with hyphens removed, the base is the lower-cased title with every non-kept character removed |
| PostsRoute.SlugBaseIdempotent | src/app/api/posts/route.ts:30-33 | building a slug base from a slug base gives it back |
| PostsRoute.Slug | src/app/api/posts/route.ts:30-39 | the slug starts with the base, or with `post-` when the base is empty, and ends with `-` and the timestamp |
| PostsRoute.SlugDistinctInTime | src/app/api/posts/route.ts:30-39 | the same title at two different times gives two different slugs |
| PostsRoute.NewPost | src/app/api/posts/route.ts:36-48 | the record has the given id, title and content and the derived slug, is published and stamped now; a truthy excerpt, cover image or category is kept and a falsy one becomes the first `min(100, length)` characters of the title, the lightbulb image or `tech`; a given author is kept, a missing one becomes `匿名` with an empty avatar |
| PostsRoute.CreateOutcome | src/app/api/posts/route.ts:21-55 | 500 iff the body is unparsable or `null`; 400 iff a title or content is falsy; 201 otherwise, with exactly the record `NewPost` builds |
| PostsRoute.HandleCreate | src/app/api/posts/route.ts:21-55 | answers as `CreateOutcome`; the store gains the new post exactly on 201 and is untouched otherwise |
| PostsRoute.CreatedPostIsPublished | src/app/api/posts/route.ts:47-51 | a post created through POST is listed among the published posts afterwards |
| PostsRoute.HandleList | src/app/api/posts/route.ts:7-19 | always 200 with a list; with a non-empty category it is `getPostsByCategory` of it, without one the published list; each post is listed as often as stored exactly when published and, unless `latest`, of that category |
| Translate.Translator.constructor | src/lib/translate.ts:41 | a service with the given key setting and replies has sent nothing |
| Translate.Translator.Send | src/lib/translate.ts:60-80 | the reply is the service's answer, and the request is appended to those sent |
| Translate.BatchOutcome | src/lib/translate.ts:40-95 | same length as the input; blank texts come back unchanged; non-empty texts never become empty; no key, nothing to send or a failed call returns the input unchanged |
| Translate.Pick | src/lib/translate.ts:88 | the translation at the text's position when there is a non-empty one, the original text otherwise |
| Translate.SentBy | src/lib/translate.ts:41-54 | at most one request, and one exactly when a key is set and some text is not blank |
| Translate.RankAligned | src/lib/translate.ts:44-52 | each non-blank text sits in the request at its rank, the number of non-blank texts before it |
| Translate.RankIncreasing | src/lib/translate.ts:44-52 | non-blank texts are sent in input order |
| Translate.BatchResultAligned | src/lib/translate.ts:86-90 | after an answered call each non-blank text gets the translation at its own request position, or keeps itself when that is missing or empty |
| Translate.CollectNonBlank | src/lib/translate.ts:44-52 | the `forEach` loop yields the non-blank texts and an index map that inverts the rank in both directions |
| Translate.WriteBack | src/lib/translate.ts:86-90 | the result has the input's length; each non-blank position holds its translation or the original, each blank position the original |
| Translate.TranslateBatch | src/lib/translate.ts:40-95 | returns `BatchOutcome` and sends exactly the requests of `SentBy` |
| Translate.TranslateText | src/lib/translate.ts:98-101 | a single text goes through the batch path |
| Translate.TranslateOne | src/lib/translate.ts:98-101 | the text itself without a key, for a blank text or after a failed call; else the first translation when non-empty and the text otherwise; a non-empty text never becomes empty |
| Translate.KeyInjective | src/lib/translate.ts:114 | within one locale, different ids never share a cache key |
| Translate.TranslationCache.constructor | src/lib/translate.ts:16-24 | an unreadable cache file is an empty map |
| Translate.TranslatePost | src/lib/translate.ts:108-157 | a hit (summary-only records included) returns the record with `cached` and writes and sends nothing; a miss without a key returns the inputs and writes nothing; a miss with a key sends title, excerpt and content, stores them under that key only and returns them |
| Translate.TranslatePostSummary | src/lib/translate.ts:162-199 | a hit returns the record's title and excerpt; a miss without a key returns the inputs; a miss with a key stores a record with empty content under that key only |
| Translate.SummaryThenDetail | src/lib/translate.ts:115-198 | after a summary translation, a full lookup is served from the summary record, with empty content and `cached`, and nothing more is sent |
| Translate.DetailTwice | src/lib/translate.ts:115-156 | a second full lookup returns the first one's texts with `cached` set and sends nothing |
| Translate.Uncached | src/lib/translate.ts:213-225 | the indices of exactly the posts without a record, increasing |
| Translate.Titles | src/lib/translate.ts:241 | the titles of the uncached posts, in input order |
| Translate.Excerpts | src/lib/translate.ts:242 | the excerpts of the uncached posts, in input order |
| Translate.CollectCached | src/lib/translate.ts:213-225 | every cached post is answered from its record, only input ids are answered, and the uncached indices are `Uncached` |
| Translate.KeepOriginals | src/lib/translate.ts:230-239 | without a key every id is answered, cached posts from their records and uncached ones with their own title and excerpt |
| Translate.StoreTranslations | src/lib/translate.ts:250-268 | every id is answered; each uncached post gets its translated pair, falling back field by field, and an empty-content record under its key; no other record changes |
| Translate.TranslatePostSummaries | src/lib/translate.ts:205-269 | every input id is answered and cached posts from their records; nothing is sent or written when all are cached or there is no key; otherwise exactly two batch calls (titles, then excerpts of the uncached posts in input order) and only their records are added |
| Translate.AllCachedCoversIds | src/lib/translate.ts:228 | when every post is cached, the cached answers already cover every id |
| Translate.UncachedCoverIds | src/lib/translate.ts:230-268 | answering every uncached post besides the cached ones covers every id |
| TranslateRoute.GoogleOutcome | src/app/api/translate/route.ts:46-74 | throws exactly without a key or on a failed call; a resolved answer is the first translation when it is non-empty and the text itself when the list is empty or its first entry is empty |
| TranslateRoute.TranslateWithGoogle | src/app/api/translate/route.ts:46-74 | answers as `GoogleOutcome` and sends one request exactly when a key is set |
| TranslateRoute.Outcome | src/app/api/translate/route.ts:76-139 | the status is 200, 400, 500 or 503; an unparsable or `null` body is always a 500; 400 iff id or locale is missing, before the cache; a hit is served with `cached` even without a key; 503 iff a miss without a key, carrying the original texts; 500 only for an unparsable body or a failed translation, and always with the failure payload |
| TranslateRoute.FreshTranslation | src/app/api/translate/route.ts:109-131 | on a miss with a key, 200 exactly when all three calls answer, with `cached` clear and each field the first translation when non-empty and the original otherwise |
| TranslateRoute.HandleTranslate | src/app/api/translate/route.ts:76-139 | answers as `Outcome`; a fresh 200 stores its three texts under the key; every other answer leaves the cache as it was; three requests are sent exactly on a miss with a key |
| TranslateRoute.TranslateThenRepeat | src/app/api/translate/route.ts:85-131 | a fresh translation makes the same request a cache hit with the same texts |
| Middleware.SubdomainLocale | src/middleware.ts:27-34 | any locale the host gives is `en` or `zh` |
| Middleware.HeaderLocale | src/middleware.ts:45-48 | the header stage always gives `en` or `zh` |
| Middleware.Resolve | src/middleware.ts:13-64 | the resolved locale is always `en` or `zh` |
| Middleware.HandleRequest | src/middleware.ts:13-64 | the `x-locale` header is the resolved locale, and the cookie `locale` carries it with path `/`, max age 2592000 and `lax` |
| Middleware.SubdomainRule | src/middleware.ts:27-34 | the host decides exactly when it has a dot and its first label, lower-cased, is `en` or `zh`, and then gives that label |
| Middleware.QueryOverridesAll | src/middleware.ts:21-24 | `lang=en` or `lang=zh` wins whatever else the request holds |
| Middleware.InvalidQueryIgnored | src/middleware.ts:21-24 | any other `lang` value resolves as no `lang` |
| Middleware.SubdomainOverridesCookieAndHeader | src/middleware.ts:27-34 | without a usable `lang`, a deciding host wins over any cookie and header |
| Middleware.CookieOverridesHeader | src/middleware.ts:37-42 | when neither `lang` nor the host decides, an `en`/`zh` cookie wins over any header |
| Middleware.HeaderDecides | src/middleware.ts:45-48 | otherwise `zh` iff `zh` occurs in the lower-cased header; no header gives `en` |
| Middleware.LocaleIsSticky | src/middleware.ts:54-61 | the cookie set makes the next request resolve the same unless `lang` or the host decide |
| ServerLocale.GetLocale | src/i18n/server.ts:8-20 | an `en`/`zh` cookie is returned; else an `en`/`zh` header; else `zh`; always `en` or `zh` |
| ServerLocale.NoInvalidLocaleLeaks | src/i18n/server.ts:8-20 | the answer is a supported cookie, a supported header, or `zh`, never another value |
| ServerLocale.AgreesWithMiddleware | src/i18n/server.ts:8-20 | a server component reading the middleware's cookie or header sees the locale the middleware resolved |
| Pagination.PageRange | src/components/Pagination.tsx:15-22 | the buttons `lo` to `hi` in order, none when `hi < lo` |
| Pagination.PushRange | src/components/Pagination.tsx:15-22 | the `for` loop appends exactly `PageRange(lo, hi)` |
| Pagination.Window | src/components/Pagination.tsx:12-24 | at most seven entries; every page when there are at most seven; the first and the last page always |
| Pagination.GetVisiblePages | src/components/Pagination.tsx:12-28 | the array built is the window of the current page |
| Pagination.SmallTotalShowsAll | src/components/Pagination.tsx:15-16 | up to seven pages shows 1 to total in order, with no ellipsis |
| Pagination.LargeTotalShape | src/components/Pagination.tsx:18-24 | past seven pages the window starts at 1 and ends at total; the leading ellipsis is there iff cur > 3, the trailing iff cur < total - 2 |
| Pagination.LargeWindowEntries | src/components/Pagination.tsx:18-24 | past seven pages the entry at every position: 1, an optional ellipsis, `max(2,cur-1)` to `min(total-1,cur+1)`, an optional ellipsis, total |
| Pagination.WindowWellFormed | src/components/Pagination.tsx:15-24 | page numbers strictly increase and lie in 1 to total; at most seven entries; neighbouring buttons are neighbouring pages and each ellipsis hides at least one page; the current page is shown when in range |
| Pagination.Render | src/components/Pagination.tsx:10-78 | nothing iff total ≤ 1; otherwise the window, previous disabled iff page 1, next disabled iff the last page |
| Pagination.RequestsStayInRange | src/components/Pagination.tsx:47-78 | from a page in range, every enabled click asks for a page in range |
| BlogPage.TotalPages | src/app/blog/page.tsx:10-44 | the fewest pages of nine that hold the posts, i.e. the ceiling of n / 9 |
| BlogPage.SliceIndex | src/app/blog/page.tsx:45-48 | `slice` clamps an argument into the list, and a non-negative one is the smaller of itself and the length |
| BlogPage.PageOf | src/app/blog/page.tsx:45-48 | a page never holds more than nine posts |
| BlogPage.PageSlice | src/app/blog/page.tsx:45-48 | page p holds positions `(p-1)·9` up to `min(p·9, n)`, at most nine posts, and some iff p ≤ totalPages |
| BlogPage.PagesArePrefix | src/app/blog/page.tsx:44-48 | pages 1 to k, concatenated, are the first `k·9` posts |
| BlogPage.PagesCoverList | src/app/blog/page.tsx:44-48 | pages 1 to totalPages, concatenated, are the whole list, and later pages are empty |
| BlogPage.CategoryParam | src/app/blog/page.tsx:21-25 | no `category` parameter exactly for `latest`; otherwise the slug itself |
| BlogPage.CategoryChange | src/app/blog/page.tsx:39-42 | the chosen category becomes active and the page goes back to 1; the posts and the loading flag are left to the fetch |
| BlogPage.FetchMatchesCategory | src/app/blog/page.tsx:18-33 | the page receives `getPostsByCategory` of its category, `latest` included |
| BlogPage.FetchDone | src/app/blog/page.tsx:26-31 | loading ends; an answer replaces the posts, a failure keeps them; category and page are unchanged |
| BlogPage.Render | src/app/blog/page.tsx:89-117 | loading shows the loading notice; an empty page shows the empty notice; otherwise the page's posts |
| BlogPage.CategoryChangeShowsFirstPage | src/app/blog/page.tsx:39-48 | after a category change and its fetch, the first nine posts of that category, with a navigator iff there are more than nine, or the empty notice iff there are none |
| BlogPage.NavigationStaysOnFilledPages | src/app/blog/page.tsx:112-116 | from a shown page, any page the navigator asks for again has posts |
| DemoPage.MatchesEmailIffPattern | src/app/demo/page.tsx:35 | the computed email test accepts exactly the strings `user@host.tld` of three non-empty runs without whitespace or `@` |
| DemoPage.MatchesEmail | src/app/demo/page.tsx:35 | the computed email test; what it accepts is stated by `MatchesEmailIffPattern` |
| DemoPage.MatchesPhone | src/app/demo/page.tsx:40 | `^[\d\s\-+()]{7,20}$`: seven to twenty characters, each a digit, whitespace or one of `-+()` |
| DemoPage.RequiredError | src/app/demo/page.tsx:31-32 | `requiredField` iff the value is blank after trimming |
| DemoPage.EmailError | src/app/demo/page.tsx:33-37 | `requiredField` iff blank; `invalidEmail` iff not blank and not of the pattern; no error iff of the pattern |
| DemoPage.PhoneError | src/app/demo/page.tsx:38-42 | `requiredField` iff blank; `invalidPhone` iff not blank and not 7 to 20 of digits, whitespace and `-+()`; no error otherwise |
| DemoPage.ErrorsOf | src/app/demo/page.tsx:29-44 | no error exactly when both names are non-blank, the email is of the pattern and the phone is valid; size and needs play no part |
| DemoPage.PaddedEmailIsInvalid | src/app/demo/page.tsx:33-36 | a valid address with a space before or after it is `invalidEmail`, not `requiredField` |
| DemoPage.DemoForm.constructor | src/app/demo/page.tsx:17-25 | every field empty, no errors, not submitting, not submitted |
| DemoPage.DemoForm.Validate | src/app/demo/page.tsx:29-44 | the errors filled in field by field are those of `ErrorsOf` |
| DemoPage.DemoForm.HandleSubmit | src/app/demo/page.tsx:46-58 | the errors are recorded first; the form is sent iff there are none, and then it is submitted and no longer submitting; the fields are unchanged |
| DemoPage.SubmitWithoutCompany | src/app/demo/page.tsx:29-50 | a blank company name is marked required and nothing is sent |
| Text.ContainsIffOccurs | src/middleware.ts:46 | the substring search finds `zh` exactly when it occurs at some offset |
| Text.JoinSplit | src/middleware.ts:28 | splitting the host on `.` loses nothing |
| Text.SplitHead | src/middleware.ts:28-30 | at least two parts iff the host has a dot; the first part is the text before the first dot |
| Text.DecimalStringInjective | src/app/api/posts/route.ts:30-39 | different timestamps render as different digit strings |
| Seqs.FilterCounts | src/lib/posts.ts:24-66 | `filter` keeps each passing element as often as it occurs and drops the rest |
| Seqs.FirstIndex | src/lib/posts.ts:33-53 | -1 iff nothing matches; otherwise the first match |

## Left out

- File I/O is not modelled: `ensureDataFile`, reading and writing `posts.json` and the cache file, and JSON parsing. The store and the cache are fields. A parse failure of the request body, or a body that is JSON `null`, is a `None` body.
- PostsRoute.CreateOutcome: the fields of a create body are strings or absent. A truthy `title` that is not a string (a number, array or object) makes `toLowerCase` throw, and the source answers 500. The model cannot express that case, so that 500 is not modelled. Non-string values of the other fields are also not modelled.
- Cache read and write failures are not modelled. Reads start from the cache object's map, and every write succeeds.
- Dates are integers. `createdAt` is compared as a number, not parsed from an ISO string.
- The clock is one `now` per request. The source reads `Date.now()` twice in the slug and `new Date()` twice in the record, so in the source these can differ by a millisecond.
- The uuid of a new post is a parameter `id`.
- The translation service is a deterministic reply function in a `Translator` object. Network errors, non-OK statuses and the 15-second abort are all one `Failed` reply.
- Requests run one after another. `Promise.all` runs the three single translations and the two summary batches at once; here they run in source order. The read-modify-write race between concurrent requests on the shared files is not modelled.
- TranslateRoute.TranslateWithGoogle: the source sends `q` as a single string; the model sends a one-element list, which the service treats alike.
- TranslateRoute.Outcome: the 500 answer's message text, taken from the thrown error, is not modelled.
- Absent `title`, `excerpt` or `content` fields of a translate body are modelled as strings, so the case of a missing text field is not modelled.
- The optional `title_en`, `excerpt_en` and `content_en` fields of a post are not modelled; no modelled code reads them.
- `toLowerCase` is modelled on ASCII letters only. Every other character is kept, so the lower-casing of other scripts is not modelled.
- Strings are sequences of code points, not UTF-16 units. `substring(0, 100)` of a title with characters outside the Basic Multilingual Plane can differ.
- Pagination.LargeTotalShape: the ellipsis equivalences are stated for a current page in 1 to total, the only pages the blog index passes. Outside that range the window can be shorter.
- BlogPage.FetchMatchesCategory: an empty category slug is sent as an empty parameter. The endpoint reads that as no category, which the lemma states separately.
- The blog index is modelled as state values and handler functions, not a class. React's scheduling, the effect that refetches after a category change, and a slow fetch finishing after a later one are not modelled.
- URL encoding of the `category` parameter by `URLSearchParams` is not modelled; the slug arrives unchanged.
- The demo form's 1200 ms wait is not modelled. A submit runs to completion, so the intermediate `submitting` state is never observed, and field setters and the success screen are left out.
- The messages shown for errors come from the i18n dictionaries (`src/i18n/en.ts`, `src/i18n/zh.ts`) and are modelled as the three kinds `RequiredField`, `InvalidEmail` and `InvalidPhone`.
- The doc comment of `src/middleware.ts:4-12` gives `zh` as the default locale; the code gives `en` when the header does not mention `zh`. The model follows the code (`Middleware.HeaderDecides`).
- Rendering, styling, the editor, the diagnostic translate-test route and the rest of the UI are not part of this model.
