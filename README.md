# CryptoPanic scraper: a verified Dafny model

This project models the core of the CryptoPanic news scraper and proves properties of it. The scraper drives a browser over the CryptoPanic infinite-scroll news page, clears the Cloudflare challenge, and loads more articles until it has `limit` of them or runs out of `max_retries`. It then reads each article element's fields:

- title, URL, date and source, each read with retries and a default;
- the source type, from the Twitter and YouTube icons;
- the linked currencies;
- the vote counts.

Records whose URL is already cached are skipped. New records are merged into the URL-keyed cache. Descriptions are fetched later, through a reader service or through a page-load retry loop, for the records that still lack one.

The model follows the source's structure:

- `wrappers.dfy` — `Option`.
- `seqs.dfy` — sequence identities for any element type.
- `pystr.dfy` — the Python string behaviour the scraper relies on:
  - `str.strip()`;
  - `str.replace(pat, '')`;
  - `str.split('/')` and its inverse `join`;
  - `int()` on a string, and `str()` of an int. `strip()` follows `str.isspace()` in full; `int()` trims the same characters except the information separators U+001C to U+001F, which make it raise.
- `article.dfy` — the `ArticleData` record of `news_scraper.py`, with its documented field shapes.
- `fields.dfy` — the per-element extractors of `CryptoPanicScraper`:
  - `retry_fetch_text` / `retry_fetch_attribute`;
  - `get_source_type`;
  - `get_currencies`;
  - `get_votes`.
- `scraper.dfy` — the rest of `CryptoPanicScraper`:
  - the cache file name;
  - `cloudflare_bypass`;
  - `collect_data`, both its load loop and its per-article pass;
  - `merge_data`;
  - the class, with its `data` and `cached_data` fields.
- `enrich.dfy` — description enrichment:
  - the reader-service URL and headers;
  - the selection of records that need a description;
  - the retry loop of `async_fetch_description_body`.
- `selectors.dfy` — the two pandas lines of `test_selectors.py`:
  - one row per distinct source;
  - the click-through redirect.

Everything the browser would report is an input to the model. For the field reads, the challenge marker and the page loads, this is a function from the attempt number to what that attempt observes. For `query_selector_all`, it is a `Listing` (raised, or the listed elements). For the load loop, it is a function from the iteration to the listed elements. The sentiment analyser is an opaque function from a title to a label and a confidence.

Loops that the source writes as loops are also Dafny methods with invariants:

- `RetryFetch`;
- `CloudflareBypass`;
- `LoadArticles`;
- `GetVotes`;
- `FetchDescriptionBody`;
- `CryptoPanicScraper.CollectData` and its per-article loop `CryptoPanicScraper.AppendRecords`;
- `CryptoPanicScraper.MergeData`.

`CloudflareBypass` states its properties outright. Each of the other methods is proved equal to a specification function, and that function's properties are proved as lemmas.

Where the code and the documentation of the system disagree, the model follows the code:

- **Singular vote titles.** A title such as "12 Important vote" is stored under the key "Important vote", not "Important". Only the plural word "votes" is removed (`Fields.VoteSingular`).
- **No currencies.** An article without currencies gets `['No currency']`, not "N/A".
- **The load loop.** It stops after `max_retries` iterations that fall short of `limit`, whether or not the count grew. It does not count a streak of iterations without new articles.
- **Back-off.** The wait between description attempts is commented as exponential in the code, but it is linear: `minimum_time * (attempt + 1)`.
- **A malformed vote title ends the vote loop.** When `int(title[:2])` raises, the exception leaves the loop, so that title and every later vote element are lost; they are not ignored one by one (`Fields.ParseVoteStop`, `Fields.VotesStopAt`).
- **Vote counts have at most two digits.** The count is `title[:2]`, so "123 Bullish votes" gives the count 12 under the key "3 Bullish" (`Fields.ParseVoteEntry` bounds every count to -9..99).
- **Cache file names can collide.** Filter "a_b" alone and filter "a" with topic "b" both use `cryptopanic_a_b_cache.json` (`Scraper.CacheFileNameCollision`).

## Model

| member | source | states |
|---|---|---|
| PyStr.IsSpace | api_news_scraper.py:363 | the whitespace of `str.isspace()`, which `strip()` removes: tab to carriage return, the information separators U+001C to U+001F, space, and the Unicode spaces U+0085, U+00A0, U+1680, U+2000 to U+200A, U+2028, U+2029, U+202F, U+205F and U+3000 |
| PyStr.StripLeft | api_news_scraper.py:363 | drops leading whitespace one character at a time; `StripLeftSpec` states what it keeps |
| PyStr.StripRight | api_news_scraper.py:363 | drops trailing whitespace one character at a time; `StripRightSpec` states what it keeps |
| PyStr.StripLeftSpec | api_news_scraper.py:363 | the left strip removes a whitespace-only prefix and stops at the first other character |
| PyStr.StripRightSpec | api_news_scraper.py:363 | the right strip removes a whitespace-only suffix and stops at the last other character |
| PyStr.Strip | api_news_scraper.py:363 | `str.strip()`: the result is no longer than the input, has no whitespace at either end, and is empty exactly when the input is all whitespace |
| PyStr.StripIdempotent | api_news_scraper.py:432 | stripping twice is stripping once, so a vote key is its own strip |
| PyStr.StripUnchanged | api_news_scraper.py:363 | a string without whitespace at either end is its own strip |
| PyStr.StripSurrounded | api_news_scraper.py:432 | whitespace around a string that has no whitespace at its ends is removed entirely |
| PyStr.RemoveAll | api_news_scraper.py:432 | `str.replace(pat, '')` never lengthens the string |
| PyStr.RemoveAbsent | api_news_scraper.py:432 | replacing a pattern that does not occur changes nothing |
| PyStr.RemoveKeepsPrefix | api_news_scraper.py:432 | a prefix in which no occurrence of the pattern starts survives a replace unchanged |
| PyStr.RemoveLeading | api_news_scraper.py:432 | a leading occurrence of the pattern that does not occur again is removed, and the rest is kept |
| PyStr.Split | test_selectors.py:10 | `str.split(sep)` gives at least one piece, and no piece contains the separator |
| PyStr.Join | test_selectors.py:10 | `sep.join(parts)`, the inverse of `Split` as `JoinSplit` states |
| PyStr.JoinSplit | test_selectors.py:10 | joining the split pieces with the separator gives back the original string |
| PyStr.SplitAtSep | test_selectors.py:10 | a separator-free head followed by the separator splits off as the first piece |
| PyStr.ParseInt | api_news_scraper.py:433 | `int()` on a string trims the whitespace `strip()` trims except the information separators U+001C to U+001F, and accepts only a string that is non-empty after stripping |
| PyStr.ParseRejectsSeparator | api_news_scraper.py:433 | an information separator anywhere, even at either end, makes `int()` raise |
| PyStr.ParseStripped | api_news_scraper.py:433 | `int()` once trimmed: an optional sign and at least one digit, read in decimal; `ParseDigits`, `ParseNegatedDigits` and `ParseRejectsLeading` state its cases |
| PyStr.ParseShortBound | api_news_scraper.py:431-433 | `int()` of a string of at most two characters lies between -9 and 99 |
| PyStr.ParseDigits | api_news_scraper.py:433 | `int()` of a digit string is its decimal value |
| PyStr.ParseNegatedDigits | api_news_scraper.py:433 | `int()` of "-" followed by digits is the negated value |
| PyStr.ParseDigitSpace | api_news_scraper.py:431-433 | a one-digit count followed by whitespace other than an information separator parses to that digit |
| PyStr.ParseTwoDigits | api_news_scraper.py:431-433 | a two-digit prefix parses to its two-digit value |
| PyStr.ParseRejectsLeading | api_news_scraper.py:433 | a string starting with something other than whitespace, a digit or a sign is rejected by `int()` |
| PyStr.IntToString | api_news_scraper.py:613 | `str(n)`: decimal digits after "-" for a negative `n`; `NatToStringNoLeadingZero` rules out leading zeros and `IntToStringRoundTrip` reads it back |
| PyStr.NatToStringNoLeadingZero | api_news_scraper.py:613 | the decimal digits of a natural number start with 0 only for zero itself, written "0" |
| PyStr.IntToStringRoundTrip | api_news_scraper.py:613 | `int(str(n)) == n` for every integer `n` |
| Article.SourceTypeName | news_scraper.py:34-35 | each of the three source types has a name that `ParseSourceType` reads back to it |
| Article.ParseSourceType | news_scraper.py:34-35 | a `source_type` string is accepted exactly when it is "link", "twitter" or "youtube" |
| Article.ParseSourceTypeInverse | news_scraper.py:34-35 | an accepted name is printed back as the same string |
| Article.ArticleId | news_scraper.py:26-28 | an id read from a `/news/<id>/<slug>` URL is a non-empty digit string |
| Article.RedirectId | news_scraper.py:29-31 | an id read from a `/news/click/<id>/` URL is a non-empty digit string |
| Article.ArticleIdOfPath | news_scraper.py:26-28 | every `/news/<id>/<slug>` path has id `<id>` |
| Article.ArticleIdOnlyOfPaths | news_scraper.py:26-28 | conversely, a URL with an id is exactly such a path |
| Article.RedirectIdOfPath | news_scraper.py:29-31 | the redirect path built from an id has that id |
| Article.MakeArticle | news_scraper.py:19-51 | a record is built exactly when the URL has an id and the date is an ISO datetime; the record is then well-formed and keeps the given title and URL |
| Article.WellFormed | news_scraper.py:19-51 | the documented shapes of a record: `url` is `/news/<id>/<slug>` for a numeric id, `redirect_url` is `/news/click/<id>/` for the same id, and `published_at` is an ISO datetime |
| Article.SameIdInRedirect | news_scraper.py:26-31 | in a well-formed record, `url` and `redirect_url` carry the same numeric id |
| Fields.FetchFrom | api_news_scraper.py:357-374 | the retry loop from attempt `attempt` on: a non-empty read returns that value stripped, anything else goes on to the next attempt, and after `max_retries` attempts the default is returned; `FetchFirstUsable` and `FetchDefault` state its outcome |
| Fields.Fetch | api_news_scraper.py:354-392 | `retry_fetch_text` and `retry_fetch_attribute`: the retry loop from the first attempt |
| Fields.RetryFetch | api_news_scraper.py:354-392 | the attempt loop returns the stripped value of the first non-empty read within `max_retries` attempts, or the default; attempts never exceed `max_retries`, and every attempt but the last got nothing usable |
| Fields.FetchFirstUsable | api_news_scraper.py:357-363 | the first attempt that reads a non-empty value decides the result, as that value stripped |
| Fields.FetchDefault | api_news_scraper.py:357-374 | when no attempt reads a non-empty value, the default is returned |
| Fields.FetchWhitespaceIsEmpty | api_news_scraper.py:362-363 | a whitespace-only value is truthy, so it comes back as "" and not as the default |
| Fields.SourceTypeOf | api_news_scraper.py:394-411 | the source type is "twitter" exactly when the Twitter icon is found; "youtube" exactly when only the YouTube icon is found; "link" when neither is found; "unknown" exactly when a query raised |
| Fields.SourceTypeDocumented | api_news_scraper.py:394-411 | the result is one of the record type's three names exactly when no icon query raised |
| Fields.Currencies | api_news_scraper.py:413-421 | the result is never empty: the ticker texts in order when at least one link is listed and every read succeeds, otherwise `['No currency']` |
| Fields.ParseVote | api_news_scraper.py:428-435 | one vote element: nothing for a missing or empty title, the end of the loop when `get_attribute` raises or `int()` rejects the prefix, otherwise the entry `VoteKey: VoteCount` |
| Fields.VoteCount | api_news_scraper.py:431-433 | `int(title[:2])`, or nothing where it raises |
| Fields.VoteKey | api_news_scraper.py:432 | the title with every occurrence of `title[:2]` and then of "votes" removed, stripped; `VotePlural` and `VoteSingular` give its value on the documented shapes |
| Fields.VoteNext | api_news_scraper.py:428-435 | one pass of the loop body: a stopped loop stays stopped, a skip changes nothing, a stop keeps the dictionary and ends the loop, an entry sets its key |
| Fields.VoteScan | api_news_scraper.py:427-435 | the loop over the elements in order, from an empty dictionary |
| Fields.Votes | api_news_scraper.py:423-436 | `get_votes`: the empty dictionary when the listing raises, otherwise the scan of the listed elements |
| Fields.ParseVoteSkip | api_news_scraper.py:429-430 | a missing or empty vote title contributes nothing, and nothing else is skipped |
| Fields.ParseVoteStop | api_news_scraper.py:428-435 | the vote loop ends exactly at a raising `get_attribute` or at a two-character prefix that `int()` rejects |
| Fields.ParseVoteEntry | api_news_scraper.py:430-433 | an entry comes from a non-empty title; its count is `int()` of the two-character prefix, between -9 and 99, and its key has no surrounding whitespace |
| Fields.VoteKeysFromEntries | api_news_scraper.py:433 | every key of the vote dictionary, with its count, comes from some element's entry |
| Fields.VoteLastEntryWins | api_news_scraper.py:428-433 | conversely, an entry before any stop, with no later entry for the same key, gives its key's count |
| Fields.StoppedStays | api_news_scraper.py:434-435 | once an exception has left the loop, later elements change nothing |
| Fields.RunningUntilStop | api_news_scraper.py:428-433 | the loop keeps running until the first failing element |
| Fields.ScanStopAt | api_news_scraper.py:428-435 | a scan whose first stop is at step `i` keeps exactly the dictionary of the steps before `i` |
| Fields.VotesStopAt | api_news_scraper.py:423-436 | a failure at element `i` keeps exactly the dictionary built by the elements before `i` |
| Fields.GetVotes | api_news_scraper.py:423-436 | the loop's dictionary equals the specification `Votes`; a raising listing gives the empty map |
| Fields.VotePlural | api_news_scraper.py:430-433 | a title "N Label votes" gives the entry `Label: N` when "N " does not occur again and the label has no "votes" and no whitespace at its ends |
| Fields.VotePluralTwoDigits | api_news_scraper.py:430-433 | a title "NN Label votes" gives the entry `Label: NN` when "NN" does not occur again and the label has no "votes" and no whitespace at its ends |
| Fields.VoteSingular | api_news_scraper.py:430-433 | a title "NN Label vote" gives the entry `"Label vote": NN` when "NN" does not occur again and the label has no "votes" and no whitespace at its ends |
| Fields.VoteWithoutCount | api_news_scraper.py:431-435 | a title starting with something other than a digit, a sign or whitespace ends the loop |
| Scraper.NamePartInjective | api_news_scraper.py:44-45 | a name part is empty exactly for a falsy setting and otherwise starts with `_`; equal parts come from settings that are both falsy or both the same truthy string |
| Scraper.CacheFileName | api_news_scraper.py:43-46 | the name starts with "cryptopanic", ends with "_cache.json", holds the filter part and then the topic part in between, and is "cryptopanic_cache.json" when neither is set |
| Scraper.CacheFileNameDeterminesFilter | api_news_scraper.py:43-46 | without a topic, the file name determines the filter |
| Scraper.CacheFileNameCollision | api_news_scraper.py:43-46 | with both settings in use, two different configurations can share a cache file |
| Scraper.JoinPath | api_news_scraper.py:47 | `os.path.join` ends with the file name; an absolute name replaces the directory; a relative name follows the directory and a "/", the "/" left out when the directory is empty or already ends with one |
| Scraper.DefaultCachePath | api_news_scraper.py:25-47 | with the default `save_path` the cache file is `news_data/` followed by the file name |
| Scraper.CloudflareBypass | api_news_scraper.py:137-152 | at most five solve attempts, each made while the marker is present; the gate clears exactly when some check among the first five finds no marker, after `solves + 1` checks; otherwise it fails after five |
| Scraper.LoadLoop | api_news_scraper.py:236-254 | the load loop from a given iteration: it runs while fewer than `limit` elements are listed and `retries < max_retries`, and leaves at once when a listing reaches `limit`, otherwise counting a retry |
| Scraper.LoadResult | api_news_scraper.py:231-254 | the load loop from its start, with nothing listed and no retries |
| Scraper.LoadNothing | api_news_scraper.py:232-236 | with `limit <= 0` or `max_retries <= 0` the load loop does not run and loads nothing |
| Scraper.LoadLoopReaches | api_news_scraper.py:236-254 | short iterations carry the loop forward to the first one that reaches `limit`, or to the last allowed one |
| Scraper.LoadStopsAtLimit | api_news_scraper.py:236-249 | the loop leaves at the first iteration whose listing reaches `limit`, keeps that listing, and counts the short iterations before it as retries |
| Scraper.LoadExhausted | api_news_scraper.py:236-254 | when no listing reaches `limit`, all `max_retries` iterations run and the last listing is kept |
| Scraper.LoadArticles | api_news_scraper.py:231-254 | the loop's listing and counters equal the specification `LoadResult`; iterations never exceed `max_retries` |
| Scraper.Take | api_news_scraper.py:262 | Python's `s[:n]`: a prefix of `s` whose length is `n` clamped to `0..len(s)`, or `len(s) + n` clamped the same way when `n` is negative |
| Scraper.ExtractOne | api_news_scraper.py:262-324 | an element is skipped exactly when its title comes back "Untitled" or its URL is already cached; otherwise the record keeps the title and URL it read, has a non-empty currency list and no description |
| Scraper.ExtractArticle | api_news_scraper.py:262-324 | the loop body, which runs the extractors in the source's order, produces `ExtractOne` |
| Scraper.Kept | api_news_scraper.py:318 | an element appends at most one record |
| Scraper.Harvest | api_news_scraper.py:262-321 | the per-article pass: the record of each element that yields one, in element order |
| Scraper.HarvestPrefixStep | api_news_scraper.py:262-321 | the pass over one more element appends exactly what that element yields |
| Scraper.HarvestAppend | api_news_scraper.py:262-327 | elements are handled independently: the pass over a concatenation is the concatenation of the passes |
| Scraper.HarvestComplete | api_news_scraper.py:262-318 | every element that passes both checks contributes its record |
| Scraper.HarvestSound | api_news_scraper.py:262-318 | every record comes from some element of the batch |
| Scraper.HarvestFiltered | api_news_scraper.py:270-282 | no record is titled "Untitled" or has a URL that was already cached |
| Scraper.DuplicatesNotFiltered | api_news_scraper.py:279-282 | only the cache is consulted, not `self.data`, so an element listed twice is recorded twice |
| Scraper.HarvestNone | api_news_scraper.py:262-282 | a batch in which every element is skipped adds nothing |
| Scraper.Collected | api_news_scraper.py:231-329 | the records one `collect_data` adds: nothing when the final listing is empty, otherwise the pass over its first `limit` elements |
| Scraper.CollectedBounds | api_news_scraper.py:231-329 | one collection adds nothing when `limit` or `max_retries` is not positive; otherwise at most `limit` records, all titled and none already cached |
| Scraper.MergeInto | api_news_scraper.py:460-463 | the merged keys are the old keys plus the new records' URLs |
| Scraper.MergeLastWins | api_news_scraper.py:462-463 | a URL that occurs several times maps to its last record |
| Scraper.MergeKeepsOthers | api_news_scraper.py:462-463 | a cached key that no new record has keeps its old record |
| Scraper.HarvestAfterMerge | api_news_scraper.py:279-282 | after `merge_data`, the same elements add nothing new, because every kept URL is now cached |
| Scraper.CryptoPanicScraper.constructor | api_news_scraper.py:19-54 | the settings are stored, and the file name and path are built from them; `data` starts empty and the cache is the loaded one |
| Scraper.CryptoPanicScraper.CollectData | api_news_scraper.py:231-329 | `data` grows by exactly the records `Collected` describes, in order; the cache is only read |
| Scraper.CryptoPanicScraper.AppendRecords | api_news_scraper.py:262-327 | the per-article loop appends exactly the records of `Harvest` for the batch, in element order, and leaves the cache unchanged |
| Scraper.CryptoPanicScraper.MergeData | api_news_scraper.py:460-463 | the new cache is `MergeInto` of the old one and `data`, and `data` is unchanged |
| Enrich.ReaderUrlInjective | api_news_scraper.py:525 | distinct article URLs are requested at distinct reader URLs |
| Enrich.ReaderHeaders | api_news_scraper.py:527-534 | Accept, X-Engine and X-Return-Format always have their fixed values; Authorization is present exactly when the API key is truthy, and it is then "Bearer <key>"; the map has four keys or three |
| Enrich.NeedsDescription | api_news_scraper.py:650-651 | a record needs a description when it has none or an empty one and its source type is neither "twitter" nor "youtube" |
| Enrich.ArticlesToUpdate | api_news_scraper.py:648-652 | the selection is never longer than the data it filters; with `ArticlesToUpdateAppend`, `ArticlesToUpdateSkips` and `ArticlesToUpdateAll` it is the records that need a description, in order, each as often as it occurs |
| Enrich.ArticlesToUpdateSound | api_news_scraper.py:648-652 | every selected record is an input record that has no description yet and is not a Twitter or YouTube post |
| Enrich.ArticlesToUpdateComplete | api_news_scraper.py:648-652 | every input record that needs a description is selected |
| Enrich.ArticlesToUpdateAll | api_news_scraper.py:648-652 | a list whose records all need a description is selected whole, in order |
| Enrich.ArticlesToUpdateAppend | api_news_scraper.py:648-652 | the selection of a concatenation is the concatenation of the selections, so order and repeats are kept |
| Enrich.ArticlesToUpdateSkips | api_news_scraper.py:648-652 | a record that needs no description is dropped |
| Enrich.ArticlesToUpdateIdempotent | api_news_scraper.py:648-652 | selecting again changes nothing |
| Enrich.DescribedNotSelected | api_news_scraper.py:650 | a record that has been given a non-empty description is not selected again |
| Enrich.ExhaustedMessage | api_news_scraper.py:613 | the text returned when every attempt was retried |
| Enrich.ExhaustedMessageCount | api_news_scraper.py:613 | the exhaustion message is "Error: Failed after ", then a number, then " retries", and that number reads back as `max_retries` |
| Enrich.DefaultExhaustedMessage | api_news_scraper.py:554-613 | with the default of five attempts the message is "Error: Failed after 5 retries" |
| Enrich.DescriptionFrom | api_news_scraper.py:565-613 | the loop from attempt `attempt` on: content is returned at once; 429, 502 and maintenance are retried; an exception is retried except on the last attempt, which returns its message; after `max_retries` attempts the exhaustion message is returned |
| Enrich.Description | api_news_scraper.py:554-613 | the loop from the first attempt |
| Enrich.DescriptionFromReaches | api_news_scraper.py:565-609 | retried attempts carry the loop forward unchanged |
| Enrich.DescriptionFirstContent | api_news_scraper.py:565-600 | the first content loaded within `max_retries` attempts is returned |
| Enrich.DescriptionLastFailure | api_news_scraper.py:602-611 | an exception on the last attempt, with no content before it, returns "Error fetching content: " and its message |
| Enrich.DescriptionExhausted | api_news_scraper.py:565-613 | with no content, and with the last attempt rate-limited, a bad gateway or maintenance, the loop returns the exhaustion message |
| Enrich.DescriptionErrorWithoutContent | api_news_scraper.py:565-613 | when no attempt loads content, the returned text starts with "Error" |
| Enrich.FetchDescriptionBody | api_news_scraper.py:565-613 | the loop returns `Description`; it waits `j + 1` time units after each retried attempt `j` (linear back-off); it makes at most `max_retries` attempts, and either all of them were retried or the last one returned |
| Selectors.NewsRedirect | test_selectors.py:10 | a redirect is built exactly when the URL has a third `/`-piece, and it starts with the click base |
| Selectors.NewsRedirectOfPath | test_selectors.py:10 | for `/news/<id>/<slug>` the redirect uses exactly `<id>` |
| Selectors.NewsRedirectOfArticle | test_selectors.py:10 | for a well-formed record the constructed redirect is the site URL of its own `redirect_url` |
| Selectors.FirstIndices | test_selectors.py:9 | the index labels kept by `drop_duplicates()` are exactly the first occurrences, in increasing order |
| Selectors.UniqueSourceRows | test_selectors.py:9 | the unique-source table has no more rows than the cache |
| Selectors.IncreasingBounded | test_selectors.py:9 | a strictly increasing index list below `n` has at most `n` entries |
| Selectors.FirstOccurrenceExists | test_selectors.py:9 | every value has a first occurrence at or before any of its occurrences |
| Selectors.UniqueSourceOnePerSource | test_selectors.py:9 | exactly one kept row per distinct source: kept sources are pairwise distinct, and every source of the cache is kept |
| Selectors.UniqueSourceFirstInOrder | test_selectors.py:9 | the kept rows are first occurrences, taken in their original order |

## Left out

- Browser and network calls are not run. What `page.find("Ray ID")`, `query_selector`, `query_selector_all`, `inner_text`, `get_attribute` and `page.goto` report becomes an input, and so do the HTTP status of a page load and the visibility of the maintenance texts. `verify_cf`, `page.sleep` and `save_screenshot` are assumed to return normally. The reader-service request (`requests.get`) is not modelled.
- `search_topic`, `load_more`, `run`, `get_news_sentiment` and `main.py` are not part of this model. They drive the browser and the process.
- `analyze_sentiment_with_vader` is an opaque function (`analyze`): the VADER lexicon, its scoring, and the 0-100 confidence clamp are not modelled.
- Timing is not modelled: `asyncio.sleep`, `page.sleep`, and the `minimum_time` rate limit.
- `FetchDescriptionBody`: the back-off is recorded as its multiplier of `minimum_time` and is not slept.
- Persistence is not modelled: `load_cached_data`, `save_data`, `save_data_to_db`, the directory creation in the constructor, and the screenshot in `cloudflare_bypass`. The constructor takes the loaded cache as a parameter.
- `fetch_description_body_jina`: only its URL and headers are modelled. The HTTP request, the JSON decoding of the response, and the implicit `None` on a non-200 status without an error are not.
- `update_descriptions` is outside the modelled core: it is a sequential loop over the records that calls the reader service over HTTP and sleeps to respect its rate limit. Its selection tests only `description_body` and does not skip Twitter or YouTube records, so `ArticlesToUpdate` does not describe it.
- The page-pool fan-out of `async_update_descriptions` is left out because it is concurrency. Only its selection of records that need a description is modelled (`ArticlesToUpdate`).
- `ArticlesToUpdate` works on a list of records. With `update_cached_data=True` the source iterates the cache dictionary, whose items are its URL keys; that path is not modelled.
- Records are Dafny values. The source shares the same dictionary objects between `data` and `cached_data`, so setting a description on one changes the other; that aliasing is not modelled.
- `MergeInto`: a Dafny map has no order, so the insertion order of the cache dictionary is not modelled.
- `CloudflareBypass`: an exception from `page.find` itself is not modelled, nor an exception from `verify_cf` or `save_screenshot`, and neither is a challenge that reappears during the sleep. In the source, `verify_cf` raising during attempts 1 to 4 fails the gate early; the model claims a clean later check clears it and that failure comes only after five solves.
- `Scraper.CryptoPanicScraper.CollectData`: an exception from the listing `query_selector_all` propagates in the source and is not modelled. An exception inside a single article is impossible in the model, because every extractor catches its own.
- `PyStr.ParseInt`: only ASCII digits are modelled. Python's `int()` also accepts other Unicode decimal digits and underscores between digits. A two-character prefix cannot hold an underscore between digits; CryptoPanic's vote titles are ASCII, so a non-ASCII digit does not arise there.
- The configuration tables, the API credentials of `test_selectors.py`, and its request loop are not modelled. Only lines 9-10 are.
- The `NewsArticleScraper` class of `news_scraper.py` is not part of this model. Only its `ArticleData` record is.
