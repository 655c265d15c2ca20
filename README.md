# ccgp-search core, modelled and verified in Dafny

`auto.py` searches the Chinese government procurement portal (search.ccgp.gov.cn) for notices that
match a keyword within a date window. It then opens each hit, keeps the pages whose text contains a
second filter keyword, takes a full-page screenshot of each kept page, and writes a manifest of what
it kept. This project models the deterministic logic inside that script and proves what it does.
The browser is replaced by data the caller supplies.

- `dates.dfy` (`DateRanges`): `split_date_range_backward`.
  - Dates are integer day ordinals, so `timedelta(days=365)` is integer subtraction. The bounds of `datetime` are not modelled (see "Left out").
  - A range bound is either a formatted day or the caller's raw start text (`Bound.Raw`). This makes the patch of the first range's start visible in the result.
  - An argument that `strptime` cannot parse has `parsed == None`.
  - The method keeps the `while` loop that prepends ranges and patches the first one. It is proved equal to `Partition`, and the partition's shape and error cases are proved as lemmas.
- `query.dfy` (`QueryString`): `generate_params` on byte strings.
  - `quote(..., safe='')` leaves only the unreserved set of section 2.3 of RFC 3986 unencoded. Every other byte becomes `%XX` with upper-case hex, as in section 2.1.
  - The 16 fields are joined with `&`, in the order of the dict literal.
  - The query string is proved to parse back to its inputs.
- `errors.dfy` (`Errors`): the exceptions the core raises, and the `Result` and `Option` wrappers.
- `crawler.dfy` (`Crawl`): `get_search_list`, with `get_total_results` reduced to its outcome (a count or `None`).
  - The global `RETRY_TIMES` becomes the `retrySeconds` field of class `Crawler`. A ghost log records every back-off sleep (auto.py:98) and every page index fetched.
  - The browser is a script of responses, consumed one per fetch. Each response has a rate-limited flag, an optional result count and the listing items.
  - The retry recursion and the page recursion become one loop in `Crawler.GetSearchList`. That loop is proved equal to the recursive `Search`, and `Search`'s outcome is proved equal to an independent reference, `Expected`.
- `filter.dfy` (`Filter`): `filter_content`. Result pages come from a function from link to rendered page, which stands for the browser. A rendered page has:
  - its text;
  - whether `<body>` appears before the wait times out;
  - its scroll height;
  - the viewport height;
  - a capture function from scroll offset to the captured image's size.

  The method keeps the loops over the results, over the viewport offsets, and over the pastes.
- `numbers.dfy` (`Numbers`): the maximum and the exact ceiling division used by the walk, the page count and the slice count.
- `run.dfy` (`App`): `main`.
  - The dates are split, each range is crawled in order with the same crawler, and the hits are concatenated.
  - Only `ValueError` is caught; it ends the run before filtering. Every other exception escapes `main`.
  - `App.Ending` says how a call ends: `Quit`, `Crashed(error)`, `Stalled` (the script of responses ran out before the crawl finished, while retrying or with pages still to fetch) or `Finished(report)`.

Where the code and its description disagree, the model follows the code:

- `split_date_range_backward` with equal start and end dates leaves `date_ranges` empty. The patch at auto.py:235 then raises `IndexError`; it does not return a one-range partition. `main` catches only `ValueError` (auto.py:250), so such a run crashes.
- When the result count is missing, `get_total_results` returns `None`. `int(None)` at auto.py:111 then raises `TypeError`; the range is not treated as empty. The error escapes `main`.
- Exceptions from one page are not confined to that page. A capture timeout (auto.py:170), a zero viewport height (`range` with step 0, auto.py:185) or a zero page height (`screenshots[0]`, auto.py:192) ends `filter_content`, and `main` with it.
- The manifest is rewritten after every result, matched or not (auto.py:202-205), not once at the end.
- When there are no search results at all, the manifest was never written. `os.remove` at auto.py:208 then raises `FileNotFoundError` (`MainNoResults`).
- The driver is closed only on the `ValueError` path and at the end, not when another exception escapes.

## Model

| member | source | states |
|---|---|---|
| Numbers.CeilDiv | auto.py:111 | `math.ceil(a / b)` for b > 0: the least q with q·b ≥ a, never negative for a ≥ 0 |
| Numbers.CeilDivUnique | auto.py:185 | ceil(a/b) is the only n with n·b ≥ a > (n−1)·b, so `range(0, H, V)` has ceil(H/V) steps |
| DateRanges.Walk | auto.py:224-231 | the ranges the `while` loop prepends from `current_end_date`: none iff the current end is not after the start date, and otherwise the newest ends on the current end, formatted |
| DateRanges.Partition | auto.py:216-237 | what the function returns or raises; when it returns, both dates parsed, start < end, and there is at least one range, the last ending on the formatted end date |
| DateRanges.WalkExit | auto.py:226-233 | `current_end_date` when the loop exits, which decides the patch: never after the start date, and at most one day before it once the loop has run |
| DateRanges.SplitDateRangeBackward | auto.py:216-237 | the loop returns exactly `Partition`: ValueError for an unparsed date or start > end, else the backward walk with the first start patched to the raw start text when the walk lands on the start |
| DateRanges.WalkAt | auto.py:224-231 | counting from the newest range, range j ends 366·j days before the end date and starts 365 days before its own end, clamped at the start date |
| DateRanges.WalkLength | auto.py:224-231 | the loop produces ceil((end − start) / 366) ranges |
| DateRanges.WalkExitAt | auto.py:226-233 | the loop exits with `current_end_date == start_date` exactly when end − start is a multiple of 366, otherwise one day before the start |
| DateRanges.PartitionShape | auto.py:224-235 | for start < end: ceil((end−start)/366) ranges, oldest first, contiguous (each ends the day before the next starts), the first starting on the start date and the last ending on the end date; every non-first range spans 365 days; the first start is the raw text exactly when end − start is a multiple of 366, and then spans 366 days, otherwise 1 to 365 |
| DateRanges.PartitionErrors | auto.py:216-235 | the call fails iff a date does not parse or start ≥ end; ValueError iff unparsed or start > end; IndexError iff start == end |
| DateRanges.ThreeRanges | auto.py:216-237 | 2019:01:01 to 2021:06:15 gives three ranges (days 0–164, 165–530, 531–896), unpatched |
| QueryString.Quote | auto.py:38-40 | `quote(s, safe='')`: each byte becomes one character (unreserved) or three (`%XX`), so the text is 1 to 3 times as long as the input |
| QueryString.HexRoundTrip | auto.py:38-40 | a hex digit emitted for a nibble reads back as that nibble |
| QueryString.QuoteAlphabet | auto.py:38-40 | every character of `quote(s, safe='')` is unreserved, `%` or a hex digit |
| QueryString.QuoteHasNoDelimiters | auto.py:38-40 | encoded values contain no raw `&`, `=`, `:` or `/` |
| QueryString.QuoteUnreserved | auto.py:38-40 | bytes that are all unreserved are left unchanged |
| QueryString.UnquoteQuote | auto.py:38-40 | percent-decoding an encoded value gives back the original bytes |
| QueryString.ParseNatDigits | auto.py:61 | the decimal digits of a natural number read back as that number |
| QueryString.ParseDecimalRoundTrip | auto.py:61 | `page_index` rendered in decimal (with a sign when negative) reads back as the same integer |
| QueryString.DecimalHasNoDelimiters | auto.py:61 | the rendered page index contains no `&` or `=` |
| QueryString.KeysArePlain | auto.py:42-59 | no parameter name contains `&` or `=` |
| QueryString.FieldsPlain | auto.py:42-61 | no `key=value` field contains `&`, and no value contains `=` |
| QueryString.GenerateParams | auto.py:37-62 | the query string is the 16 `key=value` fields joined by `&`: splitting it at `&` gives exactly those fields, in the dict's order (searchtype … agentName) |
| QueryString.FieldPairs | auto.py:42-61 | each field splits at `=` into its parameter name and its value |
| QueryString.ParseFieldsRoundTrip | auto.py:42-61 | the 16 fields determine start time, end time, keyword and page index |
| QueryString.ParseGenerateParams | auto.py:37-62 | the query string determines its inputs: parsing it recovers start time, end time, keyword and page index |
| Crawl.Crawler.constructor | auto.py:21 | a fresh crawler starts with a 60-second retry and empty logs |
| Crawl.Anchored | auto.py:116-123 | the results the loop over `li_tags` appends, one per item with an `<a>`: never more than the items |
| Crawl.AnchoredIff | auto.py:116-123 | a hit is returned iff some listing item carries it as its anchor; items without an anchor are skipped |
| Crawl.FetchPage | auto.py:88-102 | fetch one page until a response is not rate-limited: consumes responses, and at least one when it returns a page |
| Crawl.TotalPages | auto.py:103-111 | `total_pages` after a response: counted only on page 1 when not yet known, as ceil(count / 20), and missing (the TypeError path) exactly when the count is; otherwise passed on unchanged |
| Crawl.Search | auto.py:84-128 | `get_search_list` over the script: the outcome, the responses left and the new retry and logs; a failure is always the TypeError of a missing count |
| Crawl.SearchNext | auto.py:124-127 | a response that leaves pages to fetch hands the rest of the script and the log on to the call for the next page |
| Crawl.Crawler.GetSearchList | auto.py:84-128 | the iterative crawl returns the outcome and unread responses of `Search` from page 1, and leaves retry and logs as `Search` does |
| Crawl.FetchPageBackoff | auto.py:94-102 | after k rate-limited responses the crawler has slept r, 2r, 4r, … (k sleeps) and refetched the same page each time; the first clean response resets the retry to 10; with no clean response the retry is r·2^k |
| Crawl.InitialBackoff | auto.py:95-99 | from the initial value the sleeps are 60, 120, 240, 480 |
| Crawl.FetchPageAccepted | auto.py:94-102 | a fetch returns the first response that is not rate-limited, if any, and leaves the rest |
| Crawl.SearchCollects | auto.py:103-127 | with `total_pages` t, a crawl from page p returns the items of the next max(1, t−p+1) clean responses in order, or runs out of script |
| Crawl.CrawlCollects | auto.py:103-127 | a crawl from page 1 equals the reference: TypeError when page 1 has no count, otherwise the concatenated items of the first max(1, ceil(total/20)) clean responses, page 1 kept even when the total is 0 |
| Crawl.FortyFiveResults | auto.py:103-127 | 45 results are read as three pages whose items are concatenated in page order |
| Crawl.SearchLogShape | auto.py:88-127 | every response consumed logs one page index; earlier log entries are kept and the first new one is the starting page |
| Crawl.SearchPageOrder | auto.py:94-127 | the page indices fetched never decrease and go up by at most one from fetch to fetch |
| Crawl.SearchLastPage | auto.py:124-127 | a completed crawl with `total_pages` t from page p last fetched page max(p, t) |
| Crawl.CrawlLastPage | auto.py:103-127 | a completed crawl from page 1 last fetched page max(1, ceil(total/20)) |
| Filter.Contains | auto.py:160 | `filter_keyword in text`: the empty keyword is in every text, and a keyword found is no longer than the text |
| Filter.ContainsIff | auto.py:160 | `filter_keyword in text` holds iff the keyword occurs at some position of the text |
| Filter.Slices | auto.py:185-189 | the captures of `range(0, H, V)`: as many as cover H in steps of V with none wholly past it, capture k taken at offset k·V |
| Filter.Capture | auto.py:185-189 | V = 0 raises ValueError; otherwise ceil(H/V) captures are taken, capture k at scroll offset k·V, in order |
| Filter.Stitch | auto.py:192-197 | no captures raises IndexError; otherwise the canvas is as wide as the first capture and H tall, and each capture is pasted at the sum of the heights before it |
| Filter.UniformPlacement | auto.py:194-197 | with captures all V tall, capture k is pasted at k·V, and the heights sum to n·V |
| Filter.Picture | auto.py:170-197 | the full-page image of a kept page, or what capturing it raises; an image means the body appeared, both heights are positive, the canvas is as tall as the page and has at least one paste |
| Filter.PictureOutcome | auto.py:170-197 | TimeoutException iff no body, ValueError iff the viewport height is 0, IndexError iff the page height is 0; otherwise a canvas of the page's height, as wide as the first capture, with ceil(H/V) captures taken at k·V |
| Filter.ThreeSlices | auto.py:185-197 | an 1850-pixel page in an 800-pixel viewport is captured at 0, 800 and 1600 onto an 1850-pixel canvas |
| Filter.Screenshot | auto.py:170-197 | the capture steps return exactly `Picture` |
| Filter.Manifest | auto.py:203-205 | the manifest text, `title\nhref\n\n` per kept result: at least three characters per record, and empty iff nothing was kept |
| Filter.ManifestAppend | auto.py:203-205 | the manifest of a concatenation is the concatenation of the manifests |
| Filter.ManifestRoundTrip | auto.py:203-205 | for one-line titles and links, the manifest `title\nhref\n\n…` parses back to exactly the kept results |
| Filter.Matching | auto.py:153-163 | the results whose page contains the filter keyword, in input order: never more than the results |
| Filter.Pictures | auto.py:161-197 | the images of the kept pages in order, or the first capture exception; one image per kept page |
| Filter.FilterSpec | auto.py:143-213 | what `filter_content` leaves or raises; when it returns there were results, one image per kept result, at most as many kept as results, and a manifest iff any were kept |
| Filter.MatchingAppend | auto.py:153-163 | filtering keeps input order: results kept from a prefix come before those kept from the rest |
| Filter.PicturesAppend | auto.py:153-197 | once a capture has failed, later pages change nothing: the first exception is the one raised |
| Filter.PicturesSnoc | auto.py:161-197 | capturing one more kept page appends its image, or raises what its capture raises |
| Filter.FilterStepFails | auto.py:153-197 | a capture that fails on a kept result is the exception `filter_content` raises |
| Filter.FilterStep | auto.py:153-197 | one turn of the loop extends the kept results by the result iff its page has the keyword, and its image or exception follows |
| Filter.FilterContent | auto.py:143-213 | the loop returns exactly `FilterSpec`: the kept results, their images and manifest, the first capture exception, or FileNotFoundError when there were no results |
| Filter.MatchingIff | auto.py:153-163 | a result is kept iff it is among the inputs and its page text contains the filter keyword |
| Filter.PicturesOk | auto.py:153-197 | capturing succeeds iff every kept page can be captured, and then image k is kept page k's picture |
| Filter.FilterReport | auto.py:143-213 | a returning call had results; it reports the kept results with one image each, and a manifest of exactly them iff any were kept |
| Filter.FilterFails | auto.py:143-213 | the call raises iff there were no results or some kept page cannot be captured; with no results it raises FileNotFoundError |
| App.CrawlRanges | auto.py:246-249 | the loop over the date ranges, each crawled from page 1 on the responses the previous left; its only error is the TypeError of a missing count |
| App.Caught | auto.py:250-253 | the `except ValueError`: a ValueError ends `main` quietly, any other exception escapes it unchanged |
| App.MainSpec | auto.py:240-256 | how `main` ends and the crawler state it leaves; quitting means the date split raised ValueError and nothing was fetched; a finished run has one image per kept result |
| App.RunMain | auto.py:240-256 | `main` ends and leaves the crawler exactly as `MainSpec` says |
| App.CrawlRangesAppend | auto.py:246-249 | the hits of earlier ranges come before those of later ones; each range is crawled on the responses the previous left |
| App.MainQuits | auto.py:250-253 | `main` quits through the caught ValueError iff a date does not parse or start > end |
| App.MainEqualDates | auto.py:244-253 | equal dates crash `main` with IndexError before anything is fetched |
| App.MainNoResults | auto.py:206-210 | a crawl that finds nothing crashes `main` with FileNotFoundError |
| App.MainFinished | auto.py:240-256 | a finished run split the dates and crawled every range; its report keeps exactly the crawled hits whose page contains the filter keyword, in crawl order, with one image each, and a manifest iff any were kept |

## Left out

- The Tkinter form, its handlers, `ConsoleRedirector` and the worker thread (auto.py:25-34, 259-344): user interface and concurrency.
- `init_driver`, `driver.get`, `page_source` and `driver.quit`. The browser is modelled as a script of search responses and as a function from link to rendered page. One link always renders the same page.
- BeautifulSoup. A response carries its outcome: the listing items, each with an optional title/link anchor, and the result count as an optional integer (the `IndexError`/`ValueError` that `get_total_results` catches give `None`).
- Request URLs. `GenerateParams` models the query string, but the crawl does not record which URL each fetch used; `keyword` enters only through that URL, so `App.RunMain` takes no search keyword.
- Crawl.Crawler.GetSearchList: the script of responses is finite and the browser is not, so the model reports `OutOfScript` (`App.Ending.Stalled`) when the script runs out, while retrying or with pages still to fetch. This outcome stands for no behaviour of the source; it is where the model's input ends.
- Crawl.Search: `get_search_list` recurses once per fetch, for a retry (auto.py:100) and for the next page (auto.py:124-125). After about 1000 nested fetches Python raises `RecursionError`, which the `except ValueError` of `main` (auto.py:250) does not catch. The model is iterative and unbounded, so `Search`, `Crawl.Crawler.GetSearchList`, `Crawl.CrawlCollects` and `Crawl.CrawlLastPage` hold for every total, including crawls that long.
- DateRanges.Partition: subtracting a `timedelta` below `datetime.min` (auto.py:228, 231) raises `OverflowError`. Day ordinals are unbounded, so `Partition` returns ranges for every start < end, even a start in year 1.
- Crawl.Anchored: `a_tag['href']` (auto.py:122) raises `KeyError` for an `<a>` without an `href`. A listing item carries either a complete title/link pair or nothing, so this error cannot arise in the model.
- Numbers.CeilDiv: `math.ceil(int(total) / 20)` is computed exactly. Float rounding for counts above 2^53 is not modelled.
- `time.sleep`. The back-off sleeps (auto.py:98) are logged as durations, not waited. The fixed settle delays are left out: `time.sleep(1)` after each search fetch (auto.py:91) and after each result visit (auto.py:157), and `time.sleep(0.5)` after each scroll (auto.py:187).
- `strftime`/`strptime`. The formatted text of a day is abstracted as `Formatted(day)`, and a parse failure as `parsed == None`.
- The JavaScript highlight (auto.py:174-175). It runs in the browser on `innerHTML`; its effect is inside the rendered page's heights and captures. The filter keyword is pasted unescaped into a JavaScript string and a `RegExp`. A keyword with a `'` or an unbalanced `(` or `[` makes `execute_script` raise `JavascriptException`, which ends `filter_content` and `main`. The model does not have this error.
- PIL: pixel decoding, clipping of the last slice at the canvas edge, and saving. Only the sizes, offsets and paste positions are modelled.
- Filesystem effects: the `screenshots` and timestamped directories, screenshot file names (the collision check at auto.py:166 looks in the working directory), the manifest file on disk, and `os.rmdir`. The manifest is modelled as the text of its last write. A manifest left on disk by a run that raised midway is not modelled.
- Console output (`print`).
