# Morocco payments dashboard — data-acquisition core in Dafny

This project models the data-acquisition core of the Morocco digital-payments
Streamlit dashboard (`dashboard/dashboard.py`):

* `get_bam_report_data` — finds the newest Bank Al-Maghrib annual report on
  the institutional-publications page (`get_latest_report_url`), downloads it
  and turns its pages into one text with whitespace runs collapsed
  (`extract_text_from_pdf`), pulls the POS and mobile-wallet figures out of the
  text with two independent rules (`parse_payment_data`, `clean_value`), and
  falls back to a fixed nine-row table whenever a step comes up empty. It also
  records where the figures came from in the session entry `bam_source_url`.
* `get_app_store_data` — walks the two wallet registries
  (`wallet_apps_android`, `wallet_apps_ios`), turns each successful store
  lookup into one normalised row, skips failed lookups, and returns the Android
  rows followed by the iOS rows.

Everything outside the program becomes an input. This covers the landing-page
fetch and HTML parse, the PDF download and decoding, the three regular-expression
searches, the Play Store scraper, the iTunes lookup and the local-time
conversion of the Android update timestamp.

Modules:

| file | module | models |
|---|---|---|
| `wrappers.dfy` | `Wrappers` | `Option` (Python's `None`) |
| `strings.dfy` | `Strings` | Python's `\s`, `re.sub(r'\s+', ' ', _)`, `'2023' in v`, `clean_value`'s normalisation, the strings `float()` accepts |
| `locator.dfy` | `Locator` | `get_latest_report_url` |
| `extractor.dfy` | `Extractor` | `extract_text_from_pdf` (its page loop is a `method` with a loop invariant) |
| `parser.dfy` | `Parser` | `parse_payment_data` as written and as corrected |
| `report.dfy` | `Report` | `get_bam_report_data`, the fallback table, the `bam_source_url` session entry (a `class` whose method updates it) |
| `appstore.dfy` | `AppStore` | the registries and `get_app_store_data` (its two loops form a `method`) |

Numbers stay symbolic. A parsed cell keeps the normalised token that
`clean_value` hands to `float()` (`Parser.Cell`). The float value, its
one-decimal rendering and the rounded growth percentage are not computed.

## Model

| member | source | states |
|---|---|---|
| Strings.Collapse | dashboard/dashboard.py:65 | collapsing whitespace runs gives an empty result exactly for empty input; the result starts with whitespace exactly when the input does, holds no whitespace but the plain space, and never has two whitespace characters in a row |
| Strings.CollapseRun | dashboard/dashboard.py:65 | a non-empty run of whitespace characters of any kind becomes exactly one plain space |
| Strings.CollapseChar | dashboard/dashboard.py:65 | a single character that is not whitespace is kept unchanged |
| Strings.CollapseAppend | dashboard/dashboard.py:65 | text split at a point that does not cut a whitespace run in two collapses as the concatenation of its collapsed parts |
| Strings.CollapseSeparatesWords | dashboard/dashboard.py:65 | two words separated by any whitespace run (a newline, tabs, several spaces) end up separated by exactly one space, so "a\nb" becomes "a b" and never "ab" |
| Strings.CollapseLast | dashboard/dashboard.py:65 | the collapsed text ends with whitespace exactly when the input does, so a page keeps a trailing space |
| Strings.CollapseFixesCollapsed | dashboard/dashboard.py:65 | text with only single plain spaces is left unchanged by the substitution |
| Strings.CollapseIdempotent | dashboard/dashboard.py:65 | collapsing twice gives the same text as collapsing once |
| Strings.CollapseKeepsText | dashboard/dashboard.py:65 | the substitution changes only whitespace: the non-whitespace characters survive in order |
| Strings.Contains | dashboard/dashboard.py:43 | the substring test is true exactly when the year occurs at some position of the option value |
| Strings.CleanValue | dashboard/dashboard.py:73-74 | the token handed to `float()` contains no space and no comma, and is no longer than the captured text |
| Strings.CleanValueIsTwoReplaces | dashboard/dashboard.py:74 | the one-pass normalisation equals deleting spaces and then turning commas into dots, the two `replace` calls in their order |
| Strings.CleanValueAppend | dashboard/dashboard.py:73-74 | normalisation works piece by piece, so every character other than space and comma is kept in order |
| Strings.CleanValuePlainToken | dashboard/dashboard.py:73-74 | a token with neither spaces nor commas reaches `float()` unchanged |
| Strings.CleanValueDecimalComma | dashboard/dashboard.py:73-74 | a French decimal comma between two plain digit groups becomes a decimal point, as "131,3" gives "131.3" |
| Strings.CleanValueThousandsSpace | dashboard/dashboard.py:73-74 | a thousands-separating space between two groups disappears, as "1 234,5" gives "1234.5" |
| Locator.Qualifying | dashboard/dashboard.py:43 | the option values kept are non-empty and contain "2023", and there are no more of them than options |
| Locator.QualifyingHead | dashboard/dashboard.py:43-45 | the kept list is empty exactly when no option qualifies; otherwise its head is the value of the first qualifying option in document order |
| Locator.LatestReportUrlIsFirstMatch | dashboard/dashboard.py:35-52 | a URL is found exactly when the page loaded, has the download select and some option qualifies; it is the first qualifying value on the base URL's scheme and host |
| Extractor.ExtractText | dashboard/dashboard.py:54-69 | the page loop yields the collapsed texts of the pages with text, concatenated with no separator; a failed download yields no text and is the only case reported as an error |
| Extractor.PagesTextEmptyIff | dashboard/dashboard.py:61-66 | the extracted text is empty exactly when no page has any text |
| Extractor.PagesTextKeepsText | dashboard/dashboard.py:61-66 | the non-whitespace text of all pages survives in page order |
| Extractor.PagesTextPlainSpaces | dashboard/dashboard.py:61-66 | the only whitespace character left in the extracted text is the plain space |
| Extractor.PagesTextAppend | dashboard/dashboard.py:62-65 | appending a page appends its collapsed text, or nothing when it has none, with no separator |
| Extractor.RunAcrossPageBoundary | dashboard/dashboard.py:62-65 | runs are collapsed within a page only: a page ending in whitespace followed by one starting with whitespace leaves two spaces in a row |
| Extractor.TextlessPageAddsNothing | dashboard/dashboard.py:63-65 | a page whose text is missing or empty leaves the extracted text unchanged |
| Parser.ParsePaymentData | dashboard/dashboard.py:71-90 | the row-appending parser yields exactly the corrected rule table: the POS pair if its rule fires, then the mobile pair if its rule fires |
| Parser.ParsedRowsShape | dashboard/dashboard.py:76-90 | rules are gated independently and give 0, 2 or 4 rows; the POS pair comes first; each pair's first row carries the category and the second has an empty one; the POS count row takes 2022 from count group 2, 2023 from count group 3 and its growth from count group 1; the POS value row takes 2022 from value group 2, 2023 from value group 1 and the growth computed from those two; both mobile rows share the growth of group 5; the mobile count row takes 2022 from group 2 and 2023 from group 1, the mobile value row 2022 from group 4 and 2023 from group 3 |
| Parser.ParsedRowsConvert | dashboard/dashboard.py:73-80 | every number in a parsed row is a token `float()` accepts, and the computed growth never divides by zero |
| Parser.AsWrittenAgreesWhenNoError | dashboard/dashboard.py:71-90 | the parser as written raises exactly when a matched rule holds an unconvertible token or a zero 2022 POS value, and otherwise agrees with the corrected parser |
| Parser.ZeroPriorValueRaises | dashboard/dashboard.py:79-80 | a 2022 POS value of "0" makes the parser as written raise, while the corrected parser drops the POS rule |
| Parser.LoneCommaRaises | dashboard/dashboard.py:84-88 | a lone comma captured as a mobile figure makes the parser as written raise, while the corrected parser drops the mobile rule |
| Report.FallbackExactlyOnFailure | dashboard/dashboard.py:92-106 | the nine-row fallback is returned exactly when no report is located, its text is missing or empty, or no rule fires; each of these endings holds exactly when its condition does, and the parsed table is returned exactly when a report is located, downloaded, gives non-empty text and some rule fires, in which case it has 2 to 4 rows; only a failed extraction is reported |
| Report.SourceIsLastLocated | dashboard/dashboard.py:93-105 | across runs the source reference is the most recently located report URL; a run that located one overwrites it even if the run then falls back; it becomes the landing page only when nothing had been recorded |
| Report.Session.constructor | dashboard/dashboard.py:104 | a new session has no source reference |
| Report.Session.GetBamReportData | dashboard/dashboard.py:92-106 | the table and reported error are those of the acquisition; the source reference is set whenever a URL is located, keeps its old value on fallback when one was set, and is never left unset |
| AppStore.Truncate | dashboard/dashboard.py:136 | the description is the prefix of the original with length min(len, 200) |
| AppStore.DatePart | dashboard/dashboard.py:152 | the iOS date is the prefix before the first "T", or the whole string when there is none |
| AppStore.AndroidEntry | dashboard/dashboard.py:130-139 | an Android lookup gives a row exactly when it succeeded, the update timestamp converts and any description is not null; the row has platform Android, the wallet name, the scraper's installs, score and ratings, the rendered update date, and as description the first 200 characters of the scraped one ("" when it is absent) |
| AppStore.IosEntry | dashboard/dashboard.py:144-156 | an iOS lookup gives a row exactly when it returned a first result whose date and description are not null; the row has platform iOS, the wallet name, installs "N/A", the result's rating and count, as date the part of the release date before its first "T" ("" when absent), and as description the first 200 characters of the result's ("" when absent) |
| AppStore.GetAppStoreData | dashboard/dashboard.py:124-159 | the two loops return the Android rows followed by the iOS rows; a row is Android exactly when it lies in the first part |
| AppStore.CollectFromRegistry | dashboard/dashboard.py:129-156 | every row is the successful entry of some registry item |
| AppStore.AndroidRowsAreAndroid | dashboard/dashboard.py:133 | every row of the Android loop has platform Android |
| AppStore.IosRowsAreIos | dashboard/dashboard.py:150 | every row of the iOS loop has platform iOS |
| AppStore.CountWalletAppend | dashboard/dashboard.py:159 | concatenating row lists adds their per-wallet row counts |
| AppStore.CollectCount | dashboard/dashboard.py:129-156 | per-app isolation: an app contributes exactly one row when its lookup succeeds and none when it fails, whatever the other apps do |
| AppStore.CollectOrder | dashboard/dashboard.py:129-159 | rows follow registry order: an earlier row belongs to an earlier registry item |
| AppStore.NoCrossPlatformMerge | dashboard/dashboard.py:159 | a wallet in both registries gets one row per platform whose lookup succeeded, two when both did, never a merged row |
| AppStore.RowsNormalised | dashboard/dashboard.py:136-153 | every row's description has at most 200 characters; every iOS row has installs "N/A" and a date with no "T"; every Android row comes from a registry item whose lookup succeeded and carries its wallet and the first 200 characters of its description; every iOS row comes from a registry item whose lookup returned a first result and carries its wallet, the date part of its release date and the first 200 characters of its description |
| AppStore.RegistriesWellFormed | dashboard/dashboard.py:109-121 | both registries list the same eleven wallet names, each once and in the same order |

## Left out

- HTTP requests, HTML parsing, PDF decoding, the Play Store scraper and the iTunes lookup are not modelled. Each is an input: a fetched or failed landing page, an optional list of page texts, a lookup result or failure.
- Regular-expression matching is not modelled. Each `re.search` is an input giving the captured groups of its first match or `None`. The lazy, case-insensitive patterns themselves are not analysed.
- Floating-point arithmetic is not modelled: the `float` value, the `.1f` rendering and `round(…, 1)` of the POS growth. A cell keeps the normalised token. A worked growth value such as 19.6 for 46.9 over 39.2 is therefore not stated.
- Strings.IsDecimal: models `float()` acceptance only for strings of ASCII digits and dots. Non-ASCII digits that Python's `\d` and `float()` accept, and signs, exponents, "inf" and "nan", are not covered.
- Locator.LatestReportUrlIsFirstMatch: `urljoin` is modelled as putting the option value under the landing page's scheme and host. Its handling of option values that are absolute URLs or relative paths, and its path normalisation, are not modelled.
- An exception raised while decoding a single PDF page is folded into a failed download, since it aborts the whole extraction in the same way.
- `datetime.fromtimestamp(…).strftime('%Y-%m-%d')` depends on the local time zone. It is an input function from timestamp to an optional date string, with failure meaning the exception that skips the app.
- Score and rating values keep the types a successful lookup reports. Values of other types, which pandas would still accept, are not distinguished.
- `st.cache_data(ttl=86400)` caching, the Refresh button, spinners, `st.success`, page layout, tabs, filters and charts are not modelled. A cached call returns the earlier result without running the body, so the session entry is not written on such calls.
- Idempotence of the fallback is not stated as a separate lemma. The model is a function of its inputs, so equal inputs give equal tables.

## Findings

| source | as written | input that shows it | evidently intended | confidence | as-written member | corrected member |
|---|---|---|---|---|---|---|
| dashboard/dashboard.py:71-90 | `parse_payment_data` runs outside any `try`. A matched rule whose numbers `float()` rejects raises ValueError, and a 2022 POS value of zero raises ZeroDivisionError. Either error leaves `get_bam_report_data` without the fallback. | a report text whose POS value sentence says "contre 0 milliards en 2022", or whose mobile count capture is a lone "," | the acquisition never raises: a rule with unusable numbers contributes no rows, and the fallback applies if no rule is left | not executed | Parser.ZeroPriorValueRaises | Parser.ParsedRowsConvert |

The intent that the report acquisition never raises comes from the function's own docstring (dashboard/dashboard.py:16-19). The code does not keep that promise. The model follows the code in `Parser.ParseAsWritten` and uses the corrected `Parser.ParsedRows` everywhere else.
