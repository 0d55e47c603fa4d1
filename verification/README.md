# Business-owner contact scraper — a Dafny model of its pipeline

`scraper_demo.py` finds the owners of local businesses and harvests their
contact records. The pipeline has four steps:

1. **Discovery** (`get_urls`): a directory search with paginated results
   collects the business profile links.
2. **Owner extraction** (`crawl_bbb_business`, `parse_owner_title_from_html`,
   `get_start_year`): each business profile yields its owner strings, for
   example "Roderick Mays, Owner". A language-model fallback is used when the
   profile lists no contacts.
3. **Identity lookup** (`clean_text`, `get_people_urls`): each owner name is
   searched on a people-search site, together with the zip code taken from
   the business address.
4. **Harvest** (`get_person_details`, `ScrapingWorker.run`): each person
   profile is turned into one contact row. The rows are gathered over at most
   three businesses, progress is reported along the way, and the table is
   deduplicated before it is written out.

The model is pure and functional. External inputs become parameters:

- an HTML page becomes a datatype holding only the elements the code reads
  (`BusinessPage.Page`, `Directory.ResultsPage`, `People.PersonPage`);
- the browser, the HTTP proxy and the language model become functions in
  `Pipeline.Services`.

Python exceptions become `Option`. An exception that the code catches is
modelled by the result the `except` branch produces.

Modules, in dependency order:

| module | models |
|---|---|
| `Options` | `None`-or-value |
| `Text` | `str.strip`, `str.split()`, `str.split(sep)`, `str.lower` |
| `Decimal` | `str(n)`, `int(token)`, and numbered keys `f"Phone {i}"` |
| `Seqs` | keep-first deduplication, filtering, flattening |
| `Links` | origin + `href` link building |
| `Names` | `clean_text`, owner name and position, URL slugs, zip code, person id |
| `BusinessPage` | the business profile: contacts, owner dictionary, start date, `crawl_bbb_business` |
| `Directory` | `get_urls`: search URLs, page count, links of all pages |
| `People` | `get_people_urls`, `extract_emails`, `get_person_details` |
| `Pipeline` | `get_owner_by_llm` fallback, `run_demo`, `ScrapingWorker.run`, `drop_duplicates` |

Three behaviours of the code that the model keeps as written:

- **Honorifics.** `clean_text` uses a `\b` word-boundary pattern, so it
  removes an honorific such as "Dr " wherever one starts a word, not only at
  the front. `Names.HonorificRemovedAnywhere` states this.
- **Missing page fields.** A missing address block, business-name element
  or start-date `dd` raises inside `run_demo`, and the business gives no
  rows. So does an address with no tokens. `Pipeline.RunDemoNoCrawl` and
  `Pipeline.RunDemoNoZip` state this.
- **Page range.** The page count is `n // 15 + 2` and is used as an exclusive
  bound, so pages 1 to `n // 15 + 1` are fetched. This page set covers every
  result, and it contains one empty page when 15 divides `n`.

## Model

| member | source | states |
|---|---|---|
| Text.Strip | scraper_demo.py:62 | `strip()` removes exactly the leading whitespace run and an all-whitespace suffix; the result neither starts nor ends with whitespace |
| Text.StripPadded | scraper_demo.py:385-387 | stripping whitespace padding around a value with no outer whitespace gives the value back |
| Text.WordsAreTokens | scraper_demo.py:345-346 | every token of `split()` is nonempty and contains no whitespace |
| Text.WordsJoin | scraper_demo.py:345-346 | splitting the space-joined tokens gives back the same tokens |
| Text.WordsSkipSpace | scraper_demo.py:475 | leading whitespace does not change the tokens of `split()` |
| Text.SplitOn | scraper_demo.py:486 | `split(sep)` gives at least one piece, and joining the pieces with `sep` rebuilds the string |
| Text.SplitJoin | scraper_demo.py:486 | splitting a join of pieces that do not contain the separator gives the pieces back |
| Text.SplitOnCharPieces | scraper_demo.py:497 | no piece of `split(c)` contains `c` |
| Text.SplitOnCharCount | scraper_demo.py:498 | `split(',')` has at least two pieces if and only if the string contains a comma |
| Text.Lower | scraper_demo.py:362 | no upper-case ASCII letter is left; each one becomes its lower-case letter, and every other character stays where it was |
| Text.LowerIdempotent | scraper_demo.py:362 | lower-casing an already lower-cased text changes nothing |
| Decimal.NatToString | scraper_demo.py:355 | the page number is written as nonempty decimal digits, with a leading zero only for 0 |
| Decimal.NatToStringRoundTrip | scraper_demo.py:355 | the digits written for a page number read back as that number |
| Decimal.NatToStringInjective | scraper_demo.py:355 | different numbers give different digit strings |
| Decimal.ParseInt | scraper_demo.py:351 | `int(token)` succeeds if and only if the token is an optional sign followed by one or more digits; the value is that of the digits, negated after `-` |
| Decimal.ParseIntRoundTrip | scraper_demo.py:351 | `int(str(n)) == n` for every integer |
| Decimal.IndexKeyInjective | scraper_demo.py:392 | two indices give the same numbered key only when they are equal |
| Decimal.IndexKeysSize | scraper_demo.py:392 | `n` values get `n` distinct numbered keys |
| Decimal.Enumerate | scraper_demo.py:392 | the enumerated dictionary has exactly the keys `prefix0` to `prefix(n-1)`, and key `prefix i` holds the i-th value |
| Decimal.EnumerateSize | scraper_demo.py:396 | the enumerated dictionary has one entry per value |
| Seqs.Dedup | scraper_demo.py:173 | deduplication keeps each distinct element once, keeps only elements of the input, and loses none |
| Seqs.DedupOrder | scraper_demo.py:173 | deduplication keeps elements in the order of their first occurrence |
| Seqs.DedupDistinct | scraper_demo.py:173 | deduplicating a duplicate-free sequence changes nothing |
| Seqs.DedupSnoc | scraper_demo.py:487-488 | appending a value already present leaves the deduplication unchanged; a new value goes at its end |
| Seqs.DedupMember | scraper_demo.py:487-488 | a value survives deduplication if and only if it was in the input |
| Seqs.RemoveFromDistinct | scraper_demo.py:394-395 | removing a value from a duplicate-free list removes exactly that value and keeps the list duplicate-free |
| Seqs.Filter | scraper_demo.py:484-490 | the kept elements are the input elements that pass the test |
| Seqs.FilterMember | scraper_demo.py:484-490 | a value is kept if and only if it is in the input and passes the test |
| Seqs.FlattenAppend | scraper_demo.py:158 | extending with rows of consecutive businesses concatenates them in order |
| Seqs.FlattenMember | scraper_demo.py:158 | a value is in the concatenation if and only if it is in one of the parts |
| Links.PrefixLinks | scraper_demo.py:338 | one link per anchor when every anchor has an `href` |
| Links.PrefixLinksSpec | scraper_demo.py:338 | links are built if and only if every anchor has an `href`; each link is the origin followed by its `href`, which reads back |
| Links.PrefixLinksAppend | scraper_demo.py:338 | links of consecutive anchor lists stay in order and are not merged |
| Names.NormalizeSpace | scraper_demo.py:320 | the result has no leading or trailing whitespace and single spaces between words |
| Names.NormalizeSpaceIsJoinedWords | scraper_demo.py:320 | collapsing whitespace and stripping equals joining the `split()` tokens with one space |
| Names.NormalizeSpaceIdempotent | scraper_demo.py:320 | normalising whitespace twice gives the same as once |
| Names.CleanText | scraper_demo.py:317-321 | the cleaned text is canonical: single-spaced, with no outer whitespace |
| Names.CanonicalIsJoinedWords | scraper_demo.py:320 | a canonical text is the join of its own `split()` tokens with single spaces |
| Names.WordsStrip | scraper_demo.py:320 | stripping outer whitespace does not change the `split()` tokens |
| Names.CleanTextIsJoinedWords | scraper_demo.py:319-320 | the cleaned text is the tokens left after honorific removal, joined by single spaces |
| Names.RemoveHonorifics | scraper_demo.py:319 | honorific removal never lengthens the text |
| Names.HonorificMatchesWhole | scraper_demo.py:319 | Mr, Ms, Mrs, Dr or Prof in any case, with or without a period, followed by whitespace, is removed together with all of that whitespace |
| Names.HonorificDropped | scraper_demo.py:319 | an honorific, its optional period and the whitespace after it are removed, and removal goes on with the rest |
| Names.HonorificRemovedAnywhere | scraper_demo.py:319 | an honorific that follows a non-word character is removed there too, not only at the start |
| Names.RemoveHonorificsAppend | scraper_demo.py:319 | honorific removal works piecewise across a boundary after a non-word character |
| Names.PlainNameKept | scraper_demo.py:317-321 | a plain two-word name passes through cleaning unchanged |
| Names.OwnerName | scraper_demo.py:486 | the owner name used for the search is canonical |
| Names.OwnerNameBeforeFirstComma | scraper_demo.py:486 | the owner name is the cleaned text before the first comma; everything after it is ignored |
| Names.RoderickMaysName | scraper_demo.py:486 | "Roderick Mays, Owner" gives the name "Roderick Mays" |
| Names.Position | scraper_demo.py:498 | there is a position if and only if the contact string has a comma; it contains no comma and has no outer whitespace |
| Names.PositionAfterLastComma | scraper_demo.py:498 | the position is the stripped text after the last comma |
| Names.RoderickMaysPosition | scraper_demo.py:498 | "Roderick Mays, Owner" gives the position "Owner" |
| Names.SlugsHaveNoSpace | scraper_demo.py:345-346 | the keyword, location and name slugs contain no whitespace |
| Names.KeywordsParamRoundTrip | scraper_demo.py:345 | splitting the keyword parameter on `+` gives back the search words |
| Names.LocationParamRoundTrip | scraper_demo.py:346 | splitting the location parameter on `%20` gives back the location words |
| Names.NameSlugRoundTrip | scraper_demo.py:362 | splitting the name slug on `-` gives back the lowercased name words |
| Names.ZipCode | scraper_demo.py:475 | there is a zip code if and only if the address has a token; it is the prefix of the last token that stops at the token's end or at its first `-` |
| Names.ZipCodeOfLastToken | scraper_demo.py:475 | an address ending in a zip, an optional `-extension` and whitespace gives that zip |
| Names.LasVegasZip | scraper_demo.py:475 | "Las Vegas, NV 89101-1234" gives "89101" |
| Names.PersonId | scraper_demo.py:497 | the person id is the suffix of the URL that starts at its beginning or right after a `/`, and contains no `/`, so it follows the last `/` |
| Names.PersonIdOfProfileUrl | scraper_demo.py:497 | the id appended to a profile URL reads back as the person id |
| BusinessPage.StrippedPieces | scraper_demo.py:68 | the stripped text pieces are nonempty, have no outer whitespace, and are no more than the text nodes |
| BusinessPage.StrippedPiecesMember | scraper_demo.py:68 | a piece is kept if and only if it is nonempty and is the stripped text of one of the nodes |
| BusinessPage.StrippedPiecesAppend | scraper_demo.py:68 | the pieces of consecutive runs of text nodes follow each other, in document order |
| BusinessPage.DdCleanTextStripped | scraper_demo.py:68 | a contact text has no leading or trailing whitespace |
| BusinessPage.JoinEnds | scraper_demo.py:68 | joining nonempty pieces that have no outer whitespace gives a text that has none either |
| BusinessPage.ParseOwnerTitle | scraper_demo.py:43-73 | no owner dictionary if and only if no contact text is found; otherwise the dictionary of the contact texts |
| BusinessPage.OwnerMapSize | scraper_demo.py:71-72 | the owner dictionary has one key per contact text |
| BusinessPage.ReadOwners | scraper_demo.py:483-485 | reading `owner0` to `owner(n-1)` of an n-key dictionary gives n strings |
| BusinessPage.ReadOwnersRoundTrip | scraper_demo.py:71-72 | reading `owner0`, `owner1` and so on back from the owner dictionary gives the contact texts in order |
| BusinessPage.ContactTextsAppend | scraper_demo.py:51-70 | the contact texts of consecutive sections are concatenated in order |
| BusinessPage.OneContactDiv | scraper_demo.py:53-70 | in an "Additional Contact Information" section, a Principal or Customer Contacts row gives the texts of all its `dd` elements |
| BusinessPage.OtherSectionIgnored | scraper_demo.py:52-57 | a section without the contact heading or without a `dl` contributes nothing |
| BusinessPage.OtherDivIgnored | scraper_demo.py:58-64 | a row without `dt`, or with another label, contributes nothing |
| BusinessPage.StartDateSpec | scraper_demo.py:88-95 | the start date raises if and only if some "Business Started:" row has no `dd`; it is `None` if and only if no row mentions it; otherwise it is the first `dd` of the last such row |
| BusinessPage.StartDateLastWins | scraper_demo.py:92-94 | a later "Business Started:" row overrides earlier ones |
| BusinessPage.CrawlPage | scraper_demo.py:98-104 | the crawl succeeds if and only if the address, business name and start-date lookups all succeed, and it carries their values and the owner dictionary |
| Directory.SearchUrl | scraper_demo.py:347-348 | every results URL of a query starts with the same prefix, built from the keywords and the location, and continues past it |
| Directory.SearchUrlPageInjective | scraper_demo.py:353-355 | different pages of one query are fetched from different URLs |
| Directory.SearchUrlPageReadBack | scraper_demo.py:355 | the page number reads back from the URL |
| Directory.Pagination | scraper_demo.py:350-351 | a page bound exists only when the heading's second token is an integer |
| Directory.PaginationNeedsNumber | scraper_demo.py:351 | a heading whose second token is not an integer stops discovery |
| Directory.PaginationOfCount | scraper_demo.py:350-351 | a heading whose second token is the count `n` gives the page bound `n // 15 + 2`, whatever text follows |
| Directory.GetUrlsOfCount | scraper_demo.py:342-359 | a first page whose heading reports `n` results makes discovery collect exactly pages 1 to `n // 15 + 1`, in order |
| Directory.Range | scraper_demo.py:353 | `range(lo, hi)` gives `hi - lo` consecutive numbers starting at `lo`, or none |
| Directory.PagesOfCount | scraper_demo.py:351-353 | for a result count `n`, pages 1 to `n // 15 + 1` are fetched once each, in order, and they include the page of every result |
| Directory.PagesOf123 | scraper_demo.py:351-353 | 123 results give pages 1 to 9 |
| Directory.CollectPagesLength | scraper_demo.py:353-357 | every link of every page is kept |
| Directory.CollectPagesAppend | scraper_demo.py:353-357 | links of earlier pages come before links of later pages |
| Directory.GetUrlsIsAllPages | scraper_demo.py:342-359 | when the heading gives a count, discovery returns the links of exactly pages 1 to the bound, in order |
| Directory.CollectedLinksPrefixed | scraper_demo.py:338 | every discovered link starts with the directory's origin |
| People.PeopleUrls | scraper_demo.py:371 | the profile links returned for an owner are distinct |
| People.PeopleUrlsSpec | scraper_demo.py:370-371 | a profile link is returned if and only if some "View All Details" anchor carries it |
| People.ContactEmails | scraper_demo.py:393-396 | the contact emails are distinct, exclude the support address, come from the page, and include every other address found |
| People.PersonDetails | scraper_demo.py:375-413 | the row is empty if and only if the page is missing or lacks a required element |
| People.FixedFieldsKeys | scraper_demo.py:398-408 | a complete row's named fields are keyed by exactly Name, Age, Position, Address, City, State, Business Name and Business Start Date |
| People.FixedColumnsUnnumbered | scraper_demo.py:398-408 | no named column has the form of a numbered phone or email key |
| People.FixedFieldsSize | scraper_demo.py:398-408 | a complete row has exactly eight named fields |
| People.FixedFieldsKept | scraper_demo.py:398-408 | the eight fixed fields survive the phone and email updates unchanged |
| People.PhoneFieldsRead | scraper_demo.py:390-392 | `Phone i` holds the i-th telephone of the page |
| People.EmailFieldsRead | scraper_demo.py:393-396 | `Email i` holds the i-th contact email |
| People.NumberedKeysDisjoint | scraper_demo.py:392-396 | phone keys and email keys never collide |
| People.RowSize | scraper_demo.py:398-409 | a complete row has eight fixed fields, plus one per phone and one per email |
| Pipeline.LlmDictRaws | scraper_demo.py:483-485 | the fallback's two-key answer is read as two owner strings: the owner, then `""` for the missing `owner1` |
| Pipeline.LookupsKeys | scraper_demo.py:481-490 | the looked-up owners are the distinct raw strings, in first-seen order, whose search succeeded |
| Pipeline.LookupsLinks | scraper_demo.py:481-488 | each looked-up owner is one of the raw strings, and its links are the result of searching that owner |
| Pipeline.FallbackLooksUpEmpty | scraper_demo.py:483-488 | with the fallback dictionary, the empty owner string is searched as well |
| Pipeline.OwnerRawsSpec | scraper_demo.py:476-479 | owners from the page are used when there are any; otherwise the fallback's owner and `""`; nothing when the model cannot be reached |
| Pipeline.RowCarriesBusiness | scraper_demo.py:405-406 | every nonempty person row carries the business name and start date |
| Pipeline.PersonRowsCarryBusiness | scraper_demo.py:492-503 | every row gathered for a business is nonempty and carries the business's name and start date |
| Pipeline.PersonRowCarriesBusiness | scraper_demo.py:500-501 | any single row kept for a business carries its name and start date |
| Pipeline.UrlRowsSpec | scraper_demo.py:493-503 | a row is kept for a list of links if and only if it is nonempty and built from one of the links |
| Pipeline.EntryRowsSpec | scraper_demo.py:493-503 | the rows of one owner are exactly the nonempty profile rows of its links, with the position taken from the owner string |
| Pipeline.PersonRowsMember | scraper_demo.py:492-503 | a row is gathered if and only if one of the owners gives it |
| Pipeline.PersonRowsSpec | scraper_demo.py:492-503 | a row is gathered if and only if it is nonempty and built from a link of one of the looked-up owners |
| Pipeline.BusinessRowsSpec | scraper_demo.py:480-503 | no rows when the owner strings could not be obtained; otherwise a row is returned if and only if it is nonempty and built from a link of a looked-up owner |
| Pipeline.BusinessRowsCarry | scraper_demo.py:492-503 | every row of a business carries its name and start date |
| Pipeline.LookedUpRowSource | scraper_demo.py:481-503 | every gathered row is the profile row of a link that the search gave for one of the raw owner strings |
| Pipeline.RunDemoNoProfile | scraper_demo.py:471-508 | a business whose profile cannot be fetched gives no rows |
| Pipeline.RunDemoNoCrawl | scraper_demo.py:98-104 | a business whose page lacks the address, the business name or a start-date value gives no rows |
| Pipeline.RunDemoNoZip | scraper_demo.py:471-508 | a business whose address has no token gives no rows |
| Pipeline.RunDemoCrawled | scraper_demo.py:471-503 | otherwise the rows are those of the crawled page and its zip code |
| Pipeline.RunDemoUnreachable | scraper_demo.py:471-508 | a business with no listed contacts whose language-model request raises gives no rows |
| Pipeline.RunDemoRows | scraper_demo.py:471-503 | once the owner strings are known, a row is returned if and only if it is nonempty and built from a link found for one of the looked-up owners |
| Pipeline.RunDemoRowSource | scraper_demo.py:481-503 | every returned row is the profile row of a link that the people search gives for the cleaned name of one owner string and the zip code, with that string's position |
| Pipeline.RunDemoCarriesBusiness | scraper_demo.py:492-503 | every returned row carries the crawled business's name and start date |
| Pipeline.BusinessProgressIsTruncatedQuotient | scraper_demo.py:163 | the integer progress equals `20 + int((i + 1) / total * 80)` computed on the reals |
| Pipeline.ProgressIncreases | scraper_demo.py:163 | progress strictly increases over businesses, stays in (20, 100], and reaches 100 at the last one |
| Pipeline.ProgressTraceValues | scraper_demo.py:128-178 | the reported progress for one, two and three businesses |
| Pipeline.ProgressTraceSorted | scraper_demo.py:128-178 | the progress reports never decrease and end with 100 twice |
| Pipeline.Widen | scraper_demo.py:173 | a row widened to a column set has exactly those columns |
| Pipeline.WidenEqual | scraper_demo.py:173 | two rows are duplicates if and only if they agree on every column, a missing and a `None` cell counting as equal |
| Pipeline.Table | scraper_demo.py:173 | the table has one line per row |
| Pipeline.DropDuplicates | scraper_demo.py:173 | a loop over the table computes the table written by `Run`, keeping the first occurrence of each distinct line |
| Pipeline.Cap | scraper_demo.py:145-146 | at most the first three businesses are processed |
| Pipeline.HarvestAppend | scraper_demo.py:148-158 | the rows of consecutive businesses are gathered in order |
| Pipeline.HarvestOne | scraper_demo.py:152-158 | one business contributes exactly its own rows |
| Pipeline.HarvestMember | scraper_demo.py:148-158 | a row is gathered if and only if one of the processed businesses returns it |
| Pipeline.Run | scraper_demo.py:122-183 | progress starts at 10; failed or empty discovery gives no rows and no file; otherwise the rows are those of the first three businesses, and a file is written if and only if there are rows |
| Pipeline.RunProgress | scraper_demo.py:128-178 | the progress sequence for each outcome: `[10]` on failure, `[10, 20]` with no businesses, else never decreasing with two final 100s |
| Pipeline.DedupTableSpec | scraper_demo.py:173 | `drop_duplicates` leaves distinct lines, no more than the rows, every row widened to all columns, and nothing else |
| Pipeline.ProgressOfFound | scraper_demo.py:128-178 | for each discovery outcome the progress never decreases; with businesses the second report is 20, there are three reports more than processed businesses, and the last two are 100 |
| Pipeline.RunTable | scraper_demo.py:171-173 | the written table has no duplicate lines and is no longer than the row list; it holds every row, holds nothing else, and every line has all columns |

## Left out

- The PyQt interface (`AppDemo`, its window, buttons and text area), the
  worker thread and its signals: status messages and the business-count
  signal are not modelled. Progress values are modelled.
- Browser automation: the SeleniumBase sessions of `fetch_bbb_page` and
  `get_urls`, their waits, and the `time.sleep(1)` at the end of
  `get_urls`. A fetched page is a parameter.
- HTTP: the `requests` calls to the scrape.do proxy (`get_people_urls` and
  `get_person_details`) and to the local Ollama server (`get_owner_by_llm`),
  and the API token inside the proxy URLs. Each fetch is a parameter that may
  fail.
- HTML parsing (BeautifulSoup): pages are datatypes holding the elements the
  code looks up. The text of an element is given, except where the code
  processes it: the `dd` pieces and their `strip`/join, and the start-date
  row.
- The language model (Ollama): the streamed JSON lines and the regex that
  extracts the JSON object. The reply is a parameter, either unreachable or
  a pair of strings. Non-string JSON values are not modelled.
- The email regular expression in `extract_emails`: the matches found in
  the page text are a parameter. Their deduplication and the
  support-address removal are modelled.
- `list(set(...))` in `get_people_urls` and `extract_emails`: Python's set
  order is unspecified. The model keeps first occurrences in order.
- pandas and CSV output: column order, the file itself and its encoding.
  Duplicate lines are dropped as `drop_duplicates` does.
- `resource_path`, the environment variables and the `__main__` block:
  configuration and start-up.
- Text.Lower: maps ASCII letters only. Python's `str.lower()` also maps
  non-ASCII letters, and can change the length of the text (`'İ'` becomes
  two characters).
- Names.CleanText: the `\w` class behind `\b` holds ASCII letters, digits
  and `_` only, and case-insensitive honorific matching folds ASCII letters
  only. Python's Unicode-aware `re` also counts other letters and digits as
  word characters. Whitespace follows `str.isspace()` in full.
- Names.CleanText: idempotence (cleaning a cleaned text changes nothing) is
  not proved; only the idempotence of the whitespace normalisation is
  (`Names.NormalizeSpaceIdempotent`).
- Decimal.ParseInt: accepts only an optional sign and ASCII digits. Python's
  `int` also accepts underscores between digits and non-ASCII digits.
- Pipeline.LookupsKeys: every service is a function, so the same request
  always gets the same answer. The code searches a raw string again after its
  search raised (scraper_demo.py:487-488), and with a live service that retry
  could succeed; for example, the fallback's raw strings can repeat. The
  model gives the retry the same failure.
- Pipeline.BusinessProgressIsTruncatedQuotient: Python's float division is
  modelled over the reals, without rounding.
- Pipeline.ProgressIncreases: stated only for one to three businesses,
  because at most three are processed.
- `print` calls in the exception handler of `run_demo`.
