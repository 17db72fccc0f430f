# Romania parliament scraper — a verified model of its decision logic

This project models the `ParliamentScraper` of the Romania parliament scraper
(`src/scraper.py`) together with the configuration it reads (`src/config.py`).
What is modelled is everything the scraper decides once a page has been fetched
and parsed.

- **Deputies listing** (`scrape_deputies`): which anchors are deputy links. The record
  each named link becomes: stripped name, `county` and `party` taken from the row's
  second and third cells only when the row has that many, the cdep profile prefix,
  the chamber `Camera Deputaților`, and no contact data.
- **Senators listing** (`scrape_senators`): which anchors are senator links. A
  senator's county and group come from the first match of the two labelled patterns in
  the parent element's text, with the regex semantics written out: greedy `\d+` and
  `\s+`, and `[^\n]+` with the backtracking `\s+` needs at the end of the text.
- **Profile enrichment** (`scrape_member_details`): the email, the phone and the CV link,
  each chosen by a first-success-wins rule and filled in that order. The email is the
  first extracted address passing the domain substring filter. The phone is the first
  result of the first phone pattern with any result; for the international pattern
  that result is the captured prefix. The CV link is the first document link, or else
  the first CV-labelled link, resolved against the cdep or senat base. The model also
  covers a profile with no URL, an unreachable page, and an exception escaping after
  the email step or after the phone step; fields already set stay set.
- **The scraper object** (`__init__`, the two listing loops, `run`, and the counts of
  `save_to_json`): a class whose `members` sequence the listing methods append to and
  `Run` updates record by record, proved against the functional specification
  `Scraped`.
- **Configuration**: the two base URLs, the county table, and the email and phone
  patterns, stated as predicates on the strings a full match can be. Each pattern has
  a lemma stating what every match looks like.

The project has nine files:

- `wrappers.dfy`: `Option` and `Fetch`.
- `seqs.dfy`: list comprehensions with a condition.
- `text.dfy`: `strip`, `startswith`, `in` and `re.I` folding.
- `config.dfy`
- `records.dfy`: the member record and the chamber counts.
- `listing.dfy`: the two listings.
- `details.dfy`: enrichment.
- `scraper.dfy`: the class and `run`.
- `scenarios.dfy`: concrete pages and what the scraper makes of them.

Regex results are inputs, not computed. What `re.findall` returns on a profile page is
part of the page value (`DetailPage`). `WellFormed` states that each result is a full
match of its pattern occurring in the page text. Lemmas about chosen values assume it;
the operations themselves do not. Fetching is an input too: each listing page is
`Failed` or `Fetched(anchors)`, and each profile is `Unreachable` or
`Loaded(page, outcome)`. `run` takes the profile responses as a function of the
member's position.

Behaviour of the code that the model keeps as written:

- Enrichment assigns an email, phone or CV URL whenever a new value is found, replacing
  one the record already had (`src/scraper.py:168`, `175`, `191`). An exception after a
  field was assigned leaves that field assigned (`src/scraper.py:197-198`).
  `Details.Enriched` does both.
- The code stores `phones[0][0]` when a match is a tuple, but the first phone pattern
  has exactly one group, so `findall` returns that group and the stored value is the
  prefix `+40` or `0040` (`Details.Findall`, `Details.PhonePrecedence`).
- `COUNTIES` is a dictionary literal in the code. The model builds the same 43 pairs
  from the list of names in code order (`Config.COUNTY_NAMES`), keyed by the decimal
  code.

## Model

| member | source | states |
|---|---|---|
| `Scraper.ParliamentScraper.constructor` | src/scraper.py:17-20 | a new scraper holds no member records |
| `Scraper.ParliamentScraper.AppendNamed` | src/scraper.py:41-70 | the listing loop appends exactly `Listed(links, make)`: each link's record in link order, when its stripped name is non-empty |
| `Scraper.ParliamentScraper.ScrapeDeputies` | src/scraper.py:22-79 | reports success exactly when the listing was fetched; then the deputies listing is appended after the existing records; on failure nothing is appended |
| `Scraper.ParliamentScraper.ScrapeSenators` | src/scraper.py:81-146 | reports success exactly when the listing was fetched; then the senators listing is appended after the existing records; on failure nothing is appended |
| `Scraper.ParliamentScraper.ScrapeMemberDetails` | src/scraper.py:148-200 | the step-by-step procedure (email filter, phone patterns in order with `break`, CV lookup) yields exactly the record `Details.Enriched` specifies |
| `Scraper.ParliamentScraper.SaveToJson` | src/scraper.py:202-222 | the reported figures are `SummaryOf` the current list |
| `Scraper.ParliamentScraper.Run` | src/scraper.py:224-249 | the list becomes `Scraped(old list, …)`: the requested and fetched listings in order (deputies, then senators), then each record enriched in place from its own response when details are requested and the list is non-empty; the returned figures describe the final list |
| `Scraper.SummaryOf` | src/scraper.py:215-221 | the total is the list length; deputies and senators are counted apart and together never exceed the total; the email count never exceeds the total |
| `Scraper.ScrapedCounts` | src/scraper.py:231-245 | the list grows by exactly the lengths of the appended listings, whether or not details are scraped; the deputies count grows by the deputies listing's length and the senators count by the senators listing's length; enrichment never lowers the email count, and without details it is unchanged |
| `Records.CountChamberAppend` | src/scraper.py:216-217 | the per-chamber count of two lists joined is the sum of their counts |
| `Records.CountChamberUniform` | src/scraper.py:72 | a list whose records all have chamber `c` counts fully for `c` and not at all for another chamber |
| `Records.CountChamberPointwise` | src/scraper.py:216-217 | lists that agree on `chamber` position by position have the same counts |
| `Records.ChambersDisjoint` | src/scraper.py:216-217 | the counts for two different chambers sum to at most the list length |
| `Records.CountWithEmailMonotone` | src/scraper.py:220 | if every record that had a truthy email still has one, the email count does not drop |
| `Records.CountWithEmailAppend` | src/scraper.py:220 | the email count of two lists joined is the sum of their counts |
| `Records.CountWithEmailNone` | src/scraper.py:64-66 | records created with `email` `None` add nothing to the email count |
| `Listing.BaseUrlsMatchConfig` | src/config.py:6-7 | the prefixes hard-coded in the scraper are `DEPUTIES_BASE_URL` and `SENATE_BASE_URL` |
| `Listing.Listed` | src/scraper.py:41-70 | a listing loop appends no more records than there are links |
| `Listing.NamedPositions` | src/scraper.py:41-43 | every kept position is the position of a link |
| `Listing.NamedPositionsRecords` | src/scraper.py:42-69 | record `k` is built from the link at the `k`-th kept position, and its name is non-empty |
| `Listing.NamedPositionsIncrease` | src/scraper.py:41 | kept positions strictly increase: records follow link order |
| `Listing.NamedPositionsComplete` | src/scraper.py:43 | every link whose stripped name is non-empty is kept |
| `Listing.ListedOrder` | src/scraper.py:41-70 | the appended records are exactly the named links' records, in link order: no named link is skipped and no unnamed link produces a record |
| `Listing.ListedPrefix` | src/scraper.py:43-69 | one more loop step appends that link's record exactly when its name is non-empty |
| `Listing.DeputyListingShape` | src/scraper.py:37-67 | per deputy record: the name is the stripped link text (non-empty); the profile URL is the cdep prefix plus the href; county is the stripped second cell and party the stripped third cell, each only when the row has enough cells, else `''`; the chamber is `Camera Deputaților`; email, phone and CV URL are `None`; records follow link order and cover every named link |
| `Listing.SenatorListingShape` | src/scraper.py:96-134 | per senator record: the name is the stripped link text (non-empty); the profile URL is the senat prefix plus the href; county and party are the labelled values found in the parent's text, `''` without a parent; the chamber is `Senat`; the contact fields are `None`; records follow link order and cover every named link |
| `Listing.Span` | src/scraper.py:114 | a greedy run: every character in it satisfies the class, and the character after it does not (or the text ends) |
| `Listing.LastNotNewline` | src/scraper.py:121 | the last non-newline position in a range, with only newlines after it; none only when the range is all newlines |
| `Listing.SpaceThenLine` | src/scraper.py:121 | a captured `[^\n]+` group is non-empty and holds no newline |
| `Listing.MatchAt` | src/scraper.py:114-121 | a pattern matches at `i` only where its literal label starts, and its group is non-empty without a newline |
| `Listing.FirstSomeIsFirst` | src/scraper.py:114 | a left-to-right scan returns the value at the first position that has one, and finds nothing only when no position has one |
| `Listing.SearchFindsFirst` | src/scraper.py:114-123 | `re.search` returns the match at the leftmost position where the pattern matches; no match means it matches nowhere |
| `Listing.SearchSkips` | src/scraper.py:114 | positions that cannot start the label are passed over by the search |
| `Listing.LabelledValueShape` | src/scraper.py:114-123 | a senator field is `''` when its label is absent; otherwise it is a stripped piece of one line: no newline and no surrounding whitespace |
| `Details.EmailChoiceFirst` | src/scraper.py:163-168 | the chosen email is the first extracted address containing `@cdep.ro`, `@senat.ro` or `@parlament.ro`; none is chosen exactly when no address qualifies |
| `Details.EmailChoiceIsMatch` | src/scraper.py:163-168 | on a well-formed page the chosen email is a match of the email pattern found in the page text and passes the domain filter |
| `Details.Findall` | src/scraper.py:173-175 | the international pattern yields one result (its captured prefix) per match |
| `Details.PhonePrecedence` | src/scraper.py:172-177 | the international pattern wins whenever it has a match and then its first captured prefix is chosen; the local pattern is consulted only otherwise; with neither, no phone is chosen |
| `Details.PhoneChoiceValue` | src/scraper.py:175 | on a well-formed page a chosen phone is `+40` or `0040` when the international pattern matched, and otherwise a full match of the local pattern |
| `Details.ResolveCvShape` | src/scraper.py:187-190 | a resolved CV URL starts with `http` and ends with the href; an href already starting with `http` is kept unchanged |
| `Details.CvChoiceSource` | src/scraper.py:179-191 | the CV URL is the resolved non-empty href of an anchor that is the first document link when the page has any, and only otherwise the first CV-labelled link |
| `Details.CvChoiceFromFirstDocument` | src/scraper.py:179-191 | when anchor `j` is the first document link, the CV URL is none if its href is empty and otherwise that href resolved, whatever follows |
| `Details.CvChoiceFromFirstLabel` | src/scraper.py:180-191 | on a page without document links, when anchor `j` is the first CV-labelled link, the CV URL is none if its href is absent or empty and otherwise that href resolved |
| `Details.CvChoiceNoCandidate` | src/scraper.py:179-184 | a page with neither a document link nor a CV-labelled link yields no CV URL |
| `Details.EnrichedKeepsCvWithoutHref` | src/scraper.py:184-191 | when the first candidate's href is absent or empty, or there is no candidate, a completed enrichment keeps the CV URL the record had |
| `Details.EnrichedMonotone` | src/scraper.py:148-200 | enrichment changes only email, phone and CV URL, never removes one, and keeps a truthy email truthy |
| `Details.EnrichedUnchangedOnFailure` | src/scraper.py:150-156 | no profile URL, an empty one, or a failed request: the record comes back unchanged |
| `Details.EnrichedPartialProgress` | src/scraper.py:153-198 | an exception after the email step keeps exactly the email a full run would set; one after the phone step keeps its email and phone and leaves the CV URL as it was |
| `Details.EnrichedIdempotent` | src/scraper.py:163-191 | enriching again from the same response changes nothing more |
| `Details.EnrichedFreshRecord` | src/scraper.py:58-67 | a fresh listing record processed to the end gets exactly the email, phone and CV URL chosen from its page |
| `Seqs.Filter` | src/scraper.py:166 | a filtered list is no longer than the original and holds only its elements that pass the test |
| `Seqs.FilterMembership` | src/scraper.py:166 | an element is kept exactly when it is in the list and passes the test |
| `Seqs.FilterHead` | src/scraper.py:166-168 | a non-empty filter starts with the first element that passes; it is empty exactly when none passes |
| `Text.TrimStart` | src/scraper.py:42 | `lstrip` removes only whitespace and leaves no leading whitespace |
| `Text.TrimEnd` | src/scraper.py:42 | `rstrip` removes only whitespace and leaves no trailing whitespace |
| `Text.TrimStartIsSuffix` | src/scraper.py:42 | `lstrip` leaves a suffix of its input |
| `Text.TrimEndIsPrefix` | src/scraper.py:42 | `rstrip` leaves a prefix of its input |
| `Text.StripIsSlice` | src/scraper.py:42 | `strip` returns the slice `s[lo:hi]` with only whitespace outside it |
| `Text.StripEnds` | src/scraper.py:42 | a stripped string neither starts nor ends with whitespace |
| `Text.StripFixedIffUnpadded` | src/scraper.py:54-56 | `strip` leaves a string unchanged exactly when it neither starts nor ends with whitespace |
| `Text.StripEmptyIffBlank` | src/scraper.py:42-43 | the stripped name is empty, and the anchor skipped, exactly when the text is all whitespace |
| `Text.StripKeepsAbsent` | src/scraper.py:123 | a character absent from a string is absent from its stripped form |
| `Text.ContainsAt` | src/scraper.py:166 | an occurrence at any position makes `sub in s` true |
| `Text.ContainsKeepsChars` | src/scraper.py:166 | every character of a substring occurs in the string |
| `Text.Fold` | src/scraper.py:179 | `re.I` leaves a lower-case ASCII letter as it is and maps an upper-case one to its lower-case letter, 32 code points up |
| `Text.FoldAllIgnoresCase` | src/scraper.py:179-182 | strings that differ only in the case of ASCII letters fold to the same string, so the case-insensitive patterns cannot tell them apart |
| `Text.FoldAllIdempotent` | src/scraper.py:179-182 | folding an already folded string changes nothing |
| `Config.IndexOf` | src/config.py:61 | the position of the first `@`, with none before it |
| `Config.LastIndexOf` | src/config.py:61 | the position of the last `.`, with none after it |
| `Config.EmailShape` | src/config.py:61 | an email match holds exactly one `@` and ends with a `.` after the `@` followed by at least two ASCII letters |
| `Config.DigitCount` | src/config.py:65-66 | a string has no more digits than characters |
| `Config.DigitCountAppend` | src/config.py:65-66 | digit counts add up over joined strings |
| `Config.DigitCountAllDigits` | src/config.py:65-66 | a string of digits has as many digits as characters |
| `Config.SingleSeparatedConcat` | src/config.py:65-66 | joining two digit-and-separator strings keeps single separators unless two separators meet at the seam |
| `Config.DigitsSingleSeparated` | src/config.py:65-66 | a string of digits has no separators at all |
| `Config.DigitGroupsCount` | src/config.py:65-66 | `n` optionally separated three-digit groups hold `3n` digits in `3n` to `4n` characters |
| `Config.DigitGroupsSeparated` | src/config.py:65-66 | digit groups never put two separators in a row and end in a digit |
| `Config.NationalNumberShape` | src/config.py:65-66 | the national part holds nine digits in 9 to 11 characters with single separators, and ends in a digit |
| `Config.InternationalShape` | src/config.py:65 | an international match: its group is `+40` or `0040`; the rest holds nine digits, the first 2, 3 or 7, in 9 to 12 characters, with at most one separator before each digit group |
| `Config.LocalShape` | src/config.py:66 | a local match: `0` then 2, 3 or 7, ten digits in 10 to 12 characters, with at most one separator before each digit group |
| `Config.Decimal` | src/config.py:14-58 | a county code is written with one or two digits |
| `Config.ParseDecimal` | src/config.py:14-58 | reading back a code written in decimal gives the code |
| `Config.CodeKeysCount` | src/config.py:14-58 | the codes `"1"` to `"m"` are `m` distinct strings |
| `Config.CountiesKeys` | src/config.py:14-58 | `COUNTIES` has exactly 43 keys, the decimal strings `"1"` to `"43"` |
| `Config.CountyLookup` | src/config.py:14-58 | code `n` maps to the `n`-th county name |
| `Scenarios.StripNameExample` | src/scraper.py:42 | `" A. Popescu "` strips to `"A. Popescu"` |
| `Scenarios.StripCellsExample` | src/scraper.py:54-56 | unpadded cells and the empty string are left as they are |
| `Scenarios.DeputyRecordExample` | src/scraper.py:42-67 | a named link in a three-cell row becomes the expected record: stripped name, county and party from cells 1 and 2, the prefixed profile URL, no contact data |
| `Scenarios.DeputyListingExample` | src/scraper.py:41-70 | a named deputy link plus a blank one yield exactly one record |
| `Scenarios.ForeignEmailExample` | src/scraper.py:166 | `press@gov.example` fails the domain filter |
| `Scenarios.InstitutionalEmailExample` | src/scraper.py:166 | `j.popescu@cdep.ro` passes the domain filter |
| `Scenarios.EmailExample` | src/scraper.py:163-168 | the first institutional address is chosen over an earlier foreign one; with only foreign addresses none is chosen |
| `Scenarios.CdepProfileExample` | src/scraper.py:189 | a deputy profile URL contains `cdep.ro` |
| `Scenarios.PdfLinkExample` | src/scraper.py:179 | `cv_popescu.pdf` is a relative document link |
| `Scenarios.UpperCaseDocumentExample` | src/scraper.py:179 | `CV.PDF` and `cv.Docx` are document links: the extension test ignores case |
| `Scenarios.CvExample` | src/scraper.py:179-191 | a relative PDF link on a deputy's profile resolves against the cdep base |
| `Scenarios.InternationalMatchExample` | src/config.py:65 | `+40 721 234 567` is an international match split at its group |
| `Scenarios.PhoneTextExample` | src/scraper.py:173 | the page text contains the whole international number |
| `Scenarios.InternationalPhoneExample` | src/scraper.py:172-177 | a page showing `+40 721 234 567` is well formed and stores only `+40` |
| `Scenarios.SenatorTextLayout` | src/scraper.py:107 | where the labels and values sit in the example parent text |
| `Scenarios.DistrictExample` | src/scraper.py:114-118 | the county is read as `CLUJ` from `Circumscripţia electorală nr.13 CLUJ` |
| `Scenarios.FirstLineHasNoG` | src/scraper.py:121 | the group label cannot start on the example's first line |
| `Scenarios.GroupMatch` | src/scraper.py:121 | at the start of the second line the group pattern captures `PSD` |
| `Scenarios.GroupExample` | src/scraper.py:121-123 | the party is read as `PSD` from the second line |

## Left out

- HTTP: the session and its headers, `requests.get`, timeouts, `raise_for_status`, and
  the response encoding. Every fetch is an input (`Fetch` for the listings,
  `DetailResponse` for the profiles) because it is network I/O.
- HTML parsing: BeautifulSoup/html5lib, `find_all`, `find_parent` and `get_text`. Anchors,
  row cells, parent text and page text arrive already extracted because the parser is a
  foreign library. The href filters of the two `find_all` calls are modelled, as
  substring tests.
- Regex scanning inside `re.findall`: its results are page inputs, tied to the patterns
  by `WellFormed`, because leftmost scanning over a whole page is the regex engine's
  business. `re.search` for the two senator labels is modelled in full.
- `\d` is taken to match ASCII digits only, although a Python `str` pattern also
  matches other Unicode decimal digits; the pages are Romanian text with ASCII digits.
- `re.I` folding is written out only for the letters of the scraper's own
  case-insensitive patterns.
- Exceptions inside the listing loops: only an exception before the loop is modelled,
  as `Failed`. One raised after some records were appended would leave those records
  in place. Nothing in the loop body raises on the modelled inputs.
- Dictionary aliasing: a record is a value. Enrichment's in-place mutation is a write
  of the updated record at the same index, because the list holds the only reference
  to each dict.
- `Outcome` over-approximates the places an exception can escape during enrichment.
  It allows a stop after the email step or after the phone step, even though nothing
  in those steps raises on the modelled inputs.
- Listing loops: the record construction of lines 42-67 and 101-134 is the function
  `DeputyRecord` or `SenatorRecord`, passed to one generic loop (`AppendNamed`), instead
  of being repeated statement by statement in each method.
- Output: `print`, the traceback output, and `time.sleep(0.5)`, which is timing only and
  runs on the success path only.
- `save_to_json`: creating the `data` directory, writing the JSON file and
  `OUTPUT_FILE` are file I/O; `SaveToJson` returns the reported figures only.
- `main()` and its `'____main__'` guard, because they are an entry point with no logic.
- `HEADERS`, `DEPUTIES_LIST_URL` and `DEPUTIES_BY_COUNTY_URL`, because the logic never
  reads them.
