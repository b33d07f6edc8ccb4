# osint_v3 in Dafny

A verified model of `osint_v3.py`, a command-line OSINT helper for Indonesian identifiers. For each target given on the command line, the program does four things:

- It classifies the target as a national ID number (NIK), an Indonesian phone number, or neither.
- It decodes a NIK into region names and a birth date and gender. It parses a phone number into its local form and its carrier.
- It runs one Google "dork" query per site scope for the target and scrapes the result links.
- It renders every entry into one HTML report.

The modules follow the program's parts:

| file | module | models |
|---|---|---|
| `wrappers.dfy` | `Wrappers` | `Option` |
| `text.dfy` | `Text` | ASCII digits, substring search (`in`, `str.split(sep)[0]`), `"".join` |
| `dict.dfy` | `Dict` | insertion-ordered Python dicts as association lists |
| `classifier.dfy` | `Classifier` | `is_nik`, `is_phone`, the dispatch order of `process_target` |
| `phone.dfy` | `Phone` | `parse_phone` and the carrier table |
| `nik.dfy` | `Nik` | `parse_nik`: the region search, `int()` of the date fields, gender, the year pivot |
| `dork.dfy` | `Dork` | `google_search_raw` on a fetched page, `dork_target_multisite` |
| `report.dfy` | `Report` | `html.escape` and the body and document of `generate_html_report` |
| `orchestrator.dfy` | `Orchestrator` | `process_target` and `main` |

The code works step by step in `parse_nik`, `google_search_raw`, `dork_target_multisite`, `generate_html_report`, `process_target` and `main`. There the model uses methods with loops. Each method is proved equal to a specification function (`ParseNik` against `DecodeNik`, `SearchRaw` against `SearchResults`, `RenderBody` against `Rendered(ReportParts(..))`, and so on). Lemmas then prove what the program promises about those functions. `is_nik`, `is_phone` and `parse_phone` are pure, so they are plain functions.

Parts of the program that touch the outside world become parameters:

- **The region file.** The `kode_wilayah.json` table is an ordered `RegionTable`. An empty table stands for a missing or unreadable file.
- **The clock.** The current year and the report's timestamp are passed in.
- **Searching.** A search is a function from query to `SearchOutcome` (`Raised` or `Returned(urls)`). A fetched page is a `Response`: `Failed`, or a status code and the `href` of each anchor in document order.

Behaviour of the code that the model keeps on purpose:

- A field that is not found reads `"Tidak diketahui"`, the literal the code writes.
- A regency whose code is `""` matches every NIK. The code then tests the found key for truthiness, so such a regency counts as not found and its districts are not searched. A district has no such test.
- The date fields go through Python's `int()`. That call also accepts a sign or surrounding whitespace (`"+5"`, `"-5"`, `" 5"`, `"5 "`). A field can therefore be negative, and `{n:02d}` prints it as `-5`. This reaches `parse_nik` only when it is called directly: the dispatcher passes it 16-digit strings only.
- `+62` becomes a single `0` whatever follows. So `+620812…` (accepted by the phone pattern) normalises to `00812…`, which is not itself a valid phone number (`Phone.DoubleZeroExample`, `Phone.NormalizedShape`).
- `dork_target_multisite` cannot start its pool with zero workers, so `Dork.DorkTarget` requires a non-empty site list.

## Model

| member | source | states |
|---|---|---|
| Text.IndexOf | osint_v3.py:126 | `pat in s`: the first position where `pat` occurs, with no occurrence before it; none exactly when `pat` never occurs |
| Text.BeforeFirst | osint_v3.py:119 | `s.split(sep)[0]`: a prefix of `s` with no `sep` starting inside it, ending at the end of `s` or just before the first `sep` |
| Dict.Put | osint_v3.py:151 | `results[q] = res`: the key set gains `q`; a present key keeps its place and gets the new value; a new key is appended last; distinct keys stay distinct |
| Classifier.DigitRunMeaning | osint_v3.py:50-51 | `\d{lo,hi}` fully matches exactly the ASCII digit strings whose length lies in lo..hi |
| Classifier.NikMeaning | osint_v3.py:50 | `is_nik` holds exactly for strings of 16 digits |
| Classifier.PhoneMeaning | osint_v3.py:51 | `is_phone` holds only for `+62` plus 8-13 digits or `08` plus 8-13 digits (lengths 10-16), and for every such string |
| Classifier.PhoneForms | osint_v3.py:51 | `+62`+d and `08`+d are phone numbers for every digit string d of length 8-13 |
| Classifier.Classify | osint_v3.py:178-188 | dispatch: NIK exactly for 16 digits; phone exactly for the phone pattern when not a NIK; unknown otherwise |
| Classifier.NikAndPhoneDisjoint | osint_v3.py:50-51 | no string is both a NIK and a phone number, so the order of the two tests does not matter |
| Classifier.NikExampleClassified | osint_v3.py:9 | the usage-line NIK is dispatched as a NIK |
| Classifier.PhoneExampleClassified | osint_v3.py:9 | the usage-line phone number is dispatched as a phone number |
| Classifier.TextExampleUnknown | osint_v3.py:186-188 | a free-text target is dispatched as unknown |
| Phone.Normalize | osint_v3.py:99-101 | a leading `+62` becomes one `0` and the rest is kept; anything else is unchanged |
| Phone.ParsePhone | osint_v3.py:98-104 | the record keeps the input and its normal form; the prefix is the first four characters of the normal form (all of it when shorter); the carrier is the table entry for the prefix, or "unknown" |
| Phone.PhoneSummary | osint_v3.py:104 | four rows in key order: input, normalized, prefix, provider |
| Phone.ProviderTableShape | osint_v3.py:44-48 | every key of the 14-entry carrier table is `08` plus two digits; no carrier is named "unknown" |
| Phone.ProviderKnownIff | osint_v3.py:103 | the carrier is known exactly when the prefix is a table key |
| Phone.NormalizedShape | osint_v3.py:99-101 | the normal form of a valid phone number is 9-15 digits starting with `0`, and is again a phone number exactly when its next digit is `8` and it has at least 10 digits |
| Phone.LocalPhoneUnchanged | osint_v3.py:100 | a valid number that does not start with `+` is its own normal form |
| Phone.DoubleZeroExample | osint_v3.py:100-101 | `+62` followed by `0812345678` is accepted and normalises to `0` followed by `0812345678` |
| Phone.NormalizeIdempotent | osint_v3.py:99-101 | normalising twice equals normalising once |
| Phone.InternationalAndLocalAgree | osint_v3.py:99-103 | `+62`+rest and `0`+rest give the same normal form, prefix and carrier |
| Phone.UsageExampleParsed | osint_v3.py:98-104 | the usage-line number normalises to `0812…` and is a Telkomsel number |
| Phone.CarrierExamples | osint_v3.py:44-48 | a `0811` number is Telkomsel; a `0999` number has an unknown carrier |
| Nik.FindProvince | osint_v3.py:61-64 | the first province, in table order, whose code starts with the NIK's first two digits; none exactly when no province matches |
| Nik.FindRegency | osint_v3.py:68-73 | the first regency whose code is a prefix of the NIK; none exactly when no regency matches |
| Nik.FindDistrict | osint_v3.py:77-80 | the first district whose code is a prefix of the NIK; none exactly when no district matches |
| Nik.LocateRegion | osint_v3.py:59-80 | a level is searched only below a found parent, and every index found lies inside its list |
| Nik.RegionNames | osint_v3.py:65-79 | a level not found reads "unknown"; a found entry gives its name, or "unknown" when it has none |
| Nik.IntOf2 | osint_v3.py:83-85 | `int()` on two characters succeeds exactly for two digits, a digit then ASCII whitespace (space or `\t`..`\r`), or a sign or ASCII whitespace then a digit, and gives the number shown (negative after `-`), in -9..99 |
| Nik.Pad2 | osint_v3.py:92 | `{n:02d}` for n in -9..99 is two characters: two digits (zero-padded) for n >= 0, a minus sign and a digit below 0 |
| Nik.Digits4 | osint_v3.py:92 | `{year}` for a four-digit year is four digits |
| Nik.FormatDate | osint_v3.py:92 | `DD-MM-YYYY`: ten characters with dashes at positions 2 and 5, a four-digit year, and a zero-padded two-digit day and month when they are not negative |
| Nik.FullYear | osint_v3.py:90-91 | a non-negative year field keeps its last two digits and falls in the 2000s exactly when it is at most the current year mod 100; a negative field gives 2000 plus the field; the result lies in 1901..2099 |
| Nik.DecodeNik | osint_v3.py:53-96 | the record keeps the NIK; a NIK not 16 characters long gets three "unknown" region fields and no birth fields |
| Nik.SearchProvince | osint_v3.py:61-64 | the province loop returns exactly FindProvince's answer |
| Nik.SearchRegency | osint_v3.py:68-73 | the regency loop returns exactly FindRegency's answer |
| Nik.SearchDistrict | osint_v3.py:77-80 | the district loop returns exactly FindDistrict's answer |
| Nik.ParseNik | osint_v3.py:53-96 | the step-by-step record building gives exactly DecodeNik's record |
| Nik.NikSummary | osint_v3.py:54-93 | the NIK row first, then the three region rows, then the date and gender rows when present (6 or 4 rows) |
| Nik.LocateRegionFirstMatch | osint_v3.py:57-80 | each level takes the first matching entry in table order; a province is found exactly when one matches; a regency miss below a found province means every matching regency is preceded by one with an empty code; a district miss means none matches |
| Nik.EarlierProvinceWins | osint_v3.py:62-64 | entries after a matching province never change the match |
| Nik.EmptyTableAllUnknown | osint_v3.py:54-59 | with no region table all three region fields are "unknown" |
| Nik.WrongLengthNik | osint_v3.py:54-56 | a NIK of the wrong length gets exactly the NIK row and three "unknown" region rows |
| Nik.IntOf2Forms | osint_v3.py:83-85 | `int()` reads `07`, `+7`, ` 7` and `7 ` as 7 and `-7` as -7; a tab counts as whitespace; it rejects `7-`, `--`, two spaces and the separator character `\x1c` before a digit |
| Nik.TwoDigitsParses | osint_v3.py:92 | a zero-padded two-digit field reads back as its number |
| Nik.Pad2Parses | osint_v3.py:92 | `{n:02d}` reads back through `int()` as n, negative values included |
| Nik.Digits4Parses | osint_v3.py:92 | the two halves of a printed year read back as its century and its last two digits |
| Nik.DateRoundTrip | osint_v3.py:92 | the date text holds exactly the day, month and year it was built from: ParseDate inverts FormatDate |
| Nik.FullYearWindow | osint_v3.py:90-91 | for a two-digit field and a current year in 2000..2099, the full year lies in the hundred years ending with the current year |
| Nik.IntOf2At | osint_v3.py:83-85 | two digits in the NIK are read as the number they show |
| Nik.BirthPresence | osint_v3.py:82-95 | the birth fields are present whenever positions 7-12 are digits, and only when each of those characters is a digit, sign or whitespace |
| Nik.BirthFields | osint_v3.py:83-93 | for digit fields: a woman exactly when the day field exceeds 40, a man otherwise; the date shows the day (minus 40 for a woman), the month and the resolved year |
| Nik.DigitsDecode | osint_v3.py:83-85 | with digits in the date positions, the decoder reads the three two-digit numbers |
| Nik.UsageExampleDecoded | osint_v3.py:82-93 | the usage-line NIK decodes to a woman born on 03-08-2005 |
| Dork.PrimaryLink | osint_v3.py:117-121 | an accepted href starts with `/url?q=`; the link starts with `http`, lies right after the marker, holds no `&` and no second marker, and ends at the end of the href or just before an `&` or a marker |
| Dork.PrimaryLinkAccepts | osint_v3.py:118-121 | the converse of PrimaryLink: every text after `/url?q=` that starts with `http`, holds no `&` or marker, and ends at the end of the href or before an `&` or marker is the accepted link |
| Dork.PrimaryLinkExample | osint_v3.py:119 | a redirect link is cut at its first `&` |
| Dork.PrimaryLinksSound | osint_v3.py:116-121 | every primary link comes from some anchor |
| Dork.PrimaryLinksComplete | osint_v3.py:116-121 | every anchor accepted by the primary rule contributes its link |
| Dork.FallbackLinksMembers | osint_v3.py:123-127 | a fallback link is exactly a non-empty href that mentions `http` and not `google` |
| Dork.ExtractedLinksMeaning | osint_v3.py:115-127 | each extracted link comes from the primary rule, or from the fallback when the primary rule found nothing |
| Dork.Dedup | osint_v3.py:129-132 | no duplicates; the same elements as the input; no longer than the input |
| Dork.DedupOrder | osint_v3.py:128-132 | duplicates removed keep the order of first appearance |
| Dork.Take | osint_v3.py:133 | `s[:n]`: the prefix of `s` of length n, or all of `s` when it is shorter |
| Dork.SearchResultsMeaning | osint_v3.py:106-135 | results have no duplicates and number at most 25; a failure or a status other than 200 gives none; on status 200 they are exactly the first min(25, n) of the n distinct extracted links, in order of first appearance |
| Dork.CollectLinks | osint_v3.py:114-127 | the two anchor loops compute exactly the extracted links |
| Dork.DedupLinks | osint_v3.py:129-132 | the `seen`/`uniq` loop computes exactly Dedup |
| Dork.SearchRaw | osint_v3.py:106-135 | `google_search_raw` on a response equals SearchResults, with no duplicates and at most 25 URLs |
| Dork.Query | osint_v3.py:140 | a query is the target in double quotes, preceded by the site scope and one space when the scope is not empty, with nothing else |
| Dork.QueryInjective | osint_v3.py:140 | different site scopes give different queries |
| Dork.BuildQueries | osint_v3.py:138-141 | one query per site scope, in order |
| Dork.DorkTarget | osint_v3.py:137-152 | the result map has distinct keys, exactly the queries of the site list, and each holds its search's results (none when the search raised) |
| Dork.RecordResult | osint_v3.py:151 | storing one search result keeps the keys distinct and every entry faithful to its search |
| Dork.KeysQuoteTarget | osint_v3.py:140 | every key of a result map ends with the target in double quotes |
| Dork.DistinctSitesDistinctQueries | osint_v3.py:139-144 | distinct site scopes give pairwise distinct queries |
| Report.EscapeSafe | osint_v3.py:157-166 | escaped text holds no `<`, `>`, `"` or `'`, and is no shorter than the original |
| Report.EscapeRoundTrip | osint_v3.py:157-166 | escaping loses nothing: unescaping gives back the original text |
| Report.EscapePlain | osint_v3.py:157-166 | text without `&` and markup characters is left unchanged |
| Report.LinkPartsMeaning | osint_v3.py:165-166 | one link item per URL, in order |
| Report.RowPartsMeaning | osint_v3.py:159-160 | one row part per summary entry, in order |
| Report.DorkPartsAppend | osint_v3.py:163-167 | the query blocks follow the result map's entries in order |
| Report.EntryPartsLayout | osint_v3.py:157-163 | an entry is its heading, table start, one row per summary entry, table end, dorking heading, then its query blocks |
| Report.QueryPartsCapped | osint_v3.py:163-167 | a query block is its heading, then the first min(n, 30) links in order, then the list end |
| Report.LinkMarkupReadsBack | osint_v3.py:166 | a link item's address and text are the escaped URL, which holds no markup and reads back as the URL |
| Report.RenderQuery | osint_v3.py:164-167 | the query loop produces exactly the rendered query block |
| Report.RenderRows | osint_v3.py:159-160 | the summary loop produces exactly one rendered row per summary entry, in order |
| Report.RenderDork | osint_v3.py:163-167 | the dork loop produces exactly the rendered blocks of every query, in order |
| Report.RenderEntry | osint_v3.py:156-167 | one entry renders as heading, table start, rows, table end, dorking heading, query blocks |
| Report.RenderBody | osint_v3.py:155-169 | the body is the join of the rendered parts of every entry, in order |
| Report.Join | osint_v3.py:169 | `"".join(parts)` |
| Orchestrator.DorkSubject | osint_v3.py:178-187 | queries use a phone number's normal form, and the target itself otherwise |
| Orchestrator.ProcessTarget | osint_v3.py:177-188 | the entry has the kind's title and summary (NIK record, phone record, or the note row), and one faithful result list per query of the subject over all site scopes |
| Orchestrator.ProcessAll | osint_v3.py:194-200 | one such entry per target |
| Orchestrator.Run | osint_v3.py:190-203 | with fewer than two arguments there are no entries and no report; otherwise one entry per target, rendered into the document |
| Orchestrator.EntryLinksBounded | osint_v3.py:165 | when searches are `google_search_raw`, each stored list has no duplicates and at most 25 URLs, so the 30-link cap never hides a link |
| Orchestrator.QueriesQuoteSubject | osint_v3.py:180-187 | every query of an entry ends with the subject in double quotes |
| Orchestrator.PhoneSubjectLocal | osint_v3.py:183-184 | a phone number is searched as digits starting with `0`, and `+62`… is searched as its `0`… form |

## Left out

- Fetching: the HTTP request, the query URL and its escaping (`requote_uri`), the User-Agent header, the timeout and the HTML parser are not modelled. A search is a function parameter, and a page is its status and anchor hrefs.
- Concurrency: both thread pools are modelled as sequential loops in submission order. osint_v3.py fills the result map and the entry list in completion order.
- Dork.DorkTarget: states the key set of the result map but not its key order, because in osint_v3.py that order is completion order.
- Orchestrator.Run: keeps entries in target order. osint_v3.py appends them in completion order, so the program guarantees only the set of entries.
- The clock: `datetime.now()` becomes the `currentYear` and `generated` parameters. The timestamp format is not modelled.
- Loading `kode_wilayah.json`: the table is a parameter. The file is assumed to have the shape the code reads: codes map to objects with `nama` and nested `kabupaten`/`kecamatan` objects, and every name is a string. A name stored as JSON `null` is not modelled: the program records Python `None` for it, and the report shows it as "None". Other shapes, such as a code that maps to something other than an object, make the program raise and are not modelled.
- Writing the report file, choosing its name, and the progress lines `main` prints are not modelled.
- Classifier.Classify: `\d` is taken as the ASCII digits. Python's `re` also matches other Unicode decimal digits.
- Nik.IntOf2: models `int()` for ASCII digits and ASCII whitespace only (space and `\t`..`\r`, the set `int()` strips from an ASCII string; `\x1c`..`\x1f` are rejected). Python also accepts other Unicode digits and spaces.
- The `str()` calls before escaping are left out, because the model's summary keys and values are all strings. The one case where they differ is a region name stored as JSON `null`, which `str()` prints as "None"; the region-file line above leaves it out.
- An exception escaping a worker in `main` is not modelled. Every modelled operation is total.
- `osint_builder.py` is not part of this model.
