# Election results scraper — a Dafny model of its data shaping

The scraper walks a national election-results site from the country page to
every region page and every municipality page, and writes one CSV per region:
five fixed columns (`id`, `location`, `registered voters`, `envelopes`,
`valid votes`) and then one column per party seen anywhere in that region,
sorted by name. A municipality whose fetch raises an exception (a
connection error, say) is skipped; a page served with an HTTP error status
is not an exception and is parsed like any other, giving a row of empty
cells and no parties. A party a municipality did not report reads `"0"`.

This project models the pure part of that pipeline and proves its
properties:

- `Pairing` — Python's truncating `zip` and the dict built from zipped
  (party, votes) pairs, where a repeated party keeps its last vote count.
- `StringOrder` — Python's ordering of strings (`LexLess`), strictly sorted
  sequences, and `sorted()` of a set (`SortedOf`), proved to be the one
  strictly sorted sequence with exactly the set's elements.
- `Slug` — `slugify`: decompose, keep ASCII, lower-case `A`-`Z`, replace
  spaces by `_`. The decomposition is a parameter (`SlugifyWith`); the
  concrete `Slugify` uses a table of the accented letters of Czech
  (`Nfkd`).
- `Output` — `create_link`, the CSV header, the file name
  `vysledky_<slug>.csv`, and what `write_municipality_csv` puts into a file.
- `Aggregate` — one region: drop failed fetches, build the five leading
  cells, collect the party union, sort it, expand each row against it.
- `Scraper` — the driver: the site is a value of type `Site` (for each URL,
  the lists the HTML selectors return, or `None` when the fetch raises); the
  region loop stops at the first region page that cannot be fetched, as
  the uncaught exception does.
- `Scenarios` — concrete cases: pairing, truncation, last-wins, the
  two-municipality end-to-end table, and a skipped municipality.

The network, the HTML parser and the file system are not modelled: their
results are inputs (`Site`, `RegionIndex`, `MunicipalityIndex`,
`ResultPage`) and outputs (`CsvFile`).

## Model

| member | source | states |
|---|---|---|
| `Pairing.Zip` | main.py:176 | `zip` of two lists has the length of the shorter one and pairs equal positions |
| `Pairing.Zip3` | main.py:188-190 | `zip` of three lists has the length of the shortest one and groups equal positions |
| `Pairing.ZipMapKeys` | main.py:109 | the dict's keys are exactly the party names among the first `min(|parties|, |votes|)` positions |
| `Pairing.ZipMapLastWins` | main.py:109 | a party name maps to the vote paired with its last occurrence among the zipped positions |
| `Pairing.ZipMapIsInsertion` | main.py:109 | the dict equals inserting the truncated pairs one by one, in order, into an empty dict |
| `Pairing.ZipMapDistinct` | main.py:109 | with no repeated party the dict has `min(|parties|, |votes|)` entries, each party mapped to its own vote |
| `StringOrder.LexLessIsFirstDifference` | main.py:213 | the string order is: proper prefix first, else the first differing code point decides |
| `StringOrder.LexLessIrreflexive` | main.py:213 | no string precedes itself |
| `StringOrder.LexLessTransitive` | main.py:213 | the string order is transitive |
| `StringOrder.LexLessTotal` | main.py:213 | of two different strings one precedes the other |
| `StringOrder.LexLessAsymmetric` | main.py:213 | two strings never precede each other |
| `StringOrder.SortedOf` | main.py:213 | `sorted(set)` is strictly sorted, holds exactly the set's elements and has the set's size |
| `StringOrder.SortedUnique` | main.py:213 | two strictly sorted sequences with the same elements are equal |
| `StringOrder.SortedOfCharacterized` | main.py:213 | any strictly sorted sequence of exactly the set's elements is `sorted(set)` |
| `Slug.AsciiOnly` | main.py:128 | `encode("ascii", "ignore")` keeps exactly the ASCII characters and never lengthens the string; a one-character string is kept when ASCII and dropped otherwise |
| `Slug.AsciiOnlyAppend` | main.py:128 | the filter works piece by piece: filtering a concatenation concatenates the filtered parts, so with the one-character case it keeps the ASCII characters in order and with their repeats |
| `Slug.AsciiOnlyOfAscii` | main.py:128 | an ASCII string passes the ASCII filter unchanged |
| `Slug.Lower` | main.py:129 | `lower()` maps each character, changing only `A`-`Z` |
| `Slug.ReplaceSpaces` | main.py:129 | `replace(" ", "_")` maps each space to `_` and keeps every other character |
| `Slug.SlugifyWith` | main.py:128-129 | for any decomposition the slug is ASCII, has no space and no `A`-`Z` |
| `Slug.SlugifyAsciiName` | main.py:128-129 | on an ASCII name the slug keeps its length; spaces become `_`, capitals become lower case |
| `Slug.SlugifyWithIdempotent` | main.py:128-129 | when decomposition leaves ASCII strings alone, slugifying a slug changes nothing |
| `Slug.NfkdAsciiFixpoint` | main.py:128 | the decomposition table leaves every ASCII string unchanged |
| `Slug.Slugify` | main.py:113-129 | the slug is ASCII, has no space and no `A`-`Z` |
| `Slug.SlugifyIdempotent` | main.py:128-129 | `slugify(slugify(x)) == slugify(x)` |
| `Slug.SlugifyAppend` | main.py:128-129 | the slug of a concatenation is the concatenation of the slugs |
| `Slug.SlugifyOfAscii` | main.py:128-129 | an ASCII name slugifies character by character |
| `Slug.SlugifyExamples` | main.py:125 | `"Ústí nad Labem"` gives `"usti_nad_labem"`, `"Praha"` gives `"praha"`, `""` gives `""` |
| `Output.CreateLinkRoundTrip` | main.py:8-18 | stripping the base URL from `create_link(p)` gives back `p`, and every URL under the base is `create_link` of its path |
| `Output.CreateLinkInjective` | main.py:18 | distinct paths give distinct URLs |
| `Output.Header` | main.py:147-153 | the header has five fixed labels followed by the party names, position for position |
| `Output.FileName` | main.py:155 | the file name is ASCII, has no space and no capital letter |
| `Output.FileNameRoundTrip` | main.py:155 | the file name is `vysledky_`, then the slug of the region name, then `.csv` |
| `Output.FileNameCollision` | main.py:155 | two regions get the same file name exactly when their slugs are equal |
| `Output.WriteCsv` | main.py:132-161 | the file is named after the region's slug, its header is the five fixed labels followed by the parties (`5 + |parties|` cells) and it holds the rows as given |
| `Aggregate.SuccessesAppend` | main.py:192-196 | the fetched municipalities of a concatenated listing are those of each part, in order |
| `Aggregate.Collect` | main.py:185-211 | the first loop's party set is the union of the keys of the fetched municipalities only, and its rows are their five leading cells and dicts, in listing order |
| `Aggregate.VotesRow` | main.py:217 | the vote cells hold, per sorted party, the municipality's vote or `"0"` when the party is absent |
| `Aggregate.ExpandRowDescribes` | main.py:216-218 | expansion keeps the five leading cells and appends one cell per party |
| `Aggregate.PartyUniverseReported` | main.py:202 | a party is in the region's party set exactly when some fetched municipality reported it |
| `Aggregate.AggregateRegion` | main.py:185-219 | columns strictly sorted and equal to the party union of fetched municipalities; one row per fetched municipality, in order; each row has `5 + |parties|` cells: id, name, first (or `""`) registered voters, envelopes, valid votes, then the vote or `"0"` for every party |
| `Aggregate.RowDescribesUnique` | main.py:204-218 | a row is determined by its municipality and the party columns |
| `Aggregate.AggregateRowsDetermined` | main.py:215-219 | the region's rows are the only rows describing its fetched municipalities in order |
| `Aggregate.AggregateDependsOnlyOnSuccesses` | main.py:192-196 | two listings with the same fetched municipalities in the same order give the same table |
| `Aggregate.AggregateSkipsFailure` | main.py:192-196 | a municipality whose fetch fails, wherever it stands, leaves the table unchanged |
| `Scraper.ParseResults` | main.py:94-110 | the three lists are passed through and the party dict has the zipped keys, each with the vote of its last occurrence |
| `Scraper.FetchMunicipalities` | main.py:188-200 | one entry per (id, name, href) triple; it is missing exactly when the municipality URL cannot be fetched, and otherwise is that page's parse |
| `Scraper.ProcessRegion` | main.py:176-220 | a region yields a file exactly when its page is fetched; the file is named after its slug, rectangular, its party columns are strictly sorted and exactly the parties its fetched municipalities report, and row `k` holds the id, name, first three figures and per-party votes (or `"0"`) of the `k`-th fetched municipality |
| `Scraper.TableAligned` | main.py:147-153 | a header of fixed labels plus a strictly sorted union of reported parties, over rows describing the fetched municipalities, gives a rectangular file whose party columns are that union and whose every row describes its municipality |
| `Scraper.WriteRegionAligned` | main.py:213-220 | the file written for a region is rectangular; its party columns are the sorted union of the fetched municipalities' parties, and each row has the leading cells and votes of its municipality |
| `Scraper.ProcessRegions` | main.py:176-221 | the files follow the region order; the loop ends early exactly when a region page cannot be fetched, naming that region's URL |
| `Scraper.Run` | main.py:164-221 | a failed country page ends the run with no file; otherwise at most one file per zipped (href, name) pair, all of them when no region fails |
| `Scraper.RunFile` | main.py:176-221 | the `k`-th file belongs to the `k`-th region of the country listing: named after its slug, with that region's sorted party union as columns and one row per fetched municipality holding its leading cells and votes |
| `Scraper.RunStopped` | main.py:176-179 | an early stop names the URL of the region right after the last file, and that region page could not be fetched |
| `Scenarios.PairingExample` | main.py:109 | parties `Party A`, `Party B` with votes `120`, `45` give `{Party A: 120, Party B: 45}` |
| `Scenarios.PairingTruncates` | main.py:109 | three parties with two votes drop the third party |
| `Scenarios.PairingLastWins` | main.py:109 | a repeated party keeps the later vote |
| `Scenarios.EndToEnd` | main.py:185-219 | municipalities with A:10, B:5 and A:7, C:3 give columns A, B, C and vote cells 10, 5, 0 and 7, 0, 3 |
| `Scenarios.SkipsSecond` | main.py:192-196 | with the second of three municipalities failing, the table is that of the first and third, two rows |

## Left out

- Fetching pages (`get_parsed_response`, main.py:21-32) and the HTML selectors of `parse_regions`, `parse_municipalities` and `parse_results` (main.py:35-103): network I/O and a foreign HTML library. Their outputs are inputs of the model (`Site` and the index and page datatypes).
- A fetch outcome is a function of the URL: two fetches of the same URL give the same result in the model.
- CSV quoting, file opening and UTF-8 encoding (main.py:157-160): file I/O. `CsvFile` holds the header and rows that would be written.
- The console lines (main.py:195, main.py:221): output only.
- Exception types: a municipality fetch that raises is `None`; a country or region fetch that raises ends the run (`RunOutcome.failedUrl`). A response with an HTTP error status does not raise (the response is never checked) and is modelled as `Some` page with whatever lists the selectors return, usually empty ones. Exceptions the selectors could raise (an `a` element without `href`) are not modelled.
- Two regions whose slugs coincide would overwrite one file on disk; the model keeps both entries, and `Output.FileNameCollision` says when this happens.
- Slug.Slugify: uses a decomposition table covering the accented letters of Czech only; any other non-ASCII character is kept whole and then dropped, whereas full Unicode NFKD would turn, for example, a ligature into its ASCII letters. `Slug.SlugifyWith` states the properties for any decomposition that leaves ASCII alone.
- Python strings may hold lone surrogate code points; Dafny's `char` cannot.
- The code pairs lists by position and silently truncates on a length mismatch; the model does the same rather than failing on unequal lengths.
