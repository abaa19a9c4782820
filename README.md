# Hyper-Ingest core, modelled in Dafny

Hyper-Ingest collects open-data catalogue records from data.gouv.fr and
enriches them with keywords. It loads them into a local table and searches
them. This project models five sequential pieces of it and proves what each
one promises:

- **Keyword enrichment** (`enrich_data.py`): the analysis text, the entity
  filter (score above 0.9, no `##` sub-words), apostrophe cleaning, the union
  with existing tag names, and the per-record fallback. Modules `JsonValues`
  and `Enrich`.
- **Table import** (`import_json_to_duckdb.py`): the column union, the
  row-order type scan, and one value list per INSERT. Module `ImportTable`.
- **Search helpers** (`src/search/SearchService.cpp`):
  - percent-encoding (`Url`), URL splitting (`Url`) and text normalisation
    (`Normalise`);
  - the format, MIME and theme tables (`Catalog`);
  - query-URL assembly (`SearchUrl`);
  - resource filtering (`Acceptance`);
  - the filtering and pagination of the offline search (`LocalSearch`).
- **Search criteria** (`include/search/SearchService.hpp`): the resource
  record and its predicates, the defaults (`Catalog`), and the builder whose
  setters update one field in place (`Builder`).
- **Ring buffer** (`include/core/RingBuffer.hpp`): a bounded FIFO over a
  power-of-two array, with one sequence number per slot (`Ring`). It runs
  sequentially, so every compare-and-swap succeeds at once.

C++ `std::string` values are byte strings: `Bytes`, sequences of characters
below 256. Python strings are Dafny `string`. JSON values are the `Json`
datatype.

Where the component's written description and its code disagree, the model
follows the code:

- **Column typing.** The type scan is "last typed value wins" and depends on
  row order (`ImportTable.ScanIsOrderDependent`). It is not an
  order-independent "most general type" merge.
- **Apostrophes.** A word with an apostrophe keeps the text between its
  first and second apostrophe (`split("'")[1]`). It does not keep everything
  after the first one.
- **Blank analysis text.** The pass-through for a blank analysis text never
  fires. The text always holds `". "` (`Enrich.AnalysisTextNeverBlank`), so
  every record gives exactly one output record.

## Model

| member | source | states |
|---|---|---|
| Enrich.AnalysisTextNeverBlank | enrich_data.py:43-46 | `"{title}. {description}"` is never blank after `strip()`, so the `continue` never runs |
| Enrich.CleanWord | enrich_data.py:60-61 | a word without an apostrophe is kept verbatim; a cleaned word never holds an apostrophe |
| Enrich.CleanWordIsSecondField | enrich_data.py:60-61 | for any split `a ' m b` with no apostrophe in `a` or `m`, and `b` empty or starting at the next apostrophe, the cleaned word is exactly `m` |
| Enrich.CleanWordDecomposes | enrich_data.py:60-61 | conversely, every word with an apostrophe splits as `a ' CleanWord(w) b` of that shape |
| Enrich.CollectKeywords | enrich_data.py:53-63 | the loop's set is exactly the cleaned words of entities scoring above 0.9 whose word holds no `##` |
| Enrich.KeywordProvenance | enrich_data.py:53-70 | a value is a keyword iff it is an existing tag name or the cleaned word of an accepted entity; a low-score or `##` entity contributes nothing of its own |
| Enrich.EnrichOne | enrich_data.py:49-78 | on success the output is a copy with every other field unchanged and `enriched_keywords` set (added, or overwritten when present) to a list holding each keyword exactly once; when extraction or the tag-name set raises, it is the original record |
| Enrich.EnrichData | enrich_data.py:34-81 | one output record per input record, in input order, each enriched or passed through as above |
| Enrich.ParisBudgetExample | enrich_data.py:53-70 | an entity scoring 0.95 and one existing tag give both as keywords |
| ImportTable.CollectColumns | import_json_to_duckdb.py:21-24 | the columns are exactly the union of the rows' keys, each once |
| ImportTable.UntypedColumnIsVarchar | import_json_to_duckdb.py:27-38 | a column with no int, bool, float, list or dict value stays VARCHAR |
| ImportTable.LastTypedValueWins | import_json_to_duckdb.py:30-38 | the type is fixed by the last typed value in row order; strings and missing values leave it unchanged |
| ImportTable.ScanIsOrderDependent | import_json_to_duckdb.py:30-38 | `[42, 42.5]` gives DOUBLE but `[42.5, 42]` gives INTEGER |
| ImportTable.CompoundThenIntIsInteger | import_json_to_duckdb.py:30-38 | a list followed by an int gives INTEGER: a compound value does not pin the column to VARCHAR |
| ImportTable.ColumnTypeSnoc | import_json_to_duckdb.py:30-38 | scanning one more row is one more step of the fold |
| ImportTable.ScanRow | import_json_to_duckdb.py:31-38 | one row's pass updates every column by one step and adds no key |
| ImportTable.InferTypes | import_json_to_duckdb.py:27-38 | the nested loops give each column the type of the whole-table fold |
| ImportTable.RowValues | import_json_to_duckdb.py:47-53 | one value per column, in column order: None for a missing key, the `json.dumps` text for a list or dict, the value itself otherwise |
| ImportTable.ImportRecords | import_json_to_duckdb.py:21-55 | distinct columns that are the key union, each typed by the scan; one INSERT per row, each with one value per column in the CREATE TABLE order |
| Url.UrlEncode | src/search/SearchService.cpp:25-38 | the loop's output is the byte-by-byte encoding |
| Url.EncodedLength | src/search/SearchService.cpp:30-36 | output length is input length plus two per escaped byte |
| Url.EncodedAlphabet | src/search/SearchService.cpp:30-36 | the output holds only unreserved bytes, `%` and lower-case hex digits |
| Url.DecodeEncoded | src/search/SearchService.cpp:25-38 | percent-decoding the output gives back the input (RFC 3986, section 2.1) |
| Url.HexRoundTrip | src/search/SearchService.cpp:34 | a hex digit written with `std::hex` reads back as its value |
| Url.ParseUrl | src/search/SearchService.cpp:58-78 | a URL the pattern rejects gives three empty strings |
| Url.ParseAssembled | src/search/SearchService.cpp:58-78 | a well-formed URL parses to its host; the port defaults to 443 only when the scheme text is exactly `https` and to 80 otherwise; an empty path becomes `/` |
| Url.ParsedIsAssembled | src/search/SearchService.cpp:58-78 | conversely, any URL with a non-empty parsed host is such a well-formed URL |
| Normalise.ReplaceEvery | src/search/SearchService.cpp:103-107 | the `find`/`replace` loop replaces every occurrence left to right and does not rescan the replacement |
| Normalise.ReplaceAccents | src/search/SearchService.cpp:86-108 | the table loop applies the 30 accent rules in table order |
| Normalise.AccentPatterns | src/search/SearchService.cpp:86-99 | the table has 30 entries; each pattern is two bytes starting with the UTF-8 lead byte 0xC3, and each replacement is one lower-case letter |
| Normalise.ApplyTableWithoutLead | src/search/SearchService.cpp:101-108 | text without the lead byte passes the table unchanged |
| Normalise.FilterLower | src/search/SearchService.cpp:110-114 | the filter loop keeps letters, digits, space and `-`, lower-cased |
| Normalise.TrimDecomposes | src/search/SearchService.cpp:116-120 | trimming removes only leading and trailing spaces |
| Normalise.NormaliserTexte | src/search/SearchService.cpp:81-121 | the method computes the normal form |
| Normalise.NormalisedShape | src/search/SearchService.cpp:81-121 | the result holds only lower-case letters, digits, spaces and `-`, with no leading or trailing space |
| Normalise.NormaliseIdempotent | src/search/SearchService.cpp:81-121 | normalising twice equals normalising once |
| Normalise.NothingKeptIsEmpty | src/search/SearchService.cpp:101-120 | the text normalises to `""` exactly when, after the accent loops, it holds no letter, digit or `-` (both directions) |
| Normalise.MultiplicationSignVanishes | src/search/SearchService.cpp:86-120 | a two-byte UTF-8 character outside the table (`×`, C3 97) is dropped entirely and normalises to `""` |
| Catalog.RessourcePredicates | include/search/SearchService.hpp:70-71 | `estValide` holds for status 200 and not for 404 or 500; `estConforme` holds iff a schema is present |
| Catalog.ThemeTagEmpty | src/search/SearchService.cpp:195-240 | only TOUTES has an empty tag and an empty tag list |
| Catalog.ThemeTagsDistinct | src/search/SearchService.cpp:196-211 | no theme's tag list repeats a tag |
| Catalog.ThemeTagInTags | src/search/SearchService.cpp:196-240 | a theme's own tag is in its list except for TOUTES and TRANSPORTS, whose tag `transports` is missing from its list |
| Catalog.MimeToFormatRecognises | src/search/SearchService.cpp:253-280 | a format is recognised iff the lower-cased type contains one of the markers, and the answer never depends on case |
| Catalog.FirstMarker | src/search/SearchService.cpp:253-280 | for any text: when the lower-cased text contains marker j and none of the markers before it (order csv, comma-separated, geo+json, geojson, json, parquet, xml), the format is marker j's |
| Catalog.LongNameExamples | src/search/SearchService.cpp:253-280 | `text/comma-separated-values` is CSV and `application/vnd.geo+json` is GEOJSON, though each holds every letter of an earlier marker |
| Catalog.MimeRoundTrip | src/search/SearchService.cpp:242-280 | `mimeTypeVersFormat(formatVersMimeType(f)) == f` for every format |
| Catalog.MimeCaseExamples | tests/test_SearchService.cpp:61-69 | `TEXT/CSV` and `Application/JSON` are recognised |
| Catalog.GeoJsonVariant | tests/test_SearchService.cpp:42-51 | `application/geojson` is GEOJSON, not JSON |
| Catalog.UnknownMimeExamples | tests/test_SearchService.cpp:53-59 | PDF and PNG types are not recognised |
| SearchUrl.ConstruireUrlRecherche | src/search/SearchService.cpp:321-365 | the stream appends and `pop_back` give the base address followed by the parameters joined with `&` |
| SearchUrl.TerminatedIsJoin | src/search/SearchService.cpp:359-362 | dropping the final `&` of "each parameter followed by `&`" gives the `&`-joined parameters |
| SearchUrl.StartsWithHead | src/search/SearchService.cpp:323 | the URL starts with `baseUrl_ + "/datasets/?"` |
| SearchUrl.HasPageParams | src/search/SearchService.cpp:348-349 | the URL always contains `page=` and `page_size=` with their values |
| SearchUrl.InUrl | src/search/SearchService.cpp:326-357 | every parameter written occurs in the URL |
| SearchUrl.NeverEndsWithAmpersand | src/search/SearchService.cpp:351-362 | the URL never ends with `&` |
| SearchUrl.SortParameter | src/search/SearchService.cpp:351-357 | a `sort=` parameter is present iff `tri` is non-empty and not `relevance` |
| SearchUrl.LastParameter | src/search/SearchService.cpp:348-357 | the last parameter is the sort key when sorting, else `page_size` |
| SearchUrl.SortExamples | src/search/SearchService.cpp:352-355 | created, last_modified and downloads map to -created, -last_modified and -views; other keys pass through |
| SearchUrl.DefaultUrl | src/search/SearchService.cpp:321-365 | the default criteria give `.../datasets/?page=1&page_size=20` |
| Bytes.DecimalRoundTrip | src/search/SearchService.cpp:348-349 | the decimal text written for a page number reads back as that number |
| Bytes.LowerIdempotent | src/search/SearchService.cpp:255 | lower-casing twice equals lower-casing once |
| Acceptance.Rejections | src/search/SearchService.cpp:663-696 | the four rejections: a recognised format not accepted; PDF or image exclusion, only for unrecognised types; a secondary resource under main-only; a required schema that is absent or not contained |
| Acceptance.RecognisedIgnoresExclusions | src/search/SearchService.cpp:665-685 | for a recognised format the PDF and image flags play no part |
| Acceptance.AcceptedWithoutOptions | src/search/SearchService.cpp:663-713 | without optional tests, a recognised resource is accepted iff its format is accepted and it is main or need not be |
| Acceptance.MoreFormatsAcceptMore | src/search/SearchService.cpp:666-669 | accepting more formats never rejects an accepted resource |
| Acceptance.AgeExamples | src/search/SearchService.cpp:698-704 | the age is whole hours then whole days, truncated toward zero |
| Acceptance.FiltrerRessources | src/search/SearchService.cpp:715-741 | the loop computes the resource-by-resource filter, the availability probe included |
| Acceptance.UncheckedKeepsAcceptedInOrder | src/search/SearchService.cpp:715-741 | with the availability check off, the result is exactly the accepted resources, unchanged and in input order |
| Acceptance.CheckedKeepsAcceptedInputs | src/search/SearchService.cpp:719-737 | with the check on, every kept resource is an accepted input with at most its status and MIME type replaced |
| Acceptance.DefaultExamples | src/search/SearchService.cpp:663-713 | the defaults drop a PDF and keep a main CSV file |
| LocalSearch.SplitWords | src/search/SearchService.cpp:862-870 | `while (ss >> word)` yields the whitespace-separated words |
| LocalSearch.WordsOfUnwords | src/search/SearchService.cpp:865-869 | splitting space-joined words gives back the words |
| LocalSearch.EstCertifie | src/search/SearchService.cpp:879-892 | the badge scan finds a public-service, certified or spd badge iff one exists |
| LocalSearch.ConstruireCorpus | src/search/SearchService.cpp:899-917 | the corpus is title, description, tags and keywords, each followed by a space, skipping absent or non-string ones |
| LocalSearch.TagInCorpus | src/search/SearchService.cpp:905-910 | every string tag occurs in the corpus |
| LocalSearch.StrFindContains | src/search/SearchService.cpp:922 | `find` succeeds iff the word is a substring |
| LocalSearch.ToutesPresentes | src/search/SearchService.cpp:921-926 | the word loop succeeds iff every query word is a substring of the corpus |
| LocalSearch.CorrespondTheme | src/search/SearchService.cpp:931-948 | the nested tag loops succeed iff some dataset tag is one of the theme's tags |
| LocalSearch.Garde | src/search/SearchService.cpp:875-949 | a dataset is kept iff it passes the certification, text and theme filters |
| LocalSearch.ConstruireJeu | src/search/SearchService.cpp:951-971 | the record built holds the dataset's fields and one entry per resource, with the format of its MIME type |
| LocalSearch.Filtrer | src/search/SearchService.cpp:875-973 | the results are the records of the kept datasets, in file order |
| LocalSearch.MatchesAreKept | src/search/SearchService.cpp:875-973 | every result comes from a kept input dataset, and there are no more results than datasets |
| LocalSearch.CertifiedOnlyResults | src/search/SearchService.cpp:893-895 | under certified-only every result is certified |
| LocalSearch.NoFilterKeepsAll | src/search/SearchService.cpp:875-973 | with no filter every dataset is a result, in order |
| LocalSearch.TextFilter | src/search/SearchService.cpp:898-928 | a dataset passes the text filter iff every query word is a substring of its normalised corpus |
| LocalSearch.ThemeFilter | src/search/SearchService.cpp:931-949 | under a theme every result has a tag from the theme's list |
| LocalSearch.PageSlice | src/search/SearchService.cpp:981-988 | the page is `matches[(page-1)*parPage ..]`, at most `parPage` long, reading only valid indices |
| LocalSearch.PageSliceAgrees | src/search/SearchService.cpp:981-988 | from page 1 on, that page is exactly what the loop reads |
| LocalSearch.Paginer | src/search/SearchService.cpp:981-988 | the page loop computes the page |
| LocalSearch.TotalPagesIsCeiling | src/search/SearchService.cpp:979 | `totalPages` is the ceiling of results over page size when both are positive |
| LocalSearch.TotalPagesZero | src/search/SearchService.cpp:979 | `totalPages` is 0 iff there are no results or the page size is not positive |
| LocalSearch.EveryResultOnItsPage | src/search/SearchService.cpp:979-988 | each result appears at a position on a page numbered from 1 to `totalPages` |
| LocalSearch.PageWithinCount | src/search/SearchService.cpp:979-983 | a page that starts before the end is numbered at most `totalPages` |
| LocalSearch.PageZeroReadsBeforeFirst | src/search/SearchService.cpp:981-988 | page 0 with one result per page makes the loop read index -1 |
| LocalSearch.RechercherLocal | src/search/SearchService.cpp:837-997 | an unreadable file gives the empty result; otherwise the paginated matches with their counts |
| LocalSearch.ResultCounts | src/search/SearchService.cpp:975-988 | the total is the number of matches, at most the number of datasets; the page holds at most the total and at most `parPage` results |
| Builder.CriteresBuilder.constructor | include/search/SearchService.hpp:96-120 | a fresh builder holds the documented defaults |
| Builder.CriteresBuilder.Thematique | include/search/SearchService.hpp:181 | sets only the theme |
| Builder.CriteresBuilder.Requete | include/search/SearchService.hpp:182 | sets only the query text |
| Builder.CriteresBuilder.Tag | include/search/SearchService.hpp:183 | appends the tag after the earlier ones, which keep their order |
| Builder.CriteresBuilder.Source | include/search/SearchService.hpp:184 | sets only the source |
| Builder.CriteresBuilder.Organisation | include/search/SearchService.hpp:185 | sets only the organisation |
| Builder.CriteresBuilder.CertifieesUniquement | include/search/SearchService.hpp:186 | sets only the certified-only flag, to `true` when called without an argument |
| Builder.CriteresBuilder.Territoire | include/search/SearchService.hpp:187 | sets only the granularity |
| Builder.CriteresBuilder.CodeGeo | include/search/SearchService.hpp:188 | sets only the geographic code |
| Builder.CriteresBuilder.Format | include/search/SearchService.hpp:189 | adds one accepted format and removes none |
| Builder.CriteresBuilder.FormatsStricts | include/search/SearchService.hpp:190-194 | the accepted formats become exactly the listed ones |
| Builder.CriteresBuilder.Schema | include/search/SearchService.hpp:195 | sets only the required schema |
| Builder.CriteresBuilder.MiseAJourDepuis | include/search/SearchService.hpp:196 | sets only the maximum age |
| Builder.CriteresBuilder.RessourcePrincipaleUniquement | include/search/SearchService.hpp:197 | sets only the main-resource flag, to `true` when called without an argument |
| Builder.CriteresBuilder.VerifierDisponibilite | include/search/SearchService.hpp:198 | sets only the availability flag, to `true` when called without an argument |
| Builder.CriteresBuilder.Page | include/search/SearchService.hpp:199 | sets only the page |
| Builder.CriteresBuilder.ParPage | include/search/SearchService.hpp:200 | sets only the page size |
| Builder.CriteresBuilder.Tri | include/search/SearchService.hpp:201 | sets only the sort key |
| Builder.CriteresBuilder.Build | include/search/SearchService.hpp:202 | returns the criteria and leaves the builder unchanged |
| Builder.DefaultsExample | tests/test_SearchService.cpp:91-101 | the built defaults, field by field |
| Builder.TagsExample | tests/test_SearchService.cpp:119-128 | two tags keep their order |
| Builder.StrictFormatsExample | tests/test_SearchService.cpp:141-150 | strict formats replace the defaults |
| Builder.ChainExample | tests/test_SearchService.cpp:178-200 | chained setters compose, and the untouched fields keep their defaults |
| Ring.OnlyPowersPass | include/core/RingBuffer.hpp:17 | a non-zero size with `size & (size - 1) == 0` is a power of two |
| Ring.PowersPass | include/core/RingBuffer.hpp:17 | every power of two passes that test |
| Ring.MaskIsSlot | include/core/RingBuffer.hpp:31 | `pos & (2^k - 1)` is `pos mod 2^k` |
| Ring.SlotsDiffer | include/core/RingBuffer.hpp:44 | positions less than a capacity apart use different slots |
| Ring.InitialSlots | include/core/RingBuffer.hpp:19-24 | slot i's sequence starts at i, and both positions at 0 |
| Ring.InitialKeepsInvariant | include/core/RingBuffer.hpp:19-24 | the initial state satisfies the slot invariant |
| Ring.PushAttemptKeeps | include/core/RingBuffer.hpp:27-47 | with at least two slots a push never spins; it claims iff the buffer is not full and then advances `enqueuePos_` by 1; a refused push changes nothing; the invariant is kept |
| Ring.PopAttemptKeeps | include/core/RingBuffer.hpp:49-69 | a pop never spins; it claims iff the buffer is not empty and then advances `dequeuePos_` by 1; a refused pop changes nothing; the invariant is kept |
| Ring.CapacityOneOverwrites | include/core/RingBuffer.hpp:17-47 | size 1 passes the constructor's assert, yet two pushes both succeed and the next pop spins forever |
| Ring.RingBuffer.constructor | include/core/RingBuffer.hpp:13-25 | a valid, empty buffer of the requested power-of-two capacity, at least 2 |
| Ring.RingBuffer.Push | include/core/RingBuffer.hpp:27-47 | succeeds iff fewer than `capacity` elements are held, and then appends the element; otherwise changes nothing |
| Ring.RingBuffer.Pop | include/core/RingBuffer.hpp:49-69 | succeeds iff an element is held, and then returns the oldest and removes it; otherwise leaves the buffer and the out-parameter unchanged |
| Ring.FullExample | tests/test_RingBuffer.cpp:51-60 | four pushes into capacity 4 succeed and the fifth fails |
| Ring.EmptyExample | tests/test_RingBuffer.cpp:30-35 | popping an empty buffer fails and leaves the value as it was |
| Ring.FifoExample | tests/test_RingBuffer.cpp:62-78 | three elements come out in the order they went in |
| Ring.WrapAroundExample | tests/test_RingBuffer.cpp:80-94 | three fill-and-drain cycles of capacity 4 wrap round the array with no loss or reordering |

## Left out

- Concurrency, atomics, memory orders and the compare-and-swap retry loops of
  the ring buffer. Run sequentially, the first attempt always succeeds. The
  branch that would spin (`diff > 0`) is proved unreachable once the size is
  at least 2.
- Ring.RingBuffer.Push: positions are unbounded naturals; the wrap-around of
  the `size_t` counters after 2^64 operations is not modelled.
- Ring.FifoExample: stated for any three strings rather than only the
  test's `first`, `second` and `third`.
- The thread pool, the HTTP ingestor, the storage engine (DuckDB and
  simdjson), `api_service.py` and `src/main.cpp` are not part of this model.
- Network calls are left out: `httpGet`, `httpHead`, `rechercher`,
  `getDataset`, `telechargerRessource` and the asynchronous wrappers.
  `filtrerRessources` takes the availability probe as the function parameter
  `head`.
- Reading and parsing the JSON files is left out. `rechercherLocal` takes the
  parsed array, or `None` when the file cannot be opened or parsed. Its timing
  and console output are also left out.
- `parserReponse`, `getOrganisationsSPD`, `getThematiques`, the unused
  synonym table, `parseISODate` and `formatISODate` are not modelled. They
  are network-response parsing, constant data, or C-library date
  conversion.
- The clock: the age test of `ressourceAcceptee` takes `now` as whole
  seconds, and time points are whole seconds.
- The NER model is a parameter: the entity list, or an exception. Scores are
  reals, not floating-point values.
- `json.dumps` and Python's `str()` of a non-string title or description are
  opaque function parameters.
- The order of `list(set)` in Python is not fixed by the language. The
  model picks one, and its contracts state membership and absence of
  duplicates only.
- C++ `int` width: `(page - 1) * parPage` and `start_index + parPage` are
  unbounded integers, so their 32-bit overflow is not modelled.
- SearchUrl.StartsWithHead, SearchUrl.HasPageParams, SearchUrl.InUrl,
  SearchUrl.NeverEndsWithAmpersand, SearchUrl.SortParameter and
  SearchUrl.LastParameter are stated for any normalised query text. They
  hold for the actual normaliser as a special case.
- The URL carries no theme parameter: the code ignores `thematique`,
  `source`, `granularite` and the certification flag when it builds the
  query, and so does the model.
- LocalSearch.ConstruireJeu: models only the fields of `JeuDeDonnees` and
  `Ressource` that the search sets. `jeu` and `res` are default-initialised,
  so the strings and vectors they do not set are empty. Their remaining
  scalar fields are left indeterminate: `format`, `taille`, `estPrincipale`
  and `httpStatus` of a resource, and `thematique`, `frequenceMaj`,
  `nombreTelechargements`, `nombreReutilisations` and `score` of a dataset.
  The model does not represent them. A resource's format is `None` when
  `mimeTypeVersFormat` finds no format; `None` stands for that unset,
  indeterminate field.
- ImportTable.ImportRecords: gives the statements the script would send if
  DuckDB accepted every one of them. The script stops at the first statement
  DuckDB rejects (import_json_to_duckdb.py:43 and :55), and the model does
  not capture that abort. Examples of rejected statements:
  - an INSERT whose value DuckDB cannot cast to its column's type, such as
    the text `[]` in the INTEGER column of `CompoundThenIntIsInteger`, a
    non-numeric string, or an int wider than 32 bits in an INTEGER column;
  - the `CREATE TABLE datasets_enriched ()` that an empty record list
    yields.

  When a statement is rejected, fewer INSERTs are sent than
  `|table.inserts| == |data|` states.
- Enrich.EnrichData: the `print` calls are assumed not to raise. In the
  program, the `print` at enrich_data.py:73 runs after the append at :72. If
  it raises, the `except` branch appends the original record as well, so that
  dataset appears twice. A `print` that raises at :37, :76 or :80 ends
  `enrich_data`. The model writes no output and keeps one record per input.
- Enrich.EnrichOne: the tag-name set and the keyword union compare JSON
  values structurally. Python's set merges equal numbers and booleans: `1`,
  `1.0` and `True` are one element, and so are `0`, `0.0` and `False`. The
  model keeps them apart, so tags named `1` and `true` give one keyword in
  Python and two here. "Each keyword exactly once" holds up to that
  identification.

## Findings

| source | as written | input that shows it | evidently intended | confidence | as-written member | corrected member |
|---|---|---|---|---|---|---|
| include/core/RingBuffer.hpp:17 | the assert accepts any non-zero power of two, including 1 | size 1: two pushes both succeed, the second overwriting the first, and the next pop spins forever | a capacity of at least 2, as the sequence-number scheme needs | not executed | Ring.CapacityOneOverwrites | Ring.RingBuffer.constructor |
| src/search/SearchService.cpp:981-988 | the page loop runs whenever its start is below the result count, even when the start is negative | page 0, parPage 1, one result: the loop reads `all_matches[-1]` | an empty page for a start below 0 | not executed | LocalSearch.PageZeroReadsBeforeFirst | LocalSearch.PageSlice |
