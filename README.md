# Kakurizer discovery and enrichment, in Dafny

This project models the puzzle pipeline of the kakurizer repository. Its first pass
scans the paginated kakuro index, parses each listing `<section>` into an
`IndexPuzzle(id, timestamp_millis, page_url, difficulty)` and crawls page after page
until the oldest puzzle on a page is already in the store. The new puzzles are then
written to the store in batches of at most 500. Its second pass takes a stored puzzle,
picks the widest `<source>` image on the puzzle's page, decodes the image's width,
height and format, and writes all of that back onto the stored entity with one
`update`.

Files, one module each:

- `wrappers.dfy`: `Option`, `Result` (a value or a raised exception) and `Outcome`.
- `kakurizer_types.dfy`: `IndexPuzzle`, the `Difficulty` enum, the image metadata
  triple, `byte`, and the Python exceptions the core raises (`ValueError`,
  `IndexError`, `KeyError`, `AttributeError`).
- `text.dfy`: the Python string operations the core uses. These are
  `str.split(" ")`, `str.lower`, `str.replace`, `int()`/`str()`, string ordering
  and the regular expression `([^ ]*) .*`. Splitting, escaping, `int()`/`str()`,
  the ordering and the regular expression come with round-trip or order lemmas;
  `str.lower` is used only through the difficulty lemmas.
- `datastore_client.dfy`: entities, `make_index_puzzle`, the inclusive id-range
  query, and the `DatastoreClient` class whose `PutIndexPuzzles` runs the chunking loop.
- `index_scanner.dfy`: the section parser, `parse_index`, and the crawl
  (`GetNewPuzzles`, a loop proved against the recursive `CrawlFrom`).
- `img_finder.dfy`: variant selection, URL extraction, and
  `UpdatePuzzleWithImage`, which updates an `Entity` object in place.

Collaborators become parameters or state:

- An index page is the sequence of its `<section>` elements. Each section holds
  the few lookups the scanner makes: the first stripped string of the
  `fc-item__title` element, the `data-timestamp` of the time element, and the
  `href` of the link.
- The whole index is a finite `seq<seq<Tag>>`. A page number past its end is a
  page without sections.
- The store is the `DatastoreClient` object. It records every `put_multi` call,
  every `update` call, and a counter that allocates keys.
- The puzzle page, the image download and the image decoder are function
  parameters of `UpdatePuzzleWithImage`. The decoder returns `None` for bytes
  that are not an image.

Where the code behaves otherwise than a reader of its names and comments would expect, the model follows the code:

- The title is split on a single `" "`, not on any whitespace.
- A title with only one word makes `get_id` raise an uncaught `IndexError`. It is
  not a parse error.
- The stored difficulty is the enum name `"EASY"`, `"MEDIUM"` or `"HARD"`.
- A page with no puzzles makes the crawl raise `IndexError` at `page_puzzles[-1]`.
  The crawl does not just stop there.
- The known-id query uses the page's last and first ids, not its minimum and
  maximum ids. "No known id in the result" is therefore proved for pages
  listed newest first (`Bracketed`).
- "Already collected" compares whole records, as the namedtuple equality of the
  source does. The same record listed twice on one page is kept twice.
- A source without `sizes` raises `KeyError` from the sort. So does a chosen
  source without `srcset`. A `srcset` with no space makes the regex find no match,
  and `.group` on that raises `AttributeError`. Only an empty source list
  becomes the `ValueError` naming the puzzle and page.
- `get_ids` returns a one-shot generator, and the crawl's membership test consumes
  it. The model follows the documented "tuple of IDs" contract and tests
  membership in a set.

## Model

| member | source | states |
|---|---|---|
| IndexScanner.ParseIndexSkipsNonPuzzles | index_scanner.py:77-86 | a tag that is not a `<section>` with an `id` attribute, anywhere in the page, is filtered out and has no effect on the parsed page |
| IndexScanner.PuzzleSectionsAppend | index_scanner.py:73-74 | the puzzle sections of two runs of tags are those of the first run followed by those of the second |
| IndexScanner.DifficultyOfWord | index_scanner.py:161-169 | a lower-cased word maps to difficulty `d` exactly when it is the lower-cased name of `d` |
| IndexScanner.GetDifficulty | index_scanner.py:149-171 | success yields the name of some Difficulty; every failure is the single "Unable to find difficulty" ValueError |
| IndexScanner.ParseSectionFields | index_scanner.py:88-99 | success exactly when all four extractors succeed, with the record made of their values; otherwise the first failure in the order id, timestamp, url, difficulty (no partial record) |
| IndexScanner.ParseWellFormedSection | index_scanner.py:101-171 | a section whose title is `word id difficulty ...` with a numeric time stamp and a link parses to exactly that id, time stamp, verbatim link and difficulty name, in any letter case of the difficulty word |
| IndexScanner.ParseFixtureSection | index_scanner.py:88-99 | "Kakuro 123 hard", 98765, "puzzle.html" parses to IndexPuzzle(123, 98765, "puzzle.html", "HARD") |
| IndexScanner.ParseSectionErrors | index_scanner.py:101-171 | the error table: no title, empty title, one-word title (IndexError), no time element, no data-timestamp, a data-timestamp that is not an integer (int()'s ValueError), no link, no href, bad difficulty, each with its exception |
| IndexScanner.IdWordNotANumber | index_scanner.py:109-112 | a title of space-free words whose second word has no comma and is not an integer makes the section fail with int()'s ValueError for that word |
| IndexScanner.ParseTitleWithoutId | index_scanner.py:109-116 | "Kakuro hard" fails because "hard" is not an integer |
| IndexScanner.ParseTitleWithBadId | index_scanner.py:109-116 | "Kakuro abc hard" fails because "abc" is not an integer |
| IndexScanner.ParseIdWithComma | index_scanner.py:110-112 | commas are removed from the id word before it is read: "1,234" gives 1234 |
| IndexScanner.IdOfTitleWords | index_scanner.py:109-112 | for any title of space-free words whose second word is `str(id)`, the id read back is `id` (commas are covered by `ParseIdWithComma`, a leading `+` or leading zeros by `Text.ParseIntPlus` and `Text.ParseIntLeadingZero`) |
| IndexScanner.DifficultyOfTitleWords | index_scanner.py:158-171 | a title with fewer than three words fails on the difficulty; otherwise success depends only on the third word |
| IndexScanner.ParseTitleWithoutDifficulty | index_scanner.py:158-171 | "Kakuro 123" fails with the difficulty ValueError |
| IndexScanner.ParseTitleWithUnknownDifficulty | index_scanner.py:158-171 | "Kakuro 123 okayish" fails with the difficulty ValueError |
| IndexScanner.PuzzleSectionsMembers | index_scanner.py:73-74 | keeps exactly the sections `is_puzzle` accepts |
| IndexScanner.PuzzleSectionsKeepsPuzzles | index_scanner.py:73-74 | a page made only of puzzle sections keeps all of them, in order |
| IndexScanner.ParseSectionsAllOrNothing | index_scanner.py:75 | success exactly when every section parses, giving one record per section in order |
| IndexScanner.ParseSectionsFirstError | index_scanner.py:75 | on failure, the error is that of the first section that fails, all before it having parsed |
| IndexScanner.ParseSectionOf | index_scanner.py:88-99 | the section printed for a record is a puzzle section and parses back to that record |
| IndexScanner.ParseWellFormedPage | index_scanner.py:64-75 | a page of well-formed sections parses back to exactly its records, in order |
| IndexScanner.NewOnPageMembers | index_scanner.py:47 | keeps exactly the records of the page whose id is not known and that were not collected before |
| IndexScanner.NewOnPageKeepsAll | index_scanner.py:47 | when every record of the page is new, the whole page is kept, in order |
| IndexScanner.NewOnPageNoDuplicates | index_scanner.py:47 | a page without repeated records yields new records without repeats |
| IndexScanner.CrawlStep | index_scanner.py:41-49 | on a page with records the crawl adds the page's new records and goes on to the next page exactly when the last record was new, otherwise it stops there with what it has |
| IndexScanner.CrawlFails | index_scanner.py:43-45 | a page that fails to parse ends the crawl with its exception, and an empty page with IndexError, at that page |
| IndexScanner.GetNewPuzzles | index_scanner.py:27-51 | the loop returns exactly the result and page count of the crawl `CrawlFrom` from page 1, including the exceptions for an unparseable or empty page |
| IndexScanner.CrawlAvoidsKnownIds | index_scanner.py:44-48 | on pages listed newest first, no returned record has an id the store holds |
| IndexScanner.CrawlNoDuplicates | index_scanner.py:47-48 | no record is returned twice when no page lists it twice: repeats across pages are dropped |
| IndexScanner.CrawlExtends | index_scanner.py:41-49 | the crawl keeps what it has collected and only moves forward through the pages |
| IndexScanner.NewPuzzlesAreNew | index_scanner.py:27-51 | on pages each listed newest first (`Bracketed`) and without repeats within a page (`NoPageRepeats`), the full crawl returns only ids the store does not hold, each record once |
| IndexScanner.NewOnPageDescending | index_scanner.py:47 | the new records of a page listed newest first keep its order |
| IndexScanner.CrawlNewestFirst | index_scanner.py:41-48 | on an index whose pages are each in descending id order, each page's last id above the next page's first id, the collected records stay in strictly descending id order |
| IndexScanner.NewPuzzlesNewestFirst | index_scanner.py:27-51 | on such an index the full crawl returns its new records newest first (strictly descending ids) |
| IndexScanner.FetchesNextPageIff | index_scanner.py:41 | page N+1 is fetched if and only if page N has records and its last record was new |
| IndexScanner.StopsAtKnownLast | index_scanner.py:41-47 | a page whose last record's id is stored, and whose last id is at most its first id (so the range query covers it), is the last page fetched |
| IndexScanner.ContinuesAfterNewLast | index_scanner.py:41-47 | a page whose last record is neither stored nor collected is followed by the next page |
| IndexScanner.TwoPageScenario | index_scanner.py:35-51 | pages [10,9,8] and [7,6] with 6 stored: two pages are fetched and the result is [10,9,8,7] |
| ImgFinder.WidestSourceIsFirstMaximum | img_finder.py:62 | the chosen source has the lexically greatest `sizes`, and is the first such in document order (stable sort) |
| ImgFinder.WidestOfThree | img_finder.py:61-62 | of "300px", "400px" and "600px" the "600px" source is chosen |
| ImgFinder.TextualSizeOrder | img_finder.py:62 | sizes compare as text: "600px" is chosen over "1000px" |
| ImgFinder.ExtractImgUrl | img_finder.py:51-69 | a source without `sizes` raises KeyError, and an empty page raises the ValueError naming the puzzle and page, each exactly in those cases; success needs a non-empty list of sized sources |
| ImgFinder.ExtractFirstWord | img_finder.py:63-65 | for any chosen `srcset` of the form `word rest` with a space-free `word`, the URL is `word` with every "&amp;" replaced by "&" |
| ImgFinder.ExtractEscapedUrl | img_finder.py:64-65 | when the chosen `srcset` is an HTML-escaped URL, a space and a descriptor, the extracted URL is exactly the original URL |
| ImgFinder.ExtractFixtureUrl | img_finder.py:63-66 | the `srcset` text `http://image.jpg&amp;w=100 54`, left escaped, yields `http://image.jpg&w=100` |
| ImgFinder.ExtractParsedFixtureUrl | img_finder.py:63-66 | the test page's `srcset` as the HTML parser decodes it, `http://image.jpg&w=100 54`, yields `http://image.jpg&w=100` |
| ImgFinder.ExtractImgUrlSrcsetErrors | img_finder.py:63-65 | a chosen source without `srcset` raises KeyError, and one without a space raises AttributeError |
| ImgFinder.EnrichedFields | img_finder.py:40-46 | enrichment adds exactly the six image properties with the given values and leaves every other property unchanged |
| ImgFinder.EnrichedKeepsIndexPuzzle | img_finder.py:40-46 | an enriched entity still reads back as the same index puzzle (id, page url and the rest unchanged) |
| ImgFinder.EnrichedIdempotent | img_finder.py:40-46 | enriching twice with the same image equals enriching once |
| ImgFinder.ImageUpdate | img_finder.py:27-48 | missing `id` or `page_url` raises KeyError; success adds exactly the enrichment keys with has_img true |
| ImgFinder.UndecodableImageFails | img_finder.py:100-107 | an image the decoder rejects makes the update fail with ValueError("Cannot parse puzzle image") |
| ImgFinder.UpdatePuzzleWithImage | img_finder.py:27-48 | on success the entity holds the enriched fields, excludes `img_blob` from indexes and is written with one update; on any exception neither entity nor store changes |
| ImgFinder.NoSourcesFails | img_finder.py:63-69 | a page with no `<source>` elements makes the update fail with the ValueError naming the puzzle id and page URL |
| ImgFinder.UpdateWithDecodableImage | img_finder.py:36-46 | for any URL extracted from the page whose download decodes, the entity gains that URL, the downloaded bytes and the decoded metadata |
| Datastore.MakeIndexPuzzleRoundTrip | datastore_client.py:52-66 | the entity has the given key and exactly the four puzzle fields, which read back as the puzzle |
| Datastore.IndexEntities | datastore_client.py:48 | one entity per puzzle |
| Datastore.Chunks | datastore_client.py:44-45 | every chunk is non-empty and holds at most MAX_PUT_SIZE puzzles |
| Datastore.FlattenChunks | datastore_client.py:44-45 | the chunks concatenated in order are the input |
| Datastore.ChunksCount | datastore_client.py:44-45 | there are ceil(n / 500) chunks, none for an empty list |
| Datastore.ChunkAt | datastore_client.py:44-45 | chunk k is the slice starting at k * 500, cut at the end of the list |
| Datastore.IdsOfIndexEntities | datastore_client.py:48-49 | the ids written for a list of puzzles are exactly the puzzles' ids |
| Datastore.IdsBetween | datastore_client.py:21-33 | exactly the stored ids i with min <= i <= max |
| Datastore.DefaultRangeCoversAll | datastore_client.py:16-21 | with the default bounds every stored id in [-(2^63-1), 2^63-1] is reported; -2^63 lies outside the default range |
| Datastore.DatastoreClient.GetIds | datastore_client.py:21-33 | the client's query returns exactly its stored ids in the inclusive range |
| Datastore.AllocatedKeysAreNew | datastore_client.py:47 | keys numbered from the counter on differ from every stored key when all stored keys are numbered below the counter (`Valid`) |
| Datastore.DatastoreClient.AllocateIds | datastore_client.py:47 | allocates `size` consecutive keys of the puzzle kind, numbered from the counter, and advances the counter past them; `Valid` (the counter is above every written key id) then makes them differ from every key written, as `AllocatedKeysAreNew` states |
| Datastore.DatastoreClient.PutIndexPuzzles | datastore_client.py:35-50 | the writes are the chunks of the puzzles' entities, each puzzle paired with its own key; one key per puzzle; the stored ids grow by exactly the puzzles' ids; the counter stays above every written key (`Valid`) |
| Datastore.PutsAreAdditive | datastore_client.py:35-50 | putting id 1 and then id 2 into an empty store leaves both ids |
| Text.SplitJoin | index_scanner.py:111 | joining space-free words and splitting on " " gives the words back |
| Text.JoinSplit | index_scanner.py:111 | splitting on " " and joining again gives the original title |
| Text.UnescapeEscape | img_finder.py:65 | replacing "&amp;" by "&" undoes HTML-escaping of ampersands |
| Text.ParseIntOfIntToString | index_scanner.py:112 | `int(str(n)) == n` for every integer |
| Text.ParseIntPlus | index_scanner.py:112 | a leading `+` before a run of digits does not change the number read |
| Text.ParseIntLeadingZero | index_scanner.py:112 | a leading zero before a run of digits does not change the number read |
| Text.ParseIntRejects | index_scanner.py:112 | text with a character that is neither a digit nor a leading sign is not an integer |
| Text.BeforeFirstSpace | img_finder.py:65 | the regex matches exactly when the text has a space, and yields the space-free prefix before the first space |
| Text.LexLessTransitive | img_finder.py:62 | string order is transitive |
| Text.LexLessTotal | img_finder.py:62 | any two distinct strings are ordered one way or the other |

## Left out

- HTTP fetching (`get_index`, `requests.get` for the puzzle page and the image): pages, sources and bytes are inputs. Transport failures and non-2xx responses are not modelled.
- HTML parsing with BeautifulSoup and `stripped_strings`: a section or `<source>` is reduced to the optional fields the code reads.
- Image decoding with PIL in `__get_img_metadata`: a function parameter returning the metadata or `None` (a ValueError).
- The Google Cloud Datastore calls (`query`/`fetch`, `allocate_ids`, `put_multi`, `update`): the client records the calls. Key allocation is a consecutive counter, while the real service only promises unique ids.
- `get_index_puzzles` and `update` are not defined in datastore_client.py. `Update` only records the entity written, and `get_index_puzzles` is not part of this model.
- The `find` loop over stored entities, `main`, and the logger: wiring and log output only.
- `int()` is modelled as an optional sign followed by one or more ASCII decimal digits. Python also accepts surrounding whitespace, underscores between digits, and non-ASCII Unicode decimal digits.
- `str.lower` is modelled for ASCII letters only.
- Exception messages quote the offending text as `'s'`, while Python uses its `repr` (double quotes when the text holds `'`, doubled backslashes, and int()'s cut at 200 characters), and a bytes id is shown as the placeholder `b'...'` instead of its bytes. This affects `InvalidLiteral` and `ValueText`.
- Termination of the real crawl depends on the live index. The model bounds it by the finite page sequence given to it.
- IndexScanner.GetNewPuzzles: models `get_ids` as the documented collection of ids, not the one-shot generator the code returns, which its membership test consumes.
- Idempotence of the crawl is not stated as a lemma of its own. `GetNewPuzzles` does not modify the store, and its result is a function of the index and the stored ids.
