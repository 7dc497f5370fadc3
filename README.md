# Album randomizer: the albums table

This project models the logic of a small Go web application. The application
keeps a list of albums in a single SQLite table (`albums`). At each start it
loads the albums from a CSV file. It lets the user list them ordered by rank,
draw a random album that has not been listened to, mark an album as listened,
and reset every listen count. A background loop fills in missing cover art by
searching an external service with the band and the title. The program means
to clean both of characters that make the search fail, but its replacement
helper returns its text unchanged, so it sends them as they are.

The table is a `map<int, Album>` keyed by the primary key `id`. Each SQL
statement the program runs becomes a function on that map:

- `Load` models `INSERT OR IGNORE` of the CSV records.
- `Marked` models the `UPDATE … WHERE id = ?` that adds a listen.
- `Reset` models the `UPDATE` that zeroes every listen count.
- `Enriched` models the cover loop's per-row `UPDATE`.

The class `AlbumStore.AlbumTable` holds the map as a field. Its methods
reassign the field and loop the way the program does: over the CSV records,
over query results and over the listing. Each method's `ensures` ties the new
table to one of those functions of the old table. The lemmas in `Albums`
state what the functions promise.

Modules:

- `Wrappers`: `Option`, which stands in for Go's nil pointers.
- `Strconv`: the integer parse the loader applies to the rank and year cells.
- `Albums`: the row type, the table, and the specification functions and
  lemmas.
- `CoverQuery`: the cleaning table, the search text, and the cover lookup.
- `AlbumStore`: the table as a class, with the program's operations.

## Model

| member | source | states |
|---|---|---|
| `Strconv.AtoiRoundTrip` | main.go:142-143 | The rank and year parse reads every integer's decimal text back as that integer. |
| `Strconv.AtoiWithoutDigits` | main.go:142-143 | A cell with no digit, such as an empty year, does not parse and loads as 0. |
| `Albums.LoadedAt` | main.go:138-155 | After loading the first n records, key k is present iff it was already present or record k (k < n) is offered. An existing row is unchanged. A newly filled key holds the album built from its record. |
| `Albums.LoadSkipsHeaderAndBlankRows` | main.go:139-146 | For a free id k, loading adds k iff k is not the header row (k ≥ 1), is inside the file, and its title and band cells are non-empty. |
| `Albums.LoadInitialValues` | main.go:148-151 | A row added from record k has id k, 0 listens and an empty cover. Its title, band and country are cells 1-3. Its rank and year are the parsed cells 0 and 4. |
| `Albums.LoadKeepsExisting` | main.go:148-151 | `INSERT OR IGNORE`: a row whose id is already present comes out of loading exactly as it went in. |
| `Albums.LoadPreservesInvariants` | main.go:148-151 | Loading keeps every row stored under its own id and keeps listen counts non-negative. |
| `Albums.ReloadKeepsTable` | main.go:121-156 | Loading the same file again leaves the table unchanged, so listen counts and covers survive a restart. |
| `Albums.ListsLength` | main.go:158-168 | A listing that holds each row of a keyed table once has exactly as many albums as the table has rows. |
| `Albums.UnlistenedMembers` | main.go:172-177 | An album is in the filtered list iff it is in the listing and its listen count is 0. |
| `Albums.MarkedChangesOneCount` | main.go:186 | Marking adds exactly 1 to the listen count of the row with that id. Every other row, and every other field, is unchanged. An unknown id leaves the table as it is. |
| `Albums.MarkRemovesFromUnlistened` | main.go:186 | With non-negative counts, marking removes exactly that id from the unlistened ids. Counts stay non-negative. |
| `Albums.ResetZeroesCounts` | main.go:198 | Reset keeps the same ids, sets every listen count to 0 and changes no other field. |
| `Albums.ResetMakesAllUnlistened` | main.go:198 | After a reset every id in the table is unlistened. |
| `Albums.ResetIdempotent` | main.go:198 | Resetting twice gives the same table as resetting once. |
| `Albums.ResetAfterMark` | main.go:198 | A reset after marking gives the same table as a reset without the marking. |
| `Albums.EnrichedChangesOnlyMissingCovers` | main.go:208-212 | The cover loop never changes a row that has a cover. A row it changes had an empty cover and now has the lookup's non-empty answer, with every other field unchanged. A row still without a cover is unchanged. |
| `Albums.EnrichedIdempotent` | main.go:206-224 | A second pass of the cover loop changes nothing, provided the lookup answers as it did the first time. The program does not promise this: each start retries every row without a cover against a live service, which may answer differently. |
| `Albums.EnrichCommutesWithMark` | main.go:212 | Writing covers and marking listened touch different columns, so the two can run in either order. |
| `CoverQuery.ReplaceAllRemovesChar` | main.go:238-240 | Replacing every occurrence of a character with text that lacks it leaves no occurrence. |
| `CoverQuery.ReplaceAllNoMatch` | main.go:238-240 | Text in which the pattern's first character never occurs is returned unchanged. |
| `CoverQuery.CleanAsWritten` | main.go:228-242 | The cleaner as written returns its input unchanged, because each of its seven steps calls `replaceAll`. |
| `CoverQuery.AsWrittenKeepsSharp` | main.go:281-283 | For the table's first pair, the source's `replaceAll` returns "♯" unchanged, while the intended replacement gives "#". |
| `CoverQuery.ReplacePairs` | main.go:238-240 | The loop over a flattened table, with real replacements, applies each pair in order and returns the fold of the replacement over all pairs. |
| `CoverQuery.Clean` | main.go:228-242 | The cleaner with real replacements applies the seven pairs in table order. Its result contains none of the six problematic characters. |
| `CoverQuery.CleanedRemovesProblematic` | main.go:229-237 | No character of a cleaned text is one of the six characters the table replaces. |
| `CoverQuery.CleanedKeepsPlainText` | main.go:229-237 | Cleaning leaves unchanged a text that contains none of the six characters and no '&'. |
| `CoverQuery.CoverFor` | main.go:244 | The cover for an album is the search service's answer for the band, a space, and the title, unchanged, because the cleaner as written returns its input. |
| `CoverQuery.IntendedQueryHasNoProblematic` | main.go:227-244 | The search text built with the corrected cleaner contains none of the six problematic characters. |
| `CoverQuery.QueryIntendedOnPlainText` | main.go:227-244 | For a band and title with none of the six characters and no '&', the text the program sends equals the intended, cleaned text. |
| `AlbumStore.InsertByRank` | main.go:159 | Inserting into a listing sorted by rank gives a listing that is still sorted and holds the old albums around the new one. |
| `AlbumStore.AlbumTable.constructor` | main.go:104-119 | Creating the table in a new database file gives an empty table. |
| `AlbumStore.AlbumTable.Open` | main.go:104-119 | Opening an existing database keeps its rows. |
| `AlbumStore.AlbumTable.LoadFromCsv` | main.go:121-156 | The loop over the records leaves exactly `Load(old table, records)`, and every row stays under its own id. |
| `AlbumStore.AlbumTable.All` | main.go:158-168 | The listing is sorted non-decreasing by rank. It holds every row of the table exactly once and nothing else, so its length is the table's size. |
| `AlbumStore.AlbumTable.RandomUnlistened` | main.go:170-183 | Returns None iff no album has 0 listens. Otherwise it returns a row of the table, unchanged, whose listen count is 0. |
| `AlbumStore.AlbumTable.MarkListened` | main.go:185-195 | The new table is `Marked(old table, id)`. The result is the updated row, or the zero album (not None) for an unknown id. |
| `AlbumStore.AlbumTable.ResetAll` | main.go:197-202 | The new table is `Reset(old table)`. |
| `AlbumStore.AlbumTable.FetchMissingCovers` | main.go:206-224 | The loop over the listing leaves exactly `Enriched(old table, lookup)`. The lookup is the search service applied to the raw band, a space, and the raw title, as the program sends them. |

## Findings

| source | as written | input that shows it | evidently intended | confidence | as-written member | corrected member |
|---|---|---|---|---|---|---|
| main.go:281-283 | `replaceAll(s, old, new)` returns `string([]rune(s))` and ignores `old` and `new`. The cleaner at main.go:228-242 therefore returns its input unchanged. | A band or title containing "♯" (U+266F): the first step returns "♯" rather than "#". | Every occurrence of each table entry is replaced by the entry after it, as Go's `strings.ReplaceAll` does. The comment at main.go:227 says the function replaces problematic characters. | high; not executed | `CoverQuery.CleanAsWritten`, `CoverQuery.AsWrittenKeepsSharp` | `CoverQuery.Clean` |

The cover loop models the program as written. `CoverFor` and
`FetchMissingCovers` build the search text with `CleanAsWritten`, so the
service receives the raw band, a space, and the raw title (`CoverQuery.Query`).
The corrected cleaner gives the intended search text, `CoverQuery.IntendedQuery`.
`IntendedQueryHasNoProblematic` and `QueryIntendedOnPlainText` state what the
intended text would guarantee.

## Left out

- HTTP layer: the gin routes, the handlers, and JSON and HTML rendering are I/O. The operations they call are modelled.
- Browser launch: opening a browser with `exec.Command` is an OS process call.
- SQLite: the driver, the connection, the transaction around the load, and every database error are left out. The table is an in-memory map.
- AlbumStore.AlbumTable.MarkListened: never returns nil. The source returns nil only when the `UPDATE` fails, which is a database error.
- CSV reading: the records are given as a sequence of rows of cells. A record after the header with fewer than five cells makes the source panic; `WellFormedRows` requires that this does not happen.
- Strconv.Atoi: a number outside the 64-bit range is not clamped to the largest or smallest int64. Integers are unbounded.
- Cover search service: the HTTP request, the content-type check, JSON decoding and `url.QueryEscape` are a network client. They are passed in as a function from search text to cover URL, where the empty string means no cover.
- Timing and concurrency: the 200 ms pause, the random seeding, and the cover loop running beside the request handlers are left out. The loop is modelled as one sequential pass over a snapshot of the listing.
- AlbumStore.AlbumTable.RandomUnlistened: the choice is any index among the unlistened albums. The uniform distribution of `rand.Intn` is not modelled.
- AlbumStore.AlbumTable.All: albums with equal rank may come in any order. The source leaves the order of ties to SQLite.
- Text encoding: a string is a sequence of Unicode characters. The repair of invalid UTF-8 by the `[]rune` conversion is not modelled.
