# A verified model of the music library service

The service keeps a library of songs in two tables, artists and song details,
and offers HTTP handlers to list songs with a filter and paging, to add,
update and delete a song, and to read a song's lyrics one page of verses at
a time. Beside it, a small command-line program turns a lyrics file into one
line of quoted verses. A helper normalises song names: no-break spaces become
spaces, the spaces around dashes and commas are removed, runs of spaces
shrink to one and the ends are trimmed.

This project models, in Dafny:

- `GoStrings` — the Go standard-library string functions the code relies on
  (`strings.Index`, `Split`, `Join`, `ReplaceAll`, `Count`, `TrimSpace`,
  `Fields`, `unicode.IsSpace`), written with Go's leftmost, non-overlapping
  semantics.
- `SongName` — `NormalizeSongName`, with the two regular expressions run as
  Go's `regexp` runs them (leftmost-first, greedy, RE2's narrow `\s`).
- `SongNameCases` — the normaliser on every input of its two unit tests, and
  on the input that shows it is not idempotent.
- `Dates` — `time.Parse` and `Format` with the layout `2006-01-02`.
- `Models` — the records of `internal/models/models.go`.
- `Query` — the defaulting of the paging parameters and the choice of the
  listing filter.
- `Lyrics` — the segmentation of stored text into verses and the page window.
- `Catalog` — the two tables, the add, update and delete handlers as
  functions on the database value, and a `Store` class. The class's methods
  follow the handlers step by step, update the tables in place, and are
  proved equal to those functions.
- `VerseFile` — the command-line formatter of `cmd/main.go`. Its scanning
  loop and its formatting loop are methods, each proved against a
  definition of what it computes.

Three points where the code and the documented behaviour differ; the model
follows the code in each:

- The lyrics fallback splits paragraphs at the escaped four-character
  sequence `\n\n`, and also at any literal `[PARAGRAPH_BREAK]` already in
  the stored text (the marker the escaped sequence is first replaced by), but
  never at a real blank line. A real blank line inside a paragraph therefore gives an
  empty verse: `"line1\nline2\n\nline3"` becomes
  `["line1", "line2", "", "line3"]`, not three verses. See
  `Lyrics.BlankLineExample` and `Lyrics.BlankLineGivesEmptyVerse`.
- `NormalizeSongName` is not called by any handler. Names and filter values
  reach the database as they were sent.
- The update handler decodes its release date through the JSON decoding of
  `time.Time`. It has no `YYYY.MM.DD` format of its own. The date is a
  decoded value in the model.

The source has a few more oddities:

- `handlers.go` refers to `models.PaginatedLyricsRespons`,
  `models.SongsResponse` and `models.SongUpdateResponse`. `models.go`
  defines only `PaginatedLyricsResponse`. The model reconstructs the three
  records from their uses.
- `models.go` declares `Text` as `json.RawMessage`, while the handlers
  treat it as a string. It is a string here.
- The update handler's all-empty check does not look at the release date, so
  a body that sets only a date is refused (`Catalog.UpdateDateAloneRefused`).
- `TotalItems` in the listing is the size of the returned page, not the
  number of matching songs (`Query.TotalItemsWithinLimit`).

## Model

| member | source | states |
|---|---|---|
| GoStrings.Index | internal/handlers/handlers.go:435 | the result is the first position where the pattern occurs; None exactly when it occurs nowhere |
| GoStrings.Split | internal/handlers/handlers.go:441 | at least one piece, no piece contains the separator, and joining the pieces with the separator gives the input back |
| GoStrings.SplitJoin | internal/handlers/handlers.go:441 | splitting a join of parts that do not contain the separator's first character gives the parts back |
| GoStrings.SplitCount | cmd/main.go:38 | a split has one piece more than there are separator occurrences |
| GoStrings.ReplaceAllIsJoinSplit | internal/handlers/handlers.go:435 | replacing every occurrence equals splitting at the pattern and joining with the replacement |
| GoStrings.ReplaceAllChar | cmd/main.go:47 | replacing one character by another keeps the length and changes exactly the positions that held the old character |
| GoStrings.TrimSpace | internal/handlers/handlers.go:449 | the result is no longer than the input, starts and ends with a non-space, is empty exactly when the input is all space, and takes its characters from the input |
| GoStrings.TrimSpaceSlice | internal/handlers/handlers.go:449 | the result is the slice of the input between its leading and its trailing spaces, both all space |
| GoStrings.TrimSpaceNonSpace | internal/utils/utilsString.go:25 | trimming keeps every non-space character in order |
| GoStrings.FieldsAreWords | internal/utils/utilsString.go:22 | every field is a non-empty run of non-spaces |
| GoStrings.JoinFieldsNonSpace | internal/utils/utilsString.go:22 | joining the fields with one space keeps the non-space characters in order |
| GoStrings.JoinAllSpace | cmd/main.go:38-45 | a join with a space separator is blank exactly when every part is |
| GoStrings.IsSpace | internal/utils/utilsString.go:22-25 | unicode.IsSpace: the Latin-1 spaces (tab, newline, vertical tab, form feed, carriage return, space, U+0085, U+00A0) and U+1680, U+2000-U+200A, U+2028, U+2029, U+202F, U+205F, U+3000; the class of Fields and TrimSpace |
| GoStrings.ReplaceAll | internal/handlers/handlers.go:435 | strings.ReplaceAll: every leftmost non-overlapping occurrence, left to right, is replaced; its meaning is GoStrings.ReplaceAllIsJoinSplit and GoStrings.ReplaceAllChar |
| GoStrings.Join | internal/utils/utilsString.go:22 | strings.Join: the parts with the separator between each two; GoStrings.Split and GoStrings.SplitJoin make it and the split inverses, GoStrings.JoinAllSpace and GoStrings.JoinFieldsNonSpace state what it keeps |
| GoStrings.Count | cmd/main.go:38 | strings.Count: the non-overlapping occurrences of the separator, one fewer than the pieces of the split (GoStrings.SplitCount) |
| GoStrings.Fields | internal/utils/utilsString.go:22 | strings.Fields: the maximal runs of non-spaces in order; stated by GoStrings.FieldsAreWords and GoStrings.JoinFieldsNonSpace |
| SongName.NormalizeSongName | internal/utils/utilsString.go:9-28 | the result is well spaced (single spaces between words, none at the ends), has the input's non-space characters in order, and is no longer than the input |
| SongName.Normalize | internal/utils/utilsString.go:9-28 | the five steps with `\s` read as a parameter class; NormalizeSongName is it with RE2's `\s`, the corrected function with unicode.IsSpace; its shape is SongName.NormalizeShape |
| SongName.SpaceRun | internal/utils/utilsString.go:14-19 | a greedy `\s*`: the longest prefix of spaces of the class, followed by a non-space of the class or the end |
| SongName.MatchAt | internal/utils/utilsString.go:14-19 | the greedy match of `\s*` sep `\s*` at the start: spaces, the separator, spaces, not followed by a space of the class; None exactly when no separator is preceded by spaces only |
| SongName.ReplacePattern | internal/utils/utilsString.go:14-19 | Regexp.ReplaceAllString scanning left to right: each match becomes the separator, other characters are copied; the result is no longer and empty only for empty input; what it removes is SongName.ReplacePatternNonSpace |
| SongName.NoBreakSpaceStep | internal/utils/utilsString.go:11 | the first step keeps the length and non-space characters, leaves no no-break space, and changes nothing when there was none |
| SongName.ReplacePatternNonSpace | internal/utils/utilsString.go:14-19 | the dash and comma rules remove only spaces |
| SongName.ReplacePatternTight | internal/utils/utilsString.go:14-19 | with `\s` read as unicode.IsSpace, no space is left beside the separator |
| SongName.ReplacePatternIdentity | internal/utils/utilsString.go:14-19 | a rule changes nothing on a string already without spaces beside its separator |
| SongName.NormalizeShape | internal/utils/utilsString.go:9-28 | for either reading of `\s`: well spaced, same non-space characters, no longer |
| SongName.NormalizeFixed | internal/utils/utilsString.go:9-28 | a well-spaced string with no space beside a dash or comma is a fixed point |
| SongName.NormalizeSongNameAgrees | internal/utils/utilsString.go:9-28 | on input whose spaces are RE2 spaces or no-break spaces, the written function equals the corrected one |
| SongName.NormalizeSongNamePlain | internal/utils/utilsString.go:9-28 | on such input, no space is left beside a dash or comma, and a second call changes nothing |
| SongName.NormalizeSongNameUnicode | internal/utils/utilsString.go:9-28 | corrected function: well spaced, same non-space characters, no longer, no space beside a dash or comma |
| SongName.NormalizeSongNameUnicodeIdempotent | internal/utils/utilsString.go:9-28 | the corrected function is idempotent on every input |
| SongNameCases.CaseNoBreakSpaces | internal/utils/utilString_test.go:12 | "Song Name\u00A0-\u00A0Artist" (no-break spaces) normalises to "Song Name-Artist" |
| SongNameCases.CasePaddedDash | internal/utils/utilString_test.go:13 | " Song  Name  -  Artist " normalises to "Song Name-Artist" |
| SongNameCases.CaseDashAndComma | internal/utils/utilString_test.go:14 | "Song - Name, Artist " normalises to "Song-Name,Artist" |
| SongNameCases.CasePaddedWords | internal/utils/utilString_test.go:15 | "  Song  Name  " normalises to "Song Name" |
| SongNameCases.CaseSeveralArtists | internal/utils/utilString_test.go:16 | "Song Name -  Artist , Some Other Artist" normalises to "Song Name-Artist,Some Other Artist" |
| SongNameCases.CaseCyrillic | internal/utils/utilString_test.go:17 | the Cyrillic name normalises to "За тебя,Родина-мать" |
| SongNameCases.CaseDoubleSpace | internal/utils/utils_test/utilString_test.go:19 | "Test    Song" normalises to "Test Song" |
| SongNameCases.CaseEmSpace | internal/utils/utilsString.go:14-22 | "a\u2003-b" normalises to "a -b": the em space U+2003 escapes the dash rule and becomes a plain space |
| SongNameCases.CaseEmSpaceAgain | internal/utils/utilsString.go:14-22 | "a -b" normalises to "a-b" |
| SongNameCases.NormalizeSongNameNotIdempotent | internal/utils/utilsString.go:14-22 | on "a\u2003-b", normalising twice differs from normalising once |
| Dates.DaysIn | internal/handlers/handlers.go:112 | a month has 28 to 31 days, and 29 exactly for February of a leap year |
| Dates.IsZero | internal/handlers/handlers.go:333 | time.Time.IsZero: the zero time; an update keeps the old date exactly when the body's is zero (Catalog.MergedTargets) |
| Dates.ParseDate | internal/handlers/handlers.go:112 | a parsed string has the layout's shape and names a real calendar date |
| Dates.FormatDate | internal/handlers/handlers.go:112 | a formatted date has the layout's shape |
| Dates.ParseFormat | internal/handlers/handlers.go:112 | every valid date parses back from its formatting |
| Dates.FormatParse | internal/handlers/handlers.go:112 | every string that parses is the formatting of its date |
| Dates.LeapDay | internal/handlers/handlers.go:112 | February 29 is a valid date exactly in leap years, and a four-digit year followed by "-02-29" parses, to that date, exactly in leap years |
| Dates.NumberOfDigits | internal/handlers/handlers.go:112 | reading back zero-padded digits gives the number |
| Dates.DigitsOfNumber | internal/handlers/handlers.go:112 | padding a digit string's value to its length gives the string back |
| Query.Coerce | internal/handlers/handlers.go:84-92 | the parameter is at least 1: the parsed number when it is at least 1, else the default |
| Query.CoerceIdempotent | internal/handlers/handlers.go:84-92 | coercing a coerced value changes nothing |
| Query.ListingPaging | internal/handlers/handlers.go:84-94 | limit defaults to 10 and page to 1, both at least 1, and the offset is non-negative |
| Query.ListingDefaults | internal/handlers/handlers.go:84-94 | without usable parameters the listing is page 1 of 10 at offset 0 |
| Query.LyricsPaging | internal/handlers/handlers.go:410-420 | verse_page defaults to 1 and verse_limit to 3 |
| Query.LyricsDefaults | internal/handlers/handlers.go:410-420 | without usable parameters the lyrics are page 1 of 3 verses |
| Query.Offset | internal/handlers/handlers.go:94 | the offset is never negative |
| Query.OffsetNextPage | internal/handlers/handlers.go:94 | the next page starts one page size later |
| Query.Containing | internal/handlers/handlers.go:110 | the artist pattern is the value between two `%` |
| Query.SelectFilter | internal/handlers/handlers.go:103-123 | no filter for an empty field or value or an unparsable date; rejection exactly for another unknown field; the song-name, artist-name and date filters exactly for their fields, with their patterns and the date at midnight |
| Query.ReleaseDateFilterValid | internal/handlers/handlers.go:111-115 | a date filter compares with a valid date at midnight whose formatting is the value sent |
| Query.ReleaseDateFilterOf | internal/handlers/handlers.go:111-115 | a date written in the layout selects exactly that date |
| Query.ListSongs | internal/handlers/handlers.go:103-142 | 400 exactly for an unknown field; otherwise the songs fetched with the selected filter, limit and offset, with page, limit and page size |
| Query.TotalItemsWithinLimit | internal/handlers/handlers.go:126-142 | TotalItems never exceeds the limit of a query that honours it |
| Lyrics.Paragraphs | internal/handlers/handlers.go:435-441 | the marked text has at least one paragraph |
| Lyrics.LinesOf | internal/handlers/handlers.go:449 | a paragraph has at least one line |
| Lyrics.Verses | internal/handlers/handlers.go:435-456 | the verses are the lines of every paragraph in order; the segmentation loop is proved to build them (Lyrics.SegmentVerses) and Lyrics.VersesNonEmpty and Lyrics.VersesNoNewline state their shape |
| Lyrics.SegmentVerses | internal/handlers/handlers.go:435-456 | the loop builds exactly the lines of all paragraphs in order |
| Lyrics.VersesNonEmpty | internal/handlers/handlers.go:435-456 | every stored text, even the empty one, has at least one verse |
| Lyrics.VersesNoNewline | internal/handlers/handlers.go:449-453 | no verse contains a newline |
| Lyrics.VersesOfEmpty | internal/handlers/handlers.go:435-456 | the empty text is one empty verse |
| Lyrics.VersesOfPlainText | internal/handlers/handlers.go:435-456 | a one-line text without breaks is one verse, the trimmed text |
| Lyrics.ParagraphsAreEscapedPieces | internal/handlers/handlers.go:435-441 | without `[` in the text, the paragraphs are exactly the pieces between escaped blank lines |
| Lyrics.BlankLineGivesEmptyVerse | internal/handlers/handlers.go:449 | two real newlines in a row inside a paragraph give an empty verse |
| Lyrics.BlankLineExample | internal/handlers/handlers.go:435-456 | "line1\nline2\n\nline3" gives the verses line1, line2, "" and line3 |
| Lyrics.EscapedBreakExample | internal/handlers/handlers.go:435-456 | "a\\n\\nb" gives the verses a and b |
| Lyrics.VerseWindow | internal/handlers/handlers.go:465-479 | out of range exactly when the page starts at or past the end; otherwise it starts at (page-1)*limit, is non-empty, holds at most limit verses, and is cut short only at the end |
| Lyrics.WindowsMeet | internal/handlers/handlers.go:465-479 | a page that stops before the end is followed by one starting where it ends |
| Lyrics.WindowCovers | internal/handlers/handlers.go:465-479 | each verse lies on exactly one page, the page k/limit+1 |
| Lyrics.WindowExamples | internal/handlers/handlers.go:465-479 | over five verses, page 2 of 3 is verses 3 and 4 and page 3 is out of range; no verses means out of range |
| Lyrics.LyricsPage | internal/handlers/handlers.go:465-489 | 400 exactly when out of range; otherwise the window's verses, the total count, the page and limit, and between 1 and limit verses |
| Lyrics.FirstPageExists | internal/handlers/handlers.go:410-420 | the default first page exists for every stored text |
| Catalog.FindArtist | internal/handlers/handlers.go:188 | the first artist with the name; None exactly when none has it |
| Catalog.FindSong | internal/handlers/handlers.go:260 | the first song matching the name and artist; None exactly when none does |
| Catalog.FirstIsSmallestKey | internal/handlers/handlers.go:260 | the first match has the smallest primary key of all matches |
| Catalog.WithArtist | internal/handlers/handlers.go:188-200 | the artist named by the group, created under the next artist key when none has the name; its result is stated by Catalog.AddCreated |
| Catalog.Add | internal/handlers/handlers.go:186-227 | the add handler on decoded names; its outcomes are Catalog.AddConflictIff, Catalog.AddConflictUnchanged and Catalog.AddCreated, its invariant Catalog.AddValid |
| Catalog.AddValid | internal/handlers/handlers.go:186-227 | adding keeps keys ordered and fresh, artist names unique, and every song's artist key the key of an existing artist |
| Catalog.AddConflictIff | internal/handlers/handlers.go:204-208 | 409 exactly when an artist with the group name already has a song with that name |
| Catalog.AddConflictUnchanged | internal/handlers/handlers.go:204-208 | a conflict leaves the tables unchanged |
| Catalog.AddCreated | internal/handlers/handlers.go:186-227 | a created song is appended under the next key with the names, zero date and empty text; its artist is found by the group name and is new exactly when it was missing |
| Catalog.AddExample | internal/handlers/handlers_test/addSong_test.go:53-68 | adding "Test Song" by "Test Artist" to empty tables creates artist 1 and song 1 |
| Catalog.Delete | internal/handlers/handlers.go:259-274 | the delete handler; its outcomes are Catalog.DeleteNotFound and Catalog.DeleteRemovesOne, its invariant Catalog.DeleteValid |
| Catalog.DeleteNotFound | internal/handlers/handlers.go:260-264 | 404 exactly when no song has the name, and then nothing changes |
| Catalog.DeleteRemovesOne | internal/handlers/handlers.go:259-274 | the matching song with the smallest key is removed, the other songs and all artists stay |
| Catalog.DeleteValid | internal/handlers/handlers.go:259-274 | deleting keeps the tables valid: keys ordered and fresh, artist names unique, every song's artist existing |
| Catalog.AddThenDelete | internal/handlers/handlers.go:186-274 | adding a song under a new name and deleting that name restores the song table |
| Catalog.DeleteExample | internal/handlers/handlers_test/delSong_test.go:44-61 | the test song is deleted, its artist stays, and deleting a missing name is 404 |
| Catalog.NothingToUpdate | internal/handlers/handlers.go:310 | the body sets no song name, artist name, group link or verses; the release date is not consulted (Catalog.UpdateDateAloneRefused) |
| Catalog.Merged | internal/handlers/handlers.go:317-351 | the stored row after the body is applied; field by field it is Catalog.MergedTargets |
| Catalog.MergedTargets | internal/handlers/handlers.go:317-351 | each field is the body's value when set and the old value when not; the key never changes |
| Catalog.MergedIdempotent | internal/handlers/handlers.go:317-351 | applying the same body twice stores the same row as once |
| Catalog.MergedNothing | internal/handlers/handlers.go:327-351 | a body that sets nothing stores the row unchanged |
| Catalog.UpdateRefusals | internal/handlers/handlers.go:296-325 | 404 exactly when no song has the name, 400 exactly for an undecodable body or one without fields, 404 exactly for an unknown artist name |
| Catalog.Update | internal/handlers/handlers.go:296-375 | the update handler on a decoded body; its refusals are Catalog.UpdateRefusals and Catalog.UpdateRefusedUnchanged, its rewrite Catalog.UpdateRewritesOne, its invariant Catalog.UpdateValid |
| Catalog.UpdateRefusedUnchanged | internal/handlers/handlers.go:296-325 | a refused update changes nothing |
| Catalog.UpdateDateAloneRefused | internal/handlers/handlers.go:310-314 | a body that sets only a release date is refused |
| Catalog.UpdateRewritesOne | internal/handlers/handlers.go:296-375 | only the first matching row changes, to the merge of the body with the named artist's key; its key stays, and the response echoes the stored row and the body |
| Catalog.UpdateValid | internal/handlers/handlers.go:296-375 | updating keeps the tables valid; a changed artist key is that of the existing artist the body names |
| Catalog.Store.AddSong | internal/handlers/handlers.go:186-227 | the tables after the call and the outcome are those of the add function, and validity is kept |
| Catalog.Store.DeleteSong | internal/handlers/handlers.go:259-274 | the tables after the call and the outcome are those of the delete function, and validity is kept |
| Catalog.Store.UpdateSong | internal/handlers/handlers.go:296-375 | the tables after the call and the outcome are those of the update function, and validity is kept |
| Catalog.Store.GetSongLyrics | internal/handlers/handlers.go:410-489 | 404 exactly when no song has the name; otherwise the page of the first such song's verses for the defaulted paging |
| VerseFile.Accumulate | cmd/main.go:22-35 | the loop builds each scanned line followed by a newline |
| VerseFile.Accumulated | cmd/main.go:22-35 | the builder's text: each line followed by a newline; split back at newlines it gives the lines (VerseFile.AccumulatedLines) |
| VerseFile.AccumulatedLines | cmd/main.go:22-35 | splitting the built text at newlines gives the lines back and one empty piece |
| VerseFile.Selected | cmd/main.go:42-45 | no more verses are kept than there are |
| VerseFile.SelectedTrimmed | cmd/main.go:43-45 | every kept verse is non-empty, trimmed, and the trimming of some verse |
| VerseFile.SelectedEmpty | cmd/main.go:43-45 | nothing is kept exactly when every verse is blank |
| VerseFile.SelectedAppend | cmd/main.go:42-50 | the kept verses of two stretches are those of each, in order |
| VerseFile.Quoted | cmd/main.go:48 | one item per kept verse, each its quoting |
| VerseFile.Quote | cmd/main.go:47-48 | one output item; its shape is VerseFile.QuoteShape |
| VerseFile.QuoteShape | cmd/main.go:47-48 | an item is the verse between two double quotes with each newline turned into a space |
| VerseFile.FormatVerses | cmd/main.go:38-53 | the loop and join give the quoted non-blank verses joined by ", " |
| VerseFile.Transform | cmd/main.go:22-53 | the whole program's output for the scanned lines |
| VerseFile.Output | cmd/main.go:38-53 | the content written to the output file; the formatting loop is proved to compute it (VerseFile.FormatVerses), and VerseFile.ItemsOnOneLine, VerseFile.ItemCount and VerseFile.OutputEmpty state its properties |
| VerseFile.ItemsOnOneLine | cmd/main.go:47 | no output item contains a newline |
| VerseFile.ItemCount | cmd/main.go:38-48 | there are at most as many items as non-overlapping occurrences of "\n\n" in the text plus one |
| VerseFile.OutputEmpty | cmd/main.go:44-53 | the output is empty exactly when the file is blank |

## Left out

- HTTP routing, URL path parameters and response writing are not modelled. Each handler starts from its decoded inputs and ends in an outcome datatype that names the status.
- JSON decoding and encoding are not modelled, because they belong to the standard library. An undecodable request body is `None`, and the encoding of a `SongText` is a function parameter.
- `strconv.Atoi` is abstracted as an `Option<int>`. The parse itself is not modelled, and neither are its range errors.
- Strings are sequences of code points, while Go strings are byte strings. Invalid UTF-8, which `strings.Fields` and `strings.TrimSpace` decode as U+FFFD one byte at a time, is not modelled, and neither are byte lengths.
- Go's fixed-width `int` overflow is not modelled; integers are unbounded. This covers the listing offset `(page-1)*limit` and the verse window's `start := (versePage-1)*verseLimit` and `end := start+verseLimit` (handlers.go:466-467), where a start that wraps negative would pass the range check at :469 and make the slice at :479 panic.
- The GORM query builder is a parameter of `Query.ListSongs`, the fetch function. The SQL it produces, ILIKE matching, and LIMIT/OFFSET are not modelled.
- The add, update and delete handlers are modelled on lists of rows in key order. `First` is the first match, which is proved to be the smallest key. SQL transactions, the database clock behind `CreatedAt`, and 500 errors from the database are not modelled. The same holds for the listing's 500 when the fetch fails (handlers.go:130) and for the 500s when encoding a response fails (handlers.go:147, :233, :380, :495).
- The add handler's request decoding and its 400 for a bad body are not modelled. `Catalog.Store.AddSong` starts from the decoded group and song names.
- Logging and concurrency between requests are not modelled.
- In `cmd/main.go`, opening, scanning and writing the files are not modelled, nor their errors (including the scanner's line-length limit). The scanned lines are the input and the output string is the result. `bufio.Scanner` stripping line endings is expressed as the requirement that no line holds a newline.
- Time zones are not modelled. A parsed date is midnight UTC, and update dates are compared by value.
- Dates.ParseDate: only the numeric layout `2006-01-02` is modelled, which is the only layout the code uses.

## Findings

| source | as written | input that shows it | evidently intended | confidence | as-written member | corrected member |
|---|---|---|---|---|---|---|
| internal/utils/utilsString.go:14-22 | the dash and comma rules use RE2's `\s`, which matches only ASCII spaces, while `strings.Fields` splits at every `unicode.IsSpace` character; a Unicode space beside a dash survives the rule and turns into a plain space only in the fields step | "a\u2003-b" (an em space before a dash) gives "a -b", and a second call gives "a-b" | normalising is idempotent and leaves no space beside a dash or comma | not executed | SongNameCases.NormalizeSongNameNotIdempotent | SongName.NormalizeSongNameUnicodeIdempotent |
