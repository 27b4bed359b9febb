# scavenger: the per-file placement decision, in Dafny

scavenger imports photos and music from a source directory into a tidy tree
under a destination directory. For each file it reads the EXIF tags, builds a
destination path from the date taken (photos) or from artist, album and title
(MP3s, main.go only), and then copies the file, moves it, leaves it where it
is, or removes it as a duplicate, bumping a run counter. The repository keeps
three historical versions of this importer — `main.go`, `photopy.go` and
`phosphor.go` — and a small generic counter table in `stats.go`.

This project models and proves the decision core of all four files:

- `GoStrings` — the parts of Go's `strings`, `strconv` and `path` the importer
  relies on. That is `TrimSpace`, `Trim` with a cut set, `Split`/`Join` on one
  separator, lower-casing, `path.Ext` and zero-padded decimals. It also holds
  split/join and decimal round-trip lemmas.
- `Calendar` — Gregorian month lengths, day numbers, weekdays, and the English
  month and weekday names.
- `ExifDates` — the leftmost match of `(\d{4}):(\d{2}):(\d{2}) (\d{2}):(\d{2}):(\d{2})`
  and the date it yields. A printed date parses back to itself.
- `Tags` — tag lookup with Go's zero value, the ordered search for the first
  non-empty date field, and the exiftool fixed-column parser. In the parser,
  the key is columns 0–31, the value starts at column 33, and later keys
  overwrite earlier ones.
- `Naming` — `textilize`, `normalize` and `pick` of main.go.
- `Placement` — what the versions share:
  - the photo path `dest/YYYY/MM-Month/DD-Weekday/HHMMSS-HASH.ext`;
  - the outcome of one file;
  - the filesystem operations and their effect on a file tree.
- `MainImport`, `PhotopyImport`, `PhosphorImport` — `startImport` of main.go and
  `Import` of photopy.go and phosphor.go. Each is written as a method that
  returns the outcome and the operations it performs and, where the source
  keeps counters, bumps them in a class. Each method is proved equal to a
  decision function, and lemmas state what that function promises.
- `GenericStats` — `Stats.Count` and `Stats.Get` of stats.go over a lazily
  allocated map with `uint64` wrap-around.

The file system is a map from path to content digest. A destination
"exists" when it is a key, and two files "have the same hash" when their
digests are equal. Tag reading becomes input: libexif's result is an
`Option<TagMap>` (`None` when the file cannot be opened), and exiftool's
result is an `Option<string>` (`None` when the process fails). main.go's
`Stats` has five counters (`copied`, `moved`, `skipped`, `deleted`,
`unknown`). The model follows the code.

## Model

| member | source | states |
|---|---|---|
| Naming.Textilize | main.go:184-208 | the result holds only `[a-z0-9_]`, never starts or ends with `_` and never holds `__` |
| Naming.Stages | main.go:187-201 | the stages keep the length and leave only `[a-z0-9]` and spaces |
| Naming.StagesBlank | main.go:187-201 | the lower-casing, the six accent replacements and the blanking of `[^a-z0-9]`, applied in sequence as written, equal one per-character map |
| Naming.KeepFolds | main.go:62-67 | after lower-casing, each of `áäâãà`, `éëêẽè`, `íïîĩì`, `óöôõò`, `úüûũù`, `ñ` becomes `a`, `e`, `i`, `o`, `u`, `n`; ASCII capitals become small; `[a-z0-9]` is kept; `_` becomes a space |
| Naming.TextilizeFoldsA | main.go:187-199 | a single character that lower-cases to one of `áäâãà` textilizes to `a` |
| Naming.TextilizeFoldsE | main.go:187-199 | a single character that lower-cases to one of `éëêẽè` textilizes to `e` |
| Naming.TextilizeFoldsI | main.go:187-199 | a single character that lower-cases to one of `íïîĩì` textilizes to `i` |
| Naming.TextilizeFoldsO | main.go:187-199 | a single character that lower-cases to one of `óöôõò` textilizes to `o` |
| Naming.TextilizeFoldsU | main.go:187-199 | a single character that lower-cases to one of `úüûũù` textilizes to `u` |
| Naming.TextilizeFoldsN | main.go:187-199 | a single character that lower-cases to one of `ñ` textilizes to `n` |
| Naming.TextilizeOneChar | main.go:184-208 | a single character that survives blanking textilizes to itself, folded |
| Naming.CollapseSpaces | main.go:203 | the result is no longer than the input, has its first and last characters, its words (the non-empty pieces between spaces) and its text before the first space, and never two spaces in a row; together these say that each run of spaces became exactly one space |
| Naming.TrimmedSpaced | main.go:205 | trimming a collapsed string leaves one with no space at either end and no double space |
| Naming.TextilizeKeepsLetters | main.go:201-205 | the letters and digits of the result are exactly those left by the per-character stages, in order |
| Naming.TextilizeSpaced | main.go:201-205 | when blanking already leaves single spaces between words, textilize only turns the spaces into `_` |
| Naming.TextilizeWords | main.go:184-207 | `textilize` is the words left by the per-character stages, joined with `_` |
| Naming.TextilizeToken | main.go:184-208 | a token is its own textilization |
| Naming.TextilizeIdempotent | main.go:184-208 | textilize applied twice equals textilize applied once |
| Naming.TokenHasNoSeparators | main.go:49 | a token holds neither `-` (the chunk separator `Fs`) nor `/` |
| Naming.NonBlank | main.go:212-217 | the chunks kept are non-empty, at most as many as given, and none exactly when every chunk is blank |
| Naming.NonBlankOne | main.go:213-216 | one chunk is kept, trimmed, exactly when it is not blank |
| Naming.NonBlankAppend | main.go:212-217 | the chunks kept from `a` followed by `b` are those kept from `a` followed by those kept from `b`; with the row above, the kept chunks are exactly the trimmed non-blank chunks, in order |
| Naming.Chunks | main.go:210-219 | the `i`-th name is the textilization of the `i`-th kept chunk, one name per kept chunk, each a token |
| Naming.Normalized | main.go:210-219 | no kept chunk gives `""`; otherwise splitting the result on `-` gives back exactly the chunk names |
| Naming.Normalize | main.go:210-219 | the chunk loop returns the tokens of the non-blank chunks joined with `-` |
| Naming.NormalizeAllBlank | main.go:210-219 | all-blank input normalizes to `""` |
| Naming.NormalizedChars | main.go:210-219 | a normalized name holds only `[a-z0-9_-]` |
| Naming.NormalizedNoSlash | main.go:210-219 | a normalized name never holds the path separator |
| Naming.NormalizeIdempotent | main.go:210-219 | normalizing one chunk twice equals normalizing it once |
| Naming.NormalizedOne | main.go:210-219 | one chunk normalizes to `""` when blank and to the textilized trimmed chunk otherwise |
| Naming.NormalizedBlankFirst | main.go:212-216 | a blank chunk in front contributes nothing |
| Naming.NormalizedTrimmed | main.go:213 | trimming a chunk first does not change its normalization |
| Naming.Picked | main.go:221-229 | the result is `""` exactly when every value is blank; otherwise it is the trimmed first non-blank value, with every value before it blank |
| Naming.Pick | main.go:221-229 | the early-return loop returns the first non-blank value trimmed, or `""` |
| Naming.PickDefault | main.go:221-229 | `pick(v, d)` is trimmed `v`, or trimmed `d` when `v` is blank |
| Naming.PickedOne | main.go:221-229 | `pick(v)` is trimmed `v` |
| GoStrings.TrimBoth | main.go:205 | trimming leaves a slice of the input with no trimmed character at either end, and everything cut off is of the trimmed class |
| GoStrings.TrimParts | main.go:205 | the input is the cut-off head, the trimmed result and the cut-off tail, both cut parts of the trimmed class |
| GoStrings.TrimSpaceIdempotent | main.go:223 | `strings.TrimSpace` is idempotent |
| GoStrings.SplitJoin | main.go:218 | splitting a join of separator-free pieces gives back the pieces |
| GoStrings.SplitJoinUnder | main.go:294-303 | splitting `dest` joined with separator-free segments gives the pieces of `dest` followed by the segments |
| GoStrings.JoinSplit | main.go:218 | joining the pieces of a split gives back the string |
| GoStrings.JoinUnder | main.go:294-303 | a join of `dest` with at least one more segment starts with `dest` and `/` |
| GoStrings.Ext | main.go:300 | `path.Ext` is `""` or a suffix of the name starting with `.`, and never holds `/` |
| GoStrings.ExtOfDotted | main.go:300 | the extension of `stem.ext`, for `ext` free of `.` and `/`, is `.ext` |
| GoStrings.ExtUndotted | main.go:300 | a name whose last element holds no `.` has no extension, whether or not a directory comes before it |
| GoStrings.DecimalRoundTrip | main.go:297 | the decimal string of a year reads back to the year |
| GoStrings.Pad2RoundTrip | main.go:298-300 | a `%02d` field reads back to its value |
| Tags.FirstNonEmpty | main.go:269-274 | the value taken is `""` exactly when every field is missing or empty; otherwise it is the value of some field with every earlier field empty |
| Tags.FindFirstNonEmpty | main.go:269-274 | the `for … break` loop returns the first non-empty field value |
| MainImport.DateFieldOrder | main.go:261-274 | the five date fields are tried in order: the first one set is used |
| Tags.MapOfKeys | main.go:123-127 | the parsed map has exactly the keys of the lines |
| Tags.MapOfLastWins | main.go:126 | for a key on several lines, the map keeps the value of the last of them |
| Tags.ExifToolTagsKeys | main.go:120-128 | the keys of the exiftool map are exactly the trimmed keys of the trimmed, split output |
| Tags.ExifToolTagsLastWins | photopy.go:87-94 | a line whose key no later line repeats gives its trimmed value to that key |
| Tags.ParseExifTool | main.go:120-128 | trimming the output, splitting it and running the line loop gives the exiftool map |
| Tags.ParseLines | main.go:123-127 | the line loop stores the pairs in order, each overwriting earlier ones |
| Tags.MapOfSnoc | main.go:126 | storing one more pair updates the map at that key |
| MainImport.ExifData | main.go:93-134 | no tags exactly when every reader that ran failed; libexif's map whenever libexif runs and succeeds; otherwise the trimmed exiftool map whenever exiftool runs and succeeds |
| MainImport.ExifDataSources | main.go:93-134 | libexif wins when it runs and succeeds; when it does not, the exiftool map is the result whenever exiftool runs and succeeds; no tags exactly when every reader that ran failed; with neither flag, libexif's result |
| MainImport.GetExifData | main.go:93-134 | the reader selection returns the tags described by the above |
| ExifDates.FindMatch | main.go:70 | the position found holds a match and no earlier position does; `None` means no position matches |
| ExifDates.ParseExifDate | main.go:281-292 | no date exactly when the pattern matches nowhere; otherwise the six groups of the leftmost match |
| ExifDates.ParseFormatRoundTrip | main.go:281-292 | a date printed as `YYYY:MM:DD HH:MM:SS` parses back to the same date |
| ExifDates.FormatExifDate | main.go:70 | the printed date is 19 characters long, the length of one match |
| Calendar.DaysInMonth | main.go:283-292 | every month has 28 to 31 days |
| Calendar.Weekday | main.go:299 | the weekday is one of seven |
| Calendar.NextDay | main.go:283-292 | the day after a valid date is a valid date |
| Calendar.NextDayNumber | main.go:299 | the day after a date has the next day number |
| Calendar.NextDayWeekday | main.go:299 | the day after a date falls on the next weekday |
| Calendar.MonthsFillYear | main.go:283-292 | the month lengths of a year add up to its length |
| Calendar.YearLengthStep | main.go:283-292 | consecutive year starts are one year length apart |
| Calendar.KnownWeekdays | main.go:299 | 1 January 1970 was a Thursday and 3 May 2020 a Sunday |
| Placement.PhotoSegments | main.go:294-303 | a photo path has four segments below `dest` |
| Placement.SegmentsNoSlash | main.go:294-303 | no photo segment holds the path separator |
| Placement.PhotoPath | main.go:294-303 | the photo path lies under `dest`: it starts with `dest` and `/` |
| Placement.PhotoPathSplits | main.go:294-303 | splitting a photo path on `/` gives the pieces of `dest` followed by exactly the four segments |
| Placement.PhotoYearDecode | main.go:297 | the year segment reads back to the year |
| Placement.PhotoMonthDecode | main.go:298 | the month segment is the two-digit month, `-` and the English month name |
| Placement.PhotoDayDecode | main.go:299 | the day segment is the two-digit day, `-` and the English weekday name of that date |
| Placement.PhotoStampDecode | main.go:300 | the stamp reads back to hour, minute and second, followed by `-`, the upper-cased first four hash characters and the lower-cased extension |
| Placement.NamedDecode | main.go:298-299 | a `%02d-name` segment splits into its two-digit value and `-name` |
| Placement.StampDecode | main.go:300 | a `%02d%02d%02d` stamp reads back to its three values |
| PlacementExamples.PhotoSegmentsExample | main.go:294-303 | a photo of Sunday 3 May 2020, 10:15:00, named `DSC_0042.JPG` with hash `ab12cd…`, gets the segments `2020`, `05-May`, `03-Sunday` and `101500-AB12.jpg` |
| PlacementExamples.PhotoPathExample | main.go:294-303 | that photo is filed as `/photos/2020/05-May/03-Sunday/101500-AB12.jpg` |
| PlacementExamples.ExampleExt | main.go:300 | the lower-cased extension of `DSC_0042.JPG` is `.jpg` |
| Placement.ApplyTransfer | main.go:312-331 | afterwards the destination holds the original's content; the original stays on a copy and is gone on a move; no other file changes |
| Placement.ApplyRemove | main.go:341 | removing the original removes it and nothing else |
| Placement.SkipOrTransfer | photopy.go:209-238 | a taken destination is skipped and a free one is transferred to; the move flag chooses move or copy; there is never a duplicate removal |
| Placement.CopyOrMoveOps | photopy.go:211-238 | the operations of photopy.go and phosphor.go: `MkdirAll` then the move or copy the verdict names, exactly for a transfer outside a dry run, and nothing otherwise |
| MainImport.Mp3Segments | main.go:248-256 | an MP3 path has three segments below `dest` |
| MainImport.Mp3Path | main.go:244-256 | the MP3 path lies under `dest`: it starts with `dest` and `/` |
| MainImport.Mp3Artist | main.go:251 | the artist directory holds only `[a-z0-9_-]` |
| MainImport.Mp3Album | main.go:252 | the album directory holds only `[a-z0-9_-]` |
| MainImport.Mp3Stem | main.go:253 | the file stem holds only `[a-z0-9_-]` |
| MainImport.Mp3StemValue | main.go:253 | the stem is `normalize(Track, title + "-" + HASH4)`, where the title is the trimmed `Title`, or `Unknown Title` when it is blank |
| MainImport.Mp3TitleKept | main.go:253 | a non-blank `Title` enters the stem trimmed |
| MainImport.Mp3Ext | main.go:253 | the extension part is never empty |
| MainImport.Mp3PathSplits | main.go:248-256 | splitting an MP3 path on `/` gives the pieces of `dest` followed by the artist, album and file name |
| MainImport.Mp3ExtNoSlash | main.go:253 | the extension part never holds `/` |
| MainImport.Mp3FileNoSlash | main.go:253 | the file name never holds `/` |
| MainImport.Mp3ArtistDefault | main.go:251 | the artist directory is `unknown_artist` when the `Artist` tag is blank, and the normalized artist otherwise |
| MainImport.Mp3AlbumDefault | main.go:252 | the album directory is `unknown_album` when the `Album` tag is blank, and the normalized album otherwise |
| MainImport.UnknownArtistToken | main.go:251 | `Unknown Artist` normalizes to `unknown_artist` |
| MainImport.UnknownAlbumToken | main.go:252 | `Unknown Album` normalizes to `unknown_album` |
| MainImport.Mp3TitleDefault | main.go:253 | with a blank `Title`, the stem is built from `Unknown Title` and the hash prefix |
| MainImport.UnknownTitleToken | main.go:253 | with a blank `Track` as well, the stem is `unknown_title_` followed by the four hash characters |
| MainImport.TextilizeUnknownTitle | main.go:253 | `Unknown Title-` followed by four hash characters textilizes to `unknown_title_` followed by them |
| MainImport.Mp3ExtMissing | main.go:253 | a name without extension gets `.mp3` |
| MainImport.Mp3ExtKept | main.go:253 | a name with an extension not ending in a space keeps it, lower-cased |
| MainImport.Target | main.go:244-303 | no path is built exactly when the file is no MP3 and no date field is set |
| MainImport.Rename | main.go:244-303 | the branch on `File Type` and the date search build the path described by the above |
| MainImport.TargetNeverEmpty | main.go:306-351 | every path built holds a `/`, so the `rename == ""` branch is dead |
| MainImport.TargetSplits | main.go:244-303 | an MP3's path splits into `dest`'s pieces then artist, album and file; any other file's path into `dest`'s pieces then the four photo segments of the first date field set |
| MainImport.Decide | main.go:238-347 | no destination exactly when no tags were read or no path could be built; otherwise the path built, transferred to exactly when it is free, by a move exactly when the move flag is set, and removed as a duplicate exactly when it holds the same content |
| MainImport.Classify | main.go:306-347 | a free destination is transferred to as the move flag says; a taken one with the same content means removing the original; a taken one with other content is skipped |
| MainImport.Place | main.go:306-347 | returns that verdict, performs the operations of the next rows and bumps the counter it names |
| MainImport.Ops | main.go:310-347 | operations happen exactly for a duplicate removal or a transfer outside a dry run; a duplicate is the single removal of the original; a transfer is `MkdirAll` then the move or copy the verdict names |
| MainImport.Bump | main.go:276-354 | `moved` exactly for a move and `copied` exactly for a copy outside a dry run, `deleted` exactly for a duplicate, `skipped` exactly for a differing destination, `unknown` exactly when there is no destination; no counter exactly for a dry-run transfer |
| MainImport.DuplicateRemoved | main.go:336-342 | a destination with the same content removes the original, in a dry run as well, counted as deleted; the destination keeps its content unless it is the file itself |
| MainImport.DifferentSkipped | main.go:343-346 | a destination with other content leaves every file as it is, counted as skipped |
| MainImport.TransferEffects | main.go:310-334 | outside a dry run a free destination gets the file's content, the original stays exactly on a copy, and `moved` or `copied` says which |
| MainImport.Stats.constructor | main.go:73-81 | the five counters start at zero |
| MainImport.Stats.Tally | main.go:73-79 | bumps exactly the one counter named, by one |
| MainImport.StartImport | main.go:231-357 | returns the decision for the tags read, the operations for it, and bumps exactly the counter that decision names |
| MainImport.OneCounterPerFile | main.go:306-355 | outside a dry run exactly one counter goes up per file; no counter goes up exactly for a transfer in a dry run, so a dry run never counts a copy or a move |
| MainImport.UnknownFiles | main.go:276-279 | a file is unknown exactly when no tags could be read, or it is no MP3 and none of the five date fields is set; then nothing is done and `unknown` goes up |
| MainImport.DryRunEffects | main.go:310-342 | a dry run leaves every file in place, except that a same-content original is still removed |
| MainImport.ReimportRemovesOriginal | main.go:336-342 | importing a copied file again finds its copy, removes the original and counts it as deleted; the copy stays |
| PhotopyImport.ExifData | photopy.go:68-108 | no tags exactly when the reader the flag chooses fails |
| PhotopyImport.ExifDataSources | photopy.go:68-108 | the exiftool flag chooses one reader; that reader's failure means no tags; exiftool's columns are trimmed of spaces only |
| PhotopyImport.GetExifData | photopy.go:68-108 | the reader selection returns the tags described by the above |
| PhotopyImport.DateFieldOrder | photopy.go:174-179 | only `Date and Time (Original)` and then `Date/Time Original` are consulted, the first non-empty one winning |
| PhotopyImport.Target | photopy.go:181-207 | no path is built exactly when neither date field is set |
| PhotopyImport.TargetSplits | photopy.go:198-207 | a photo with a date is filed under `dest` by the four photo segments of that date |
| PhotopyImport.Rename | photopy.go:172-207 | the date search and path build give the path described by the above |
| PhotopyImport.Decide | photopy.go:170-246 | no destination exactly when no tags were read or no date field is set; otherwise the path built, skipped exactly when it is taken, never a duplicate removal, and moved or copied as the flag says |
| PhotopyImport.Bump | photopy.go:209-246 | `statsNotExif` exactly with no destination, `statsSkipped` exactly for a skip, `statsMoved` exactly for a move and `statsCopied` exactly for a copy outside a dry run, no counter exactly for a dry-run transfer |
| PhotopyImport.Place | photopy.go:209-238 | skips a taken destination, otherwise copies or moves outside a dry run, and bumps the counter named |
| PhotopyImport.PhotoStats.constructor | photopy.go:56-59 | the four counters start at zero |
| PhotopyImport.PhotoStats.Tally | photopy.go:56-59 | bumps exactly the one counter named, by one |
| PhotopyImport.Import | photopy.go:160-248 | returns the decision for the tags read, the operations for it, and bumps exactly the counter that decision names |
| PhotopyImport.OneCounterPerFile | photopy.go:170-246 | outside a dry run exactly one of copied, moved, skipped and not-EXIF goes up; in a dry run copied and moved never do |
| PhotopyImport.NotExifFiles | photopy.go:240-246 | a file is not-EXIF exactly when no tags could be read or neither date field is set; then nothing is done and `statsNotExif` goes up |
| PhotopyImport.ExistingSkipped | photopy.go:235-238 | a taken destination is skipped and counted, with no content comparison and no operation |
| PhotopyImport.DryRunEffects | photopy.go:211-231 | a dry run performs no operation and leaves the files as they are |
| PhotopyImport.TransferEffects | photopy.go:219-231 | a transfer puts the content at the destination, keeping the original on a copy and removing it on a move |
| PhotopyImport.ReimportSkips | photopy.go:209-238 | importing a copied photo again finds its copy and skips it |
| PhosphorImport.TakenIsOriginal | phosphor.go:45-47 | only `Date and Time (Original)` is consulted |
| PhosphorImport.Target | phosphor.go:132-158 | no path is built exactly when the one field `Date and Time (Original)` is not set |
| PhosphorImport.TargetSplits | phosphor.go:149-158 | a photo with a date is filed under `dest` by the four photo segments of that date |
| PhosphorImport.Decide | phosphor.go:119-186 | no destination exactly when the file cannot be opened or has no date; otherwise the path built, skipped exactly when it is taken, and moved or copied as the flag says |
| PhosphorImport.Import | phosphor.go:109-192 | returns the decision for libexif's tags and the operations for it, keeping no state |
| PhosphorImport.Place | phosphor.go:160-186 | skips a taken destination, otherwise moves or copies as the flag says, with no operation in a dry run |
| PhosphorImport.UnresolvedDoesNothing | phosphor.go:119-190 | a file that cannot be opened or has no date gets no path and no operation |
| PhosphorImport.ExistingSkipped | phosphor.go:184-186 | a taken destination is skipped with no operation |
| PhosphorImport.DryRunEffects | phosphor.go:162-180 | a dry run performs no operation, yet still chooses between move and copy |
| PhosphorImport.MoveFlag | phosphor.go:162-180 | the move flag selects a move, otherwise a copy, after creating the parent directories |
| GenericStats.Add | stats.go:23 | `uint64` addition: the sum modulo 2^64, the plain sum when it fits, and the sum less 2^64 when it does not |
| GenericStats.AddWraps | stats.go:23 | the largest value plus one wraps to zero |
| GenericStats.Stats.constructor | stats.go:8-11 | a fresh table has a `nil` map |
| GenericStats.Stats.Count | stats.go:14-25 | returns the previous total of the kind plus `i`, stores it, allocates the map if needed, and leaves every other kind unchanged |
| GenericStats.Stats.Get | stats.go:28-36 | returns the total of the kind, 0 for a `nil` map or a kind never counted, changing nothing |
| GenericStats.FreshIsZero | stats.go:31-33 | a table with a `nil` map reads as all zeros |
| GenericStats.CountThenGet | stats.go:14-36 | `Get` right after `Count` returns what `Count` returned |
| GenericStats.CountTwice | stats.go:14-25 | counting twice from a fresh table gives the wrapped sum of both increments |

## Left out

- Concurrency: the goroutine per file, the `ok` channel and `pcount` token counting, the wait loop, and the `sync.RWMutex` in stats.go. Their purpose is concurrency.
- Directory traversal (`scandir`/`Scandir`), `verifyDirectory`, flag parsing, usage text and every `log.Printf`. These are I/O.
- libexif (`exif.New().Open`) and the `exiftool` subprocess are foreign calls. Their results are inputs: an optional tag map and an optional output string.
- `checksum.File` (SHA-1) is a foreign library. A file's content digest is an opaque lower-case hexadecimal string of at least four characters. The destination's digest is its value in the file map.
- The filesystem calls (`copyFile`, `fileMove`, `Copy`, `Move`, `os.Stat`, `os.MkdirAll`, `os.Remove`) are returned as a list of operations with an effect on a path-to-digest map. Their failures and the `panic` they cause are not modelled. Directories are not tracked.
- `time.Date` normalisation of out-of-range fields, such as month 13 or 31 April. The importers require a valid date (`Parses`), so a day-of-week is only computed for real Gregorian dates.
- A date value with no regex match makes `all[0]` panic. This is a precondition (`DateReadable`), not a modelled crash.
- A line shorter than 33 characters makes the exiftool slicing panic. This is the precondition `WellFormed`, required only when exiftool actually runs and succeeds (`ExifToolReadable` in main.go).
- The exiftool columns are counted in characters, while Go counts bytes. The two agree when the first 33 characters of a line are ASCII.
- `to.Int`/`to.Int64` parsing quirks. The groups are always decimal digits here.
- Full-Unicode lower-casing in `strings.ToLowerSpecial`. `Lower` covers ASCII, the Latin-1 capitals and the capital accented letters named in the accent classes (`Ẽ`, `Ĩ`, `Ũ`). Other characters are left as they are.
- `Ext`: models `path.Ext` on `/`-separated paths only, with `/` standing for `os.PathSeparator`.
- Ext: its own contract says only that the result is `""` or a `.`-suffix without `/`. The exact value is stated by `ExtOfDotted` and `ExtUndotted`.
- NonBlank: its own contract gives the count and the non-emptiness of the kept chunks. That they are the trimmed non-blank chunks in order is stated by `NonBlankOne` and `NonBlankAppend`.
- The `int` counters of main.go and photopy.go are unbounded integers, so Go's overflow after 2^63 files is not modelled.
- `MainImport.Mp3TitleDefault` and `MainImport.UnknownTitleToken` are two lemmas. Together they give the stem `unknown_title_HASH` for blank `Title` and `Track`. No single lemma states that composition.
- The log lines that a dry run still prints in photopy.go and phosphor.go are not modelled. Only the choice between moving and copying, which is what they report, is kept.
