# Player-registration ETL, booking overlap rule and schema checks in Dafny

This project models the core of a club-management back end written in
Python. That core has three parts.

- **The player-registration ETL pipeline.** The orchestrator lists the
  input directory. It picks out `*.csv`, `*.xls` and `*.xlsx` files in that
  order. For each file (modules `Extractors`, `Transformers`, `Loaders`,
  `Orchestrator`):
  - the extractor reads it, strips the header labels and drops blank rows;
    workbook sheets are first tagged with a `__sheet` column and
    concatenated in order;
  - the transformer normalises the headers through an alias table, and
    checks every row against the validators of `Validators` (e-mail, phone,
    date of birth, rating), so each row lands in the valid or the invalid
    cohort with its ordered error list;
  - the loader commits the valid cohort to the player store in chunks of
    200 records, and names the CSV/JSON artifacts for the invalid cohort;
  - the file is archived; a failed move is tolerated.

  An extraction or load failure ends the run. Otherwise the run returns
  `{processed, created, errors}`.
- **The booking endpoints** (module `Bookings`). They create, update and
  delete bookings of rooms over half-open time ranges. A booking is refused
  when it overlaps another booking of the same room whose status is not
  `cancelled`. A booking created without a status is stored with the
  column default `pending`, so it is in force. The model proves that this
  keeps the table free of double bookings.
- **The request-schema field checks** (module `Schemas`): length bounds,
  sign checks, and end-after-start checks.

`Text` holds `str.strip`, `str.lower`, ASCII decimal digits and `str.join`.
`Frames` holds the cell and table shapes of pandas as the pipeline sees them.
A cell is `Str | Int | Null | Missing`, where `Missing` is the NaN of a
blank cell: truthy, not a string, and NA for `dropna`. `Wrappers` holds
`Option` and `Result`.

Each imperative piece of the source is a method proved against a function
that specifies it. These carry loops with their invariants:
- `NormalizeColumns` and `TransformPlayers` (the row loop);
- `BulkInsertPlayers` (the chunk loop) against a `Session` class whose
  `Commit` may fail on a duplicate e-mail;
- `ListFiles` and `TagSheets`;
- `RunFiles`, the loop of `RunPlayers`, against `Run`.

`CheckRow`, `Extract`, `HandleFile`, `RunPlayers`, `StageFiles` (which
recurses over the files) and the `BookingTable` class methods have no
loop; their contracts tie the result, or the new state, to the
specification function.

The specification functions then carry the lemmas: partition, error order,
chunk layout, totals, stop points, and the no-double-booking invariant.

The model follows the code as written, including these points a reader
might not expect:
- the phone pattern is a digit, then four or more digits, `-`, whitespace
  or brackets, then a digit, so an accepted number has at least six
  characters besides the optional `+`; the middle class takes any `\s`
  whitespace, not only the space;
- a blank (NaN) cell is present and truthy, so it never gives
  "`<col>` is required";
- an unsupported suffix gets no error of its own: only `.csv` goes to the
  delimited reader, and every other suffix goes to the workbook reader;
- the loader re-raises on a failed commit instead of returning a partial
  count.

Inputs the Python code gets from the outside world are parameters of the
model:
- directory listing: the `input` names of an `Inbox`;
- file contents: `contents: string -> Content`, the results of
  `read_csv` and `read_excel`;
- the outcome of each archive move: `moves: string -> bool`;
- the player table: the `Session` store.

## Model

| member | source | states |
|---|---|---|
| Text.StripShape | app/etl/validators.py:12 | `strip` keeps the infix between the leading and the trailing whitespace, and that infix has no whitespace at either end |
| Text.StripIdempotent | app/etl/transformers.py:20 | stripping twice is stripping once |
| Text.LowerOfLower | app/etl/transformers.py:20 | `lower` leaves a string with no upper-case letter unchanged |
| Text.NatToStringRoundTrip | app/etl/transformers.py:48 | the decimal digits of every natural number read back as that number |
| Frames.ToDict | app/etl/transformers.py:32 | `row.to_dict()` has exactly the column labels as keys, and each key maps to the cell of its last column of that name |
| Frames.Get | app/etl/transformers.py:38 | `dict.get` gives the cell under the key, and `None` when the key is absent |
| Validators.ValidateEmail | app/etl/validators.py:9-12 | a value passes only if it is a string whose stripped form is non-empty |
| Validators.ValidateEmailIff | app/etl/validators.py:5-12 | a string passes exactly when its stripped form has no whitespace, exactly one `@`, and a `.` after the `@` with non-empty text on both sides |
| Validators.EmailBodyIffShape | app/etl/validators.py:5 | the pattern `^[^@\s]+@[^@\s]+\.[^@\s]+$` matches exactly the strings of that shape |
| Validators.ValidateEmailNonStrings | app/etl/validators.py:10-11 | `None`, NaN, the empty string and integers are rejected |
| Validators.EmailRejectsMissingDot | app/etl/validators.py:5 | `"a@b"` is rejected |
| Validators.EmailAcceptsParts | app/etl/validators.py:5 | `local@host.tld` passes for any non-empty parts without `@` or whitespace |
| Validators.EmailAcceptsDottedDomain | app/etl/validators.py:5 | `"a@b.co"` is accepted |
| Validators.EmailRejectsInnerSpace | app/etl/validators.py:5 | an address with inner whitespace is rejected |
| Validators.EmailRejectsTwoAts | app/etl/validators.py:5 | an address with two `@` is rejected |
| Validators.ValidatePhone | app/etl/validators.py:14-17 | a value passes only if it is a string whose stripped form has at least six characters (ASCII digits only) |
| Validators.ValidatePhoneIff | app/etl/validators.py:6-17 | a string passes exactly when its stripped form, without one leading `+`, is an ASCII digit, then at least four ASCII digits, `-`, whitespace or brackets, then an ASCII digit |
| Validators.ValidatePhoneLength | app/etl/validators.py:6 | an accepted number has at least six characters besides the `+` |
| Validators.PhoneAcceptsDigits | app/etl/validators.py:6 | six or more digits pass, with or without a leading `+` |
| Validators.PhoneRejectsFiveDigits | app/etl/validators.py:6 | five digits are rejected, with or without `+` |
| Validators.PhoneRejectsLetter | app/etl/validators.py:6 | a letter inside the number is rejected |
| Validators.PhoneRejectsTwoPluses | app/etl/validators.py:6 | two leading `+` are rejected |
| Validators.EmailIgnoresSurroundingSpace | app/etl/validators.py:12 | the e-mail check gives the same verdict for `s` and `strip(s)` |
| Validators.PhoneIgnoresSurroundingSpace | app/etl/validators.py:17 | the phone check gives the same verdict for `s` and `strip(s)` |
| Validators.MonthFieldRange | app/etl/validators.py:22 | a `%m` field has a value in 1..12 |
| Validators.DayFieldRange | app/etl/validators.py:22 | a `%d` field has a value in 1..31 |
| Validators.MakeDate | app/etl/validators.py:24 | `strptime` builds a date only when it exists in the calendar |
| Validators.Strptime | app/etl/validators.py:24 | each of the four formats, read with ASCII digits, gives only calendar dates |
| Validators.ValidateWithAgrees | app/etl/validators.py:19-38 | the loop of `validate_date` succeeds exactly when the loop of `parse_date` returns a date |
| Validators.ValidateDateAgreesWithParse | app/etl/validators.py:19-38 | for every value, `validate_date` is true exactly when `parse_date` is not `None` |
| Validators.ParseWithFirstMatch | app/etl/validators.py:33-37 | the formats are tried in order: no date when every format fails; otherwise the date of the first format that parses, with every earlier format failing |
| Validators.ParseDateOfStripped | app/etl/validators.py:33-37 | on a stripped string, `parse_date` tries ISO, dotted, `Y/M/D` and `D/M/Y`, in that order |
| Validators.ParseWithCalendar | app/etl/validators.py:33-37 | every date the loop returns exists in the calendar |
| Validators.ParseDateCalendar | app/etl/validators.py:30-38 | every date `parse_date` returns exists in the calendar |
| Validators.IndexOf | app/etl/validators.py:24 | the first position of a separator, or none when it does not occur |
| Validators.Pad2 | app/etl/validators.py:22 | a two-digit rendering of a number below 100 |
| Validators.Pad4 | app/etl/validators.py:22 | a four-digit rendering of a number below 10000 |
| Validators.Render | app/etl/validators.py:22 | the rendering of a calendar date in one format has ten characters |
| Validators.PaddedFields | app/etl/validators.py:22 | the padded year, month and day are fields of their format with their own values |
| Validators.DateRoundTrip | app/etl/validators.py:30-38 | a calendar date rendered in any of the four formats parses back to itself |
| Validators.IsoParsesIffCalendar | app/etl/validators.py:30-38 | an ISO string of well-formed fields parses exactly when the date exists, and then to that date |
| Validators.DottedParsesIffCalendar | app/etl/validators.py:30-38 | the same for `DD.MM.YYYY` |
| Validators.ParseIsoFields | app/etl/validators.py:35 | `Y-M-D` of well-formed fields is the date the fields build |
| Validators.ParseDottedFields | app/etl/validators.py:35 | `D.M.Y` of well-formed fields is the date the fields build |
| Validators.ParseSlashYmdFields | app/etl/validators.py:35 | `Y/M/D` of well-formed fields is the date the fields build |
| Validators.ParseSlashDmyFields | app/etl/validators.py:35 | `D/M/Y` of well-formed fields is the date the fields build, because no earlier format reads it |
| Validators.YearFirstSplit | app/etl/validators.py:24 | a year-first format splits at the separator and checks the three fields |
| Validators.DayFirstSplit | app/etl/validators.py:24 | a day-first format splits at the separators and checks the three fields |
| Validators.NoSeparatorNoDate | app/etl/validators.py:22-28 | a string without `-`, `.` or `/` is no date |
| Validators.NanIsNoDate | app/etl/transformers.py:44 | `str(nan)`, the text of a blank cell, is no date |
| Validators.LeapDayAccepted | app/etl/validators.py:30-38 | `"2020-02-29"` is accepted as 29 February 2020 |
| Validators.CommonYearLeapDayRejected | app/etl/validators.py:30-38 | 29 February of a common year is rejected, in ISO and dotted form |
| Validators.NonLeapDayRejected | app/etl/validators.py:30-38 | `"2021-02-29"` is rejected |
| Validators.ThirtyFirstOfAprilRejected | app/etl/validators.py:30-38 | `"31.04.YYYY"` is rejected for every year |
| Validators.YearZeroRejected | app/etl/validators.py:30-38 | year `0000` is rejected |
| Validators.SpacePaddedDayAccepted | app/etl/validators.py:24 | `%d` reads `" 5"` as it reads `"05"` |
| Transformers.CanonicalColumns | app/etl/transformers.py:19-21 | the headers after normalisation, each the alias of its trimmed lower-cased text, otherwise that text |
| Transformers.AliasTargets | app/etl/transformers.py:10-17 | every alias names one of the six canonical columns |
| Transformers.TargetsAreFixed | app/etl/transformers.py:10-17 | every canonical name is its own alias |
| Transformers.TargetsAreNormal | app/etl/transformers.py:10-17 | every canonical name is already trimmed and lower-case |
| Transformers.CanonicalIdempotent | app/etl/transformers.py:10-22 | normalising a normalised header changes nothing |
| Transformers.CanonicalExamples | app/etl/transformers.py:10-21 | `" E-Mail "` becomes `email` and `"DOB"` becomes `date_of_birth` |
| Transformers.NormalizeColumns | app/etl/transformers.py:9-23 | the rename loop gives every header its canonical name and leaves the rows as they were |
| Transformers.CoerceInt | app/etl/transformers.py:48 | `int()` keeps an integer and raises on NaN and `None`; strings are read with ASCII digits |
| Transformers.ParseIntPadded | app/etl/transformers.py:48 | whitespace that `int()` skips (ASCII space, `\t\n\v\f\r` and the non-ASCII `isspace` characters) around the literal leaves its value |
| Transformers.IntSeparatorRefused | app/etl/transformers.py:48-52 | a leading U+001C, whitespace to `str.strip`, makes `int()` raise, so such a rating is not an integer |
| Transformers.IntStripOfBare | app/etl/transformers.py:48 | a text with no `int()` whitespace at either end is read as it stands |
| Transformers.ParseIntOfDigits | app/etl/transformers.py:48 | a string of decimal digits converts to its value |
| Transformers.ParseIntOfNegative | app/etl/transformers.py:48-50 | `-` followed by digits converts to the negated value |
| Transformers.ParseIntRoundTrip | app/etl/transformers.py:48 | `int(str(n)) == n` for every integer |
| Transformers.ParseIntExamples | app/etl/transformers.py:51-52 | `int()` raises on `"abc"`, `""` and `"-"` |
| Transformers.RequiredMessages | app/etl/transformers.py:27-39 | the first three messages are `first_name`, `last_name`, `email` "is required", in that order |
| Transformers.Prepare | app/etl/transformers.py:33-36 | only string name fields are stripped; keys and the other fields are unchanged |
| Transformers.FilterIsFlagged | app/etl/transformers.py:37-52 | the error list enumerates the messages of the firing checks, one for one |
| Transformers.MessagesDistinct | app/etl/transformers.py:39-52 | no two checks share a message |
| Transformers.ErrorsAreFiltered | app/etl/transformers.py:37-52 | the error list of a row is the message table filtered by which checks fire |
| Transformers.MessageIffFires | app/etl/transformers.py:37-52 | a check's message is in a row's errors exactly when the check fires |
| Transformers.ErrorsInCheckOrder | app/etl/transformers.py:37-52 | errors appear in check order: required fields, e-mail, phone, date of birth, rating |
| Transformers.Coerced | app/etl/transformers.py:46-48 | a rating `int()` accepts is replaced by its integer, and the other fields stay |
| Transformers.CheckRating | app/etl/transformers.py:46-52 | the rating step gives the coerced row and the rating messages |
| Transformers.CheckRow | app/etl/transformers.py:31-54 | the loop body yields the row's error list and the emitted row |
| Transformers.PlayerRows | app/etl/transformers.py:30-32 | `iterrows` and `to_dict` give one dictionary per table row |
| Transformers.CheckAndRoute | app/etl/transformers.py:53-57 | a row with errors is appended to the invalid list, and a row without errors to the valid list |
| Transformers.TransformPlayers | app/etl/transformers.py:25-60 | the loop returns the valid and the invalid cohort of the table's rows, in row order |
| Transformers.CohortConcat | app/etl/transformers.py:30-57 | routing a concatenation routes each part |
| Transformers.CohortMembers | app/etl/transformers.py:53-57 | every member of a cohort is the output of a selected input row |
| Transformers.PartitionSizes | app/etl/transformers.py:30-57 | every row lands in exactly one cohort: the two sizes add up to the input size |
| Transformers.PartitionConcat | app/etl/transformers.py:30-57 | routing keeps row order within each cohort |
| Transformers.PartitionOne | app/etl/transformers.py:53-57 | a single row goes to the cohort its error list chooses |
| Transformers.InvalidRowCarriesErrors | app/etl/transformers.py:53-55 | an invalid row carries `_errors`, its non-empty error list joined by `"; "` |
| Transformers.ErrorsFromTable | app/etl/transformers.py:37-52 | every error is one of the eight fixed messages |
| Transformers.InvalidRowsCarryErrors | app/etl/transformers.py:53-55 | every member of the invalid cohort carries a non-empty `_errors` string |
| Transformers.ValidRowShape | app/etl/transformers.py:56-57 | a valid row gains no `_errors` key |
| Transformers.ValidRatings | app/etl/transformers.py:46-52 | every valid row's rating is absent, `None` or a non-negative integer |
| Transformers.ValidRowHasRequired | app/etl/transformers.py:37-41 | a valid row has truthy names and a valid e-mail |
| Transformers.BlankEmailCell | app/etl/transformers.py:37-41 | a blank (NaN) e-mail cell gives "invalid email" and not "email is required" |
| Transformers.EmptyEmailString | app/etl/transformers.py:37-41 | an empty e-mail string gives both messages |
| Transformers.AbsentEmailColumn | app/etl/transformers.py:37-41 | a row without an e-mail key gives only "email is required" |
| Transformers.BlankNameRequired | app/etl/transformers.py:33-39 | a name of whitespace only is stripped to empty and reported as required |
| Transformers.BlankPhoneAndDateCells | app/etl/transformers.py:42-45 | blank (NaN) phone and date cells are checked and rejected |
| Transformers.UncheckedWhenFalsy | app/etl/transformers.py:42-46 | phone and date are not checked when falsy, and the rating is not checked when `None` |
| Transformers.BlankRatingCell | app/etl/transformers.py:46-52 | a blank (NaN) rating gives "rating must be integer" |
| Transformers.NonNumericRating | app/etl/transformers.py:51-52 | a rating `int()` rejects gives "rating must be integer" |
| Transformers.NegativeRatingReported | app/etl/transformers.py:49-50 | a negative rating gives "rating must be non-negative" |
| Transformers.RatingStringCoerced | app/etl/transformers.py:48 | a numeric rating string is replaced by its integer in the emitted row |
| Transformers.NullRatingUnchecked | app/etl/transformers.py:46 | a `None` rating is not checked |
| Loaders.ChunkAt | app/etl/loaders.py:7-22 | chunk `k` is `records[200k .. min(200(k+1), n)]`, and there are `ceil(n/200)` chunks |
| Loaders.ChunksFlatten | app/etl/loaders.py:21-22 | the chunks concatenate back to the records |
| Loaders.ChunkSizes | app/etl/loaders.py:7-22 | every chunk has between 1 and 200 records |
| Loaders.FourHundredFifty | app/etl/loaders.py:7-22 | 450 records give chunks of 200, 200 and 50 |
| Loaders.ChunkPrefix | app/etl/loaders.py:21-22 | the first `k` chunks are the first `min(200k, n)` records |
| Loaders.Inserted | app/models.py:84 | the row an inserted player leaves: a `None` rating becomes the column default 1000, and the other columns are as built |
| Loaders.PlayerFields | app/etl/loaders.py:25-30 | a player takes first name, last name and e-mail from the record (`None` when absent), and its rating too, except that an absent or `None` rating is stored as 1000; it depends on no other key |
| Loaders.Players | app/etl/loaders.py:24-31 | one player per record, in order |
| Loaders.PlayersConcat | app/etl/loaders.py:24-31 | building players distributes over concatenation |
| Loaders.UniquePrefix | app/etl/loaders.py:33 | a prefix of a table with unique e-mails has unique e-mails |
| Loaders.BuildPlayers | app/etl/loaders.py:23-31 | the inner loop builds the players of a chunk |
| Loaders.Session.constructor | app/etl/loaders.py:17 | a store with the given committed players and nothing pending |
| Loaders.Session.AddAll | app/etl/loaders.py:32 | `add_all` appends to the pending players |
| Loaders.Session.Commit | app/etl/loaders.py:33 | a commit succeeds exactly when the e-mails stay unique; it then makes the pending players committed, and otherwise changes nothing |
| Loaders.Session.Rollback | app/etl/loaders.py:37 | `rollback` discards the pending players |
| Loaders.LoadSuccess | app/etl/loaders.py:34-35 | on success the store gains exactly the records' players in order, and the count is the number of records |
| Loaders.LoadCommits | app/etl/loaders.py:32-34 | a committed chunk is followed by the load of the remaining chunks |
| Loaders.LoadStops | app/etl/loaders.py:33-38 | a failed commit ends the load with an error and the table as it was before that chunk |
| Loaders.LoadFailure | app/etl/loaders.py:33-38 | on failure there is a chunk `k` whose commit failed, and the table holds exactly the chunks before it |
| Loaders.LoadSucceedsIff | app/etl/loaders.py:17-38 | the load succeeds exactly when the committed and the new e-mails are unique together |
| Loaders.BulkInsertPlayers | app/etl/loaders.py:17-38 | the chunk loop leaves the store and the result that the chunked load specifies, with nothing pending |
| Loaders.BulkInsertOutcome | app/etl/loaders.py:17-38 | success exactly when e-mails stay unique; then `len(records)` and every record committed in order; else the store holds the first `200k` records for some `k` |
| Loaders.SaveErrors | app/etl/loaders.py:43-50 | no artifacts exactly when the invalid table is absent or empty |
| Loaders.ArtifactNames | app/etl/loaders.py:46-47 | the CSV and JSON paths differ, and each names its source uniquely |
| Loaders.ArtifactPaths | app/etl/loaders.py:45-46 | the two artifacts are `errors_<source>.csv` and `.json` under the errors directory as pathlib renders it |
| Loaders.PathJoinOfPlain | app/etl/loaders.py:45-46 | a relative directory with no empty or `.` part, such as `data/errors`, is joined with one slash |
| Loaders.PathJoinHere | app/etl/loaders.py:45-46 | `Path("") / name` and `Path(".") / name` are the bare name |
| Loaders.PathJoinTrailingSlash | app/etl/loaders.py:45-46 | a trailing slash on a directory with a part changes nothing |
| Loaders.PathJoinDotPrefix | app/etl/loaders.py:45-46 | a leading `./` on a relative directory changes nothing |
| Loaders.PathJoinDoubleSlash | app/etl/loaders.py:45-46 | a doubled slash inside a relative directory counts as one |
| Loaders.SamePrefix | app/etl/loaders.py:45-46 | directories with the same root and the same kept parts give the same paths |
| Loaders.JoinSplit | app/etl/loaders.py:45-46 | joining the slash-separated names of a path with `/` gives the path back |
| Extractors.GlobMembers | app/etl/extractors.py:14 | a glob picks the names with that extension |
| Extractors.GlobDistinct | app/etl/extractors.py:14 | a glob of distinct names lists each once |
| Extractors.ListFiles | app/etl/extractors.py:5-16 | the `*.csv` matches, then `*.xls`, then `*.xlsx` |
| Extractors.ListedIff | app/etl/extractors.py:5-16 | a name is listed exactly when it is in the directory and ends in a supported extension |
| Extractors.ExtensionsExclusive | app/etl/extractors.py:5 | no name ends in two of the supported extensions |
| Extractors.ListedDistinct | app/etl/extractors.py:12-16 | a directory of distinct names lists no file twice |
| Extractors.LastDot | app/etl/extractors.py:19 | the position of the last dot of a name |
| Extractors.Suffix | app/etl/extractors.py:19 | `Path.suffix` is empty, or a dotted ending of the name shorter than the name |
| Extractors.Stem | app/etl/extractors.py:19 | stem and suffix together are the name |
| Extractors.StemOf | app/etl/extractors.py:19 | a base with a one-dot extension has that suffix and that stem |
| Extractors.ReaderOfListed | app/etl/extractors.py:19-24 | of the listed files, exactly those ending in `.csv` with text before it go to the CSV reader |
| Extractors.CsvSuffix | app/etl/extractors.py:19-21 | a name ending in `.csv` is read as CSV exactly when it is longer than `.csv` |
| Extractors.WorkbookSuffix | app/etl/extractors.py:19-24 | `.xls` and `.xlsx` files go to the workbook reader |
| Extractors.LastDotOfExtension | app/etl/extractors.py:19 | the last dot of a name is the one that starts its extension |
| Extractors.FirstIndex | app/etl/extractors.py:27 | the first column of a label |
| Extractors.TagShape | app/etl/extractors.py:27 | tagging gives every row of the sheet its name under `__sheet` and leaves the other cells |
| Extractors.Tagged | app/etl/extractors.py:25-28 | one tagged frame per sheet |
| Extractors.TagSheets | app/etl/extractors.py:25-28 | the sheet loop tags the sheets in order |
| Extractors.SheetNames | app/etl/extractors.py:30 | `meta['sheets']` lists the sheet names in order |
| Extractors.AddLabelsMembers | app/etl/extractors.py:29 | adding labels keeps the old ones and adds the new ones |
| Extractors.UnionMembers | app/etl/extractors.py:29 | the concatenated columns are exactly the columns of some frame |
| Extractors.RowsOf | app/etl/extractors.py:29 | one row per frame row, laid out on the union columns |
| Extractors.ConcatRowsShape | app/etl/extractors.py:29 | the concatenation has the sum of the frames' rows, each with one cell per column |
| Extractors.ConcatRowsMarked | app/etl/extractors.py:27-32 | when a column is present in every row of every frame, no concatenated row is blank |
| Extractors.StripHeaders | app/etl/extractors.py:31 | every header label is stripped |
| Extractors.DropBlank | app/etl/extractors.py:32 | `dropna(how='all')` keeps no more rows than it gets |
| Extractors.DropBlankMembers | app/etl/extractors.py:32 | a row survives exactly when it has a present cell |
| Extractors.DropBlankConcat | app/etl/extractors.py:32 | dropping is done row by row, keeping order |
| Extractors.DropBlankNone | app/etl/extractors.py:32 | no row is dropped when none is blank |
| Extractors.DropBlankWellFormed | app/etl/extractors.py:32 | dropping keeps the table shape |
| Extractors.Extract | app/etl/extractors.py:18-33 | the extractor returns what the reader results specify |
| Extractors.ExtractMeta | app/etl/extractors.py:20-31 | `meta['source']` is the file name; sheet names exactly for workbooks; every header stripped |
| Extractors.ExtractFails | app/etl/extractors.py:21-29 | extraction fails exactly when the chosen reader fails, or when a workbook has no sheets |
| Extractors.ExtractCsv | app/etl/extractors.py:21-32 | a CSV file keeps exactly its non-blank rows, in order |
| Extractors.ExtractWorkbook | app/etl/extractors.py:23-32 | a workbook with sheets always extracts, with as many rows as its sheets together |
| Extractors.ExtractWorkbookRows | app/etl/extractors.py:23-32 | row `i` of sheet `k` is row `i` plus the rows of the sheets before it of the extracted table; it holds the sheet's name under `__sheet`, the sheet's own cell under each of its labels and NaN under labels only other sheets have |
| Extractors.WorkbookConcatRows | app/etl/extractors.py:27-29 | the same placement and cells in the concatenation, before the strip and the drop |
| Extractors.ExtractWorkbookUndropped | app/etl/extractors.py:27-32 | the blank-row drop keeps every row of a concatenated workbook |
| Extractors.ConcatRowsAt | app/etl/extractors.py:29 | `pd.concat` puts row `i` of frame `k` after the rows of the frames before it, laid out on the union columns |
| Extractors.TagLookup | app/etl/extractors.py:27 | under any label, a tagged sheet's row gives the sheet's name, its own cell or NaN |
| Extractors.FirstIndexPrefix | app/etl/extractors.py:27 | appending the `__sheet` column moves no existing label |
| Extractors.TaggedSumRows | app/etl/extractors.py:26-28 | tagging keeps every sheet's row count |
| Extractors.ExtractWellFormed | app/etl/extractors.py:18-33 | the extracted table has one cell per column in every row |
| Orchestrator.Stage | app/etl/orchestrator.py:24-27 | one staged entry per discovered file |
| Orchestrator.AdvanceIs | app/etl/orchestrator.py:28-40 | the progress after one file: counters grown by the file's cohorts, the file archived when its move succeeds, its artifacts written when it has errors |
| Orchestrator.RunUnfold | app/etl/orchestrator.py:24-40 | one iteration of the loop either stops the run with its outcome or continues it from the new progress |
| Orchestrator.Inbox.constructor | app/etl/orchestrator.py:18 | an input directory and an archive with the given names |
| Orchestrator.Inbox.Rename | app/etl/orchestrator.py:36-40 | a successful move takes the file from the input to the archive, and a failed one changes nothing |
| Orchestrator.Without | app/etl/orchestrator.py:38 | the directory without the moved file |
| Orchestrator.ProcessFile | app/etl/orchestrator.py:26-27 | extract and transform give the file's cohorts |
| Orchestrator.LoadValid | app/etl/orchestrator.py:28-32 | the loader runs only for a non-empty valid cohort, and an empty cohort counts 0 |
| Orchestrator.HandleFile | app/etl/orchestrator.py:28-40 | the rest of one iteration does what one step of the run specifies: stop on a load failure, otherwise count, save, archive |
| Orchestrator.StageFiles | app/etl/orchestrator.py:24-27 | extracting and transforming every listed file gives the staged files |
| Orchestrator.RunFiles | app/etl/orchestrator.py:22-41 | the loop leaves the store, archive, artifacts and result that the run specifies; a file not archived stays in the input |
| Orchestrator.RunPlayers | app/etl/orchestrator.py:17-41 | `run_players` lists the files and runs them; an empty listing gives `{0, 0, 0}`; on return `processed` is the number of files |
| Orchestrator.RunStep | app/etl/orchestrator.py:24-40 | a file that extracts and loads advances the run to the next file |
| Orchestrator.LoadedCohort | app/etl/orchestrator.py:29-32 | a loaded cohort counts its size and commits its players in order |
| Orchestrator.LoadCohortIff | app/etl/orchestrator.py:29-32 | a cohort loads exactly when the e-mails stay unique |
| Orchestrator.RunTotals | app/etl/orchestrator.py:22-41 | on normal return every file extracted, `created` is the number of valid rows, `errors` the number of invalid rows, the store gained every valid row, and the archive every successfully moved file |
| Orchestrator.RunOkIff | app/etl/orchestrator.py:24-41 | the run returns normally exactly when every file extracts and all valid rows together keep the e-mails unique |
| Orchestrator.RunIgnoresMoves | app/etl/orchestrator.py:36-40 | the outcome of the archive moves changes neither the result, the store nor the artifacts |
| Orchestrator.RunMonotone | app/etl/orchestrator.py:22-35 | the counters never decrease |
| Orchestrator.RunStops | app/etl/orchestrator.py:26-31 | a failed run stopped at some file: every earlier file extracted, and only the earlier files were archived |
| Orchestrator.SharedStemSharesArtifacts | app/etl/orchestrator.py:34 | `a.csv` and `a.xlsx` write to the same artifacts |
| Bookings.CreateError | app/routers/bookings.py:11-24 | player missing, then room missing, then overlap; no error exactly when both exist and nothing in force overlaps; every error is a 400 |
| Bookings.UpdateError | app/routers/bookings.py:44-57 | a missing id gives 404; no error exactly when the id exists and no other booking in force overlaps |
| Bookings.BackToBack | app/routers/bookings.py:18-19 | ranges that only touch never conflict |
| Bookings.CancelledNeverBlocks | app/routers/bookings.py:20 | a cancelled (or NULL-status) booking never blocks |
| Bookings.SelfConflict | app/routers/bookings.py:50 | a booking in force conflicts with itself, so the update query must leave it out |
| Bookings.Inserted | app/models.py:158 | the row an insert stores: a missing status becomes the column default `pending`, and all else is the payload |
| Bookings.CreateKeepsInvariant | app/routers/bookings.py:15-28 | a successful create keeps the table free of double bookings, with the inserted row stored |
| Bookings.CreatedWithoutStatusBlocks | app/routers/bookings.py:15-28 | a booking created without a status is in force, so a later overlapping create in its room is refused |
| Bookings.UpdateKeepsInvariant | app/routers/bookings.py:47-61 | a successful update keeps the table free of double bookings |
| Bookings.ResaveSucceeds | app/routers/bookings.py:47-57 | saving a booking in force unchanged always succeeds |
| Bookings.DeleteKeepsInvariant | app/routers/bookings.py:69-70 | deleting keeps the table free of double bookings |
| Bookings.DeleteLeavesOthers | app/routers/bookings.py:69-70 | deleting removes exactly that booking and leaves every other one |
| Bookings.BookingTable.constructor | app/routers/bookings.py:9-10 | an empty booking table over the given players and rooms |
| Bookings.BookingTable.CreateItem | app/routers/bookings.py:9-29 | the error of the create rule, or the inserted row (status defaulted) stored under a fresh key |
| Bookings.BookingTable.UpdateItem | app/routers/bookings.py:42-62 | the error of the update rule, or every field replaced |
| Bookings.BookingTable.DeleteItem | app/routers/bookings.py:64-71 | 404 for a missing id, else the booking removed and `"deleted"` |
| Schemas.MaxLength | app/schemas.py:6 | a string passes exactly when within its bound, unchanged, else with pydantic v2's `string_too_long` message |
| Schemas.OptionalMaxLength | app/schemas.py:7-9 | an optional string passes when absent or within its bound |
| Schemas.ClubErrors | app/schemas.py:5-9 | no errors exactly when every field fits; errors name only club fields |
| Schemas.ValidateClub | app/schemas.py:5-9 | a club is accepted exactly when name ≤ 200, address ≤ 300, city ≤ 100 and phone ≤ 30 |
| Schemas.ClubRevalidates | app/schemas.py:5-9 | an accepted club passes again unchanged |
| Schemas.CapacityCheck | app/schemas.py:25-29 | capacity passes exactly when `None` or non-negative |
| Schemas.MaxPlayersCheck | app/schemas.py:40-46 | `max_players` defaults to 10; a sent value passes exactly when `None` or positive |
| Schemas.DefaultMaxPlayersPasses | app/schemas.py:40-46 | sending 10 is the same as leaving the field out |
| Schemas.ZeroBoundaries | app/schemas.py:27-44 | capacity 0 passes and `max_players` 0 fails |
| Schemas.ChecksIdempotent | app/schemas.py:25-46 | an accepted value passes again unchanged |
| Schemas.NotBefore | app/schemas.py:93-115 | an end passes exactly when `None`, when the start is missing from the validated values, or when it is not earlier than the start |
| Schemas.SameInstantPasses | app/schemas.py:93-115 | equal membership dates and equal session times pass; an earlier end date fails |
| Schemas.BookingEndCheck | app/schemas.py:170-174 | a booking end passes exactly when strictly after the start |
| Schemas.BookingStrict | app/schemas.py:170-174 | equal times fail for a booking and pass for a game session |
| Schemas.ValidateBooking | app/schemas.py:163-174 | a payload is accepted exactly when start < end; the default status is `pending` |
| Schemas.ValidatedBookingBlocks | app/schemas.py:168 | a booking left with its default status is in force and conflicts with itself |
| Schemas.PrizeCheck | app/schemas.py:129-133 | the prize pool passes exactly when `None` or non-negative |
| Schemas.PriceCheck | app/schemas.py:196-200 | the price passes exactly when non-negative |
| Schemas.SignChecksUpwardClosed | app/schemas.py:196-200 | a larger value passes every sign check a smaller one passes |
| Schemas.LengthBoundsExact | app/schemas.py:21-38 | a 100-character room name passes, 101 fails, and 101 fits an arena name |

## Left out

- Reading CSV and Excel bytes, writing the CSV/JSON artifacts, `mkdir`, `glob` and `rename`: foreign library and filesystem calls. Reader results, listings and move outcomes are inputs, and an artifact is the pair of paths `save_errors` returns.
- `str()` of values other than strings, integers, `None` and NaN (pandas Timestamps, floats): cells are `Str | Int | Null | Missing`, so float ratings such as `3.0` are not modelled.
- `pd.DataFrame(rows)` rebuilding a table from dictionaries, and `to_dict(orient='records')`: in the model, cohorts stay sequences of dictionaries, so the NaN that pandas fills in for a key missing from some rows is not modelled.
- Duplicate header labels after `rename`: `to_dict` keeps the last one, and the row model follows that; pandas' behaviour with duplicate columns is not modelled further.
- `str.lower`: only ASCII letters are lower-cased, which is enough for the alias table. Stripping uses Python's full `str.isspace` set.
- Validators.ValidatePhoneIff, Validators.ValidatePhone: `\d` in `PHONE_RE` matches every Unicode decimal digit (category Nd, such as "٠١٢٣٤٥"); the model accepts ASCII `0`-`9` only, so such numbers are refused. Modelling the Nd table was not worth its size.
- Validators.Strptime, Validators.ParseDateCalendar, Validators.ParseWithFirstMatch: `strptime` also reads Unicode decimal digits in its numeric fields; the model reads ASCII digits only, so "٢٠٢٠-٠١-٠١" gives no date, and so does every date member built on `Strptime`.
- Transformers.CoerceInt, Transformers.ParseIntOfDigits: `int()` of a string also accepts Unicode decimal digits (such as "١٢٣"); the model reads ASCII digits only and raises on them.
- Transformers.CoerceInt, Transformers.ParseInt, Transformers.ParseIntRoundTrip: from Python 3.11, `int()` refuses a literal of more than 4300 digits by default (`sys.set_int_max_str_digits`). The model reads a literal of any length, so such a rating is coerced rather than reported.
- Hidden files, case-insensitive matching and the order within one glob: the listing order within one extension is taken as given.
- The regex engine and `strptime` beyond the four formats: each pattern is modelled as a predicate.
- Session `close()`, transaction isolation, and the database's own constraints other than the unique e-mail. The store fails a commit exactly on a duplicate non-null e-mail; other database errors are not modelled.
- Loaders.BulkInsertPlayers, Orchestrator.RunPlayers: they require a store with nothing pending, since the code always uses a fresh or idle session.
- Orchestrator.RunPlayers: extraction and transformation of every file are computed before the loads (StageFiles). Both touch neither the store nor the directory, so the outcome is that of the interleaved loop. An extraction failure of a later file is therefore the same early stop.
- Logging: the log lines of `run_players` have no effect on the outcome.
- Floating-point fields: the sign checks use `real`. Dates and times are integers; for bookings, time zones are not modelled.
- `get_item` and `list_items` of the bookings router: read-only, with only the 404 check already modelled by `DeleteItem` and `UpdateItem`.
- Bookings.BookingTable.CreateItem: the database allocates the key; here it is a counter that is above every key in use.
- Bookings.BookingTable.UpdateItem: as in the code, the player and room of the payload are not looked up again, and no foreign-key failure at commit is modelled.
- A field typed `Optional[...]` without a default (`capacity`, `end_date`, `ended_at`, `prize_pool` and the like) is required in pydantic v2: leaving it out gives a "Field required" error before any check runs. That error is not modelled; the checks take the explicit `null` as `None`.
- The messages of the `@validator` checks are the texts the source raises. pydantic v2 reports them prefixed with `Value error, `, and that prefix is not modelled.
- The shape of pydantic's validation error response (422 with a list of locations and messages): each check returns its message. Schemas without checks (`PCSpecCreate`, `StaffCreate` and the others) are not modelled.
- The other routers, `crud.py`, `main.py` and `run_etl.py`, and `models.py` except the `Booking.status` and `Player.rating` column defaults: wiring and thin data-access code with no logic of their own.
- The in-memory `models.Player` objects before their flush: the store holds each pending player as the row its insert will write, with a `None` rating already defaulted. Nothing in the model reads a pending object.
- Paths are POSIX paths rendered by `str(PurePosixPath)`; `..` parts are kept as pathlib keeps them, and the file name is one part, since it comes from a directory listing.
