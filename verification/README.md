# XavierDB: a verified model

XavierDB is an HTTP proxy in front of MongoDB. This project models its self-contained logic in Dafny and
proves what the code promises of it, over every input, run or reachable state.

| part | files |
|---|---|
| values, the server's sort order and query operators | `Prelude.dfy`, `Bson.dfy`, `Mongo.dfy` |
| keyset pagination: the condition, its meaning, one page, the whole walk | `Keyset.dfy`, `KeysetMeaning.dfy`, `Paging.dfy`, `PageWalk.dfy`, `PageAnswers.dfy` |
| projections and extended JSON | `Projection.dfy`, `ExtJson.dfy`, `ExtJsonWidening.dfy`, `ExtJsonClient.dfy` |
| the rotating log: lines, chain of files, when it rotates, pages, the sink object | `LogLines.dfy`, `LogStore.dfy`, `LogRotation.dfy`, `LogPages.dfy`, `LogSink.dfy` |
| dates of log lines | `CivilDate.dfy` |
| permissions: matcher, layers, editor | `Glob.dfy`, `Permissions.dfy`, `PermLaws.dfy`, `PermEditor.dfy`, `PermOrder.dfy`, `PermIdempotence.dfy` |
| configuration: record, undo and redo, timeline, disk | `Config.dfy`, `ConfigHistory.dfy`, `ConfigTimeline.dfy`, `ConfigDisk.dfy`, `ConfigLoad.dfy` |
| adaptive limiter | `Reals.dfy`, `Median.dfy`, `Limiter.dfy`, `LimiterReadings.dfy` |
| request-rate archive of the dashboard | `RpsArchive.dfy`, `RpsWindow.dfy` |

Check it with `dafny verify dfyconfig.toml` (Dafny 4.11).

## How the code is modelled

**MongoDB** is a parameter. `Mongo.Server` holds any total preorder on the values of one type bracket (as a real rank;
the values are countably many) and any reading of the values whose matching is not value comparison (arrays, regular
expressions, undefined, documents with `$` keys); the model fixes only the order of the brackets, as `TYPE_ORDER` in
`src/dbq.rs` lists it, the comparison of numbers, and that range operators stay inside one type. What `$gt: MinKey`
and `$lt: MaxKey` do to values of other types is left to the server too: every such value is beyond that boundary, so
only the modes that drop fallbacks can notice (`ModeExact`). A user filter is any predicate.

**Objects that change** are classes: `LogSink.LogFileSink`, `ConfigHistory.LiveConfig`,
`ConfigDisk.ConfigStore`, `Limiter.MetricsLoop`, `RpsArchive.Tier`. Each method is proved equal to a function of the old state,
and the properties over whole runs are proved of those functions. Loops of the source are methods with loops
(`KeysetOrs`, `FindPageInner`, `ReadTail`, `GlobMatch`, `EntriesFromRules`, `Median`, `Rebin`, ...).

**Libraries** (bincode, CRC-32, base64, decimal and date texts) are function parameters. The laws asked of them are
inverse laws on what is written, and each set of laws is shown to be met by some codec
(`ConfigDisk.CrashRunsExist`, `ExtJson.SomeCodecIsLawful`, `ExtJsonClient.SomeCodecReadsTexts`).

## Where a promise holds only under a condition

These were proved as equivalences: the promise holds exactly when the condition does.

- Keyset exactness fails at a boundary row with a decimal NaN, which `bson_type_bracket` files under
  "number" while the server sorts it with the double NaN (`KeysetExactIff`). A caller sees it in the boundary
  document. The whole walk (`WalkIsScan`) therefore asks of the matching documents: different `_id`s, and sort
  columns without decimal NaNs, arrays, regular expressions, undefined values and documents with `$` keys; in `IdOnly`
  mode also `_id`s of one type bracket (`IdOnlyWalk`), in `Off` mode every sort column of one.
- A page that shows an array in a sort field is refused exactly when there is more to come (`ArraysRefusedIff`).
- `read_tail` with `0 < lines <= skip` returns the whole file instead of nothing (`TailIsWindow`). `read`
  never asks for that: `skip < lines` there.
- A log of one file (`files` = 1) leaves a `.1` behind that nothing reads or removes (`FileBoundIff`).
- Log sequence numbers are positions in the retained store, so an eviction renumbers every survivor
  (`EvictionRenumbers`), while `total` keeps counting from the last start.
- A written text may hold newlines, as messages of several lines do. The tracked counts, which add one per write,
  stay right exactly when the text holds none (`Write`, `TracksAppended`). The properties of the files themselves
  hold for all texts. A write joins a last line that was cut short; every eviction-free run adds exactly what it
  writes if and only if the current file ends in a newline or the next write rotates it away (`AppendableIff`).
- `glob_match` is exact on the values without `*`, and on no others (`MatcherExactIff`); the dashboard's
  regular expressions agree with it on names that also hold no line break (`GlobsAgreeIff`).
- The server's decision is the first match over its effective rules, always (`FirstIsAllows`, `FirstInherited`). The dashboard
  computes that first match with its own matcher, so it shows the server's decision on every file exactly for plain names
  (`VerdictsAgreeIff`). Its editor asks for patterns, though, and for the collection `*`: over given patterns the
  inherited verdict is right exactly when both matchers agree on each pair (`InheritedIff`), which for the collection
  `*` means that no collection pattern is stars, one `?`, and stars, with a star in front (`InheritedStarIff`). For
  such a pattern the dashboard shows an access as allowed that the server refuses (`InheritedStarDiffers`).
- The editor's normal form keeps every verdict. Normalising again gives the same rules, each once, and the
  same allow list; the deny list comes back in the same order exactly when, in the editor's table, no database
  or collection that is only denied comes before one that is also allowed (`NormalAgainIff`). From the second
  time on nothing changes.
- Undo and redo do not sanitize: after loading a file from disk, every undo is safe exactly when the recorded
  snapshots are in range (`LoadedFineIff`). Reverting equals iterated undo exactly when the snapshot is in
  range (`RevertIsUndoIff`), and so on every history that starts from the defaults (`RevertIsUndo`).
- During a save some complete backup exists at every step exactly when one other than the oldest exists
  before it (`BackupAlwaysIff`): the oldest is deleted first.
- With a growth factor of 1 a calm limit never recovers (`RecoversIff`).
- Extended JSON returns a BSON value unchanged exactly for the values `Survives` describes (`RoundTripIff`):
  32-bit integers, object ids, dates, symbols, code, pointers, undefined, reserved binary subtypes and
  documents that spell a token are not among them. Each of the others comes back as the nearest type JSON can tell
  apart, exactly when no document in the result spells a token (`WidenedIff`). A client that writes the tokens itself can
  have every writable value stored as it is (`ClientWritesIff`).
- A text without newlines is read back as it was written exactly when it does not end in a carriage return (`NewestIsWritten`).

Where comments in the source and its code differ the code is followed. The comment on `read_tail` counts a last
line without a newline; `count_lines`, which seeds the tracked counts, does not (`NewlinesCountIff`). So on a store
whose last line was cut short, `read` leaves out that file's first line, until the next append completes the file
(`AppendRepairs`); the model describes both cases.

## Model

| member | source | states |
|---|---|---|
| Mongo.RowAfterTransitive | src/dbq.rs:578-597 | the multi-column, mixed-direction, cross-type sort order is transitive |
| Mongo.RowAfterTotal | src/dbq.rs:578-597 | of two rows exactly one is after the other, or they tie |
| Keyset.KeysetOrs | src/dbq.rs:710-811 | the loop over the sort columns builds exactly the arms of the specification, in order |
| Keyset.ColumnOrs | src/dbq.rs:712-809 | one column contributes its same-type arm and, unless the mode drops them, its bracket arms |
| Keyset.PushSameType | src/dbq.rs:720-750 | the same-type arm pins the earlier columns and orders this one, NaN and null boundaries included |
| Keyset.PushBrackets | src/dbq.rs:753-808 | null, NaN and `$type` brackets still to come each get an arm |
| Keyset.PinPrefix | src/dbq.rs:727-730 | an arm pins every earlier column to the boundary |
| Keyset.SameTypeSelects | src/dbq.rs:720-750 | the same-type condition selects exactly the later values of the boundary's bracket, the numbers after an ascending NaN, and what the server adds from MinKey up or from MaxKey down |
| Keyset.FallbacksSelect | src/dbq.rs:751-808 | the bracket conditions select exactly the values of later brackets |
| Keyset.ColumnSelects | src/dbq.rs:710-811 | one column's conditions select exactly the later values: all of them in `All` mode and, in `IdOnly` mode, in every column but `_id` |
| KeysetMeaning.ArmMatches | src/dbq.rs:727-749 | an arm matches the documents that tie before its column and satisfy its condition |
| KeysetMeaning.AllNeverEmpty | src/dbq.rs:690-708 | in `All` mode the `$or` is never empty for a nonempty sort |
| KeysetMeaning.ModeExact | src/dbq.rs:690-719 | in every mode the condition selects what the deciding column reaches, through the empty-disjunction fallback and the single-arm collapse |
| KeysetMeaning.KeysetExact | src/dbq.rs:690-811 | a document satisfies the condition if and only if it is strictly after the boundary row |
| KeysetMeaning.KeysetExactIff | src/dbq.rs:599-620 | this holds for all documents if and only if no boundary column is a decimal NaN |
| KeysetMeaning.DecimalNaNMissed | src/dbq.rs:599-620 | ascending, a number after a decimal NaN is missed |
| KeysetMeaning.DecimalNaNRepeated | src/dbq.rs:599-620 | descending, the decimal NaN boundary itself is selected again |
| KeysetMeaning.ModesAgree | src/dbq.rs:648-662 | `IdOnly` and `Off` select exactly what is after the boundary when `_id`, or in `Off` mode every column, holds one bracket |
| KeysetMeaning.IdOnlyExact | src/dbq.rs:648-658 | in `IdOnly` mode client-chosen columns may mix types: one bracket in `_id` is enough for exactness |
| KeysetMeaning.DroppedArms | src/dbq.rs:712-719 | in `Off` mode every arm orders its own column by a range operator, in `IdOnly` mode every arm of `_id` does: no `$type`, no type equality |
| Projections.ParseProjection | src/dbq.rs:352-431 | refuses exactly the unusable and mixed specs; an accepted one shows exactly the fields the client wants |
| Projections.ProjectionDocument | src/dbq.rs:439-470 | the projection sent to Mongo, built in place, is the union with the sort fields and `_id` |
| Projections.ProjectionStripFields | src/dbq.rs:475-502 | the strip set is exactly the surplus of that union |
| Projections.PipelineShowsView | src/dbq.rs:439-515 | Mongo-side projection followed by the strip shows exactly the requested fields, values and order unchanged |
| Projections.BoundarySurvives | src/dbq.rs:922-928 | sort fields and `_id` survive the Mongo-side step, so the next cursor is the unprojected one |
| Projections.FetchedFields | src/dbq.rs:439-470 | Mongo sends exactly the visible fields, the sort fields and `_id` |
| Projections.ViewConcat | src/dbq.rs:505-515 | entries are shown or hidden one by one, by their own key, in stored order |
| Paging.NormalizeSort | src/dbq.rs:309-317 | a sort with `_id` stays; else `_id` is appended in the direction of the last key, ascending for an empty sort; fields stay distinct |
| Paging.FindPageInner | src/dbq.rs:881-912 | reads limit + 1 documents, keeps `limit`, reports whether there are more and which was last |
| PageWalk.SortDocsSorts | src/dbq.rs:890-894 | the server's sort is a sorted permutation |
| PageWalk.CursorSelectsRest | src/dbq.rs:817-838 | the filter built from a cursor at position p, with the user filter, finds exactly the rest of the scan |
| PageWalk.RespondShows | src/routes_q.rs:447-500 | a page shows the first `limit` documents and continues after them; the array guard never fires on plain rows |
| PageWalk.PageIsSlice | src/routes_q.rs:374-505 | each request at position p answers the next slice of the scan with a cursor at the new position |
| PageWalk.FollowReadsScan | src/routes_q.rs:404-481 | following any endpoint that serves slices reads the scan in order |
| PageWalk.WalkIsScan | src/routes_q.rs:404-481 | following `next_cursor`, with page limits that may differ, returns the whole sorted filtered scan, each document once and in order |
| PageWalk.IdOnlyWalk | src/dbq.rs:648-658 | the same in `IdOnly` mode with any mix of types in the client-chosen sort fields, as long as the `_id`s share a bracket |
| PageWalk.WalkEnds | src/routes_q.rs:477-481 | the walk ends within as many pages as documents, as every limit is positive |
| PageWalk.ScanIsSortedSelection | src/dbq.rs:890-894 | that scan is a sorted permutation of the documents matching the user filter |
| PageAnswers.AnswerFits | src/routes_q.rs:401-440 | a page's limit is the smaller of the requested and the enforced one, it holds no more and, while there are more, no fewer; `truncated` says that less was given than asked |
| PageAnswers.AnswerGoesOn | src/routes_q.rs:477-481 | an answer goes on, with a cursor, exactly when more than a page is left |
| PageAnswers.CursorAcceptedIff | src/routes_q.rs:404-425 | an issued cursor is taken up exactly for the same collection and no sort or the same sort |
| PageAnswers.CursorCarriesSort | src/routes_q.rs:426-430 | a request may leave the sort to its cursor |
| PageAnswers.ArraysRefusedIff | src/routes_q.rs:458-475 | a page is refused exactly when more follows and it shows an array in a sort field, projected away or not |
| ExtJson.KeysDiffer | src/dbq.rs:23-25 | no two reserved keys are spelled alike |
| ExtJson.SomeCodecIsLawful | src/dbq.rs:26-268 | the laws asked of the text encodings can be met |
| ExtJson.TokenReads | src/dbq.rs:185-268 | what each token object written for a value is read as |
| ExtJson.TokenImage | src/dbq.rs:57-167 | a document's image is read as a token exactly when the document looks like one |
| ExtJson.RoundTripIff | src/dbq.rs:26-268 | BSON to JSON and back is the identity on exactly the surviving values, at any nesting |
| ExtJson.JsonRoundTripIff | src/dbq.rs:26-268 | JSON without token objects comes back unchanged if and only if its integers fit 64 signed bits |
| ExtJsonWidening.SameImage | src/dbq.rs:185-268 | a value and its widening look the same to the client |
| ExtJsonWidening.WidenedIff | src/dbq.rs:26-268 | a client that writes back what it read stores the widened value (64-bit integers, strings for ids, dates, symbols and code, null, user-defined subtypes), exactly when no document in it spells a token |
| ExtJsonClient.SomeCodecReadsTexts | src/dbq.rs:26-167 | the laws asked of the texts inside tokens can be met |
| ExtJsonClient.ClientWritesIff | src/dbq.rs:26-167 | a value written with the tokens is stored as itself, however nested, exactly when it is writable |
| ExtJsonClient.DateIff | src/dbq.rs:77-93 | a date token is taken exactly for the three spellings of a time and refused otherwise |
| ExtJsonClient.TimestampIff | src/dbq.rs:143-163 | a timestamp token needs two unsigned 32-bit numbers |
| ExtJsonClient.IntegerIff | src/dbq.rs:30-46 | integers are stored in 64 signed bits or as the decimal they spell |
| LogLines.CountLines | src/state.rs:571-592 | counts newlines, whatever the chunk size |
| LogLines.LinesCount | src/state.rs:571-592 | that count, plus one for a missing final newline, is the number of lines |
| LogLines.NewlinesCountIff | src/state.rs:571-592 | the count is the number of lines if and only if the file ends in a newline |
| LogLines.AppendRepairs | src/state.rs:337-356 | a written text joins a last line that lacks its newline and adds its other lines, newlines inside it included; every line is counted again |
| LogLines.LinesConcat | src/state.rs:597-655 | text split after a newline has the lines of both parts |
| LogLines.ScanChunk | src/state.rs:624-644 | one chunk of the backward scan keeps count of the boundaries passed |
| LogLines.Locate | src/state.rs:597-655 | the byte range found is the window's |
| LogLines.ReadTail | src/state.rs:597-655 | the result is a function of the content alone, for every chunk size, with or without final newline |
| LogLines.TailIsWindow | src/state.rs:597-655 | it is the lines at positions skip + 1 .. skip + take from the end if and only if some line is left, nothing is skipped or the file is empty |
| LogStore.WrittenChain | src/state.rs:337-356 | a write drops the oldest file's lines when it rotates, and appends its own, newlines inside the text included |
| LogStore.WrittenSeen | src/state.rs:337-356 | the same of the lines that the newline counts account for |
| LogStore.RunKeepsSuffix | src/state.rs:337-382 | over every run the chain, oldest to newest, is a suffix of everything written, in write order, whatever the texts hold and whatever the rotated files end in |
| LogStore.RunStaysClosed | src/state.rs:337-382 | over every run files that all end in a newline go on doing so, and the counts account for every line |
| LogStore.RunGrows | src/state.rs:337-382 | until something is evicted the chain, and what the counts account for, is what was there followed by everything written, across rotations and reopens |
| LogStore.AppendableIff | src/state.rs:337-356 | that holds for all such runs if and only if no written text can join a line cut short |
| LogStore.JoinsLine | src/state.rs:337-356 | an empty line written behind a line cut short adds no line |
| LogStore.RunStaysBounded | src/state.rs:337-382 | over every run each file stays within the size limit or is a single written text, and no suffix beyond the chain appears |
| LogStore.FileBoundIff | src/state.rs:358-382 | at most `files` files exist on every run if and only if `files` >= 2 |
| LogRotation.FittingRun | src/state.rs:337-356 | while everything a run writes fits into the current file, it is appended there and no other file is touched |
| LogRotation.RunRolls | src/state.rs:337-382 | over every run the directory is the old one rotated some number of times, and every file left behind is one the next text did not fit in |
| LogRotation.NeighboursExceed | src/state.rs:337-382 | in a log that began empty two neighbouring files together exceed the size limit |
| LogRotation.FullLogKeeps | src/state.rs:337-382 | so a log whose files all exist keeps more than the size limit for every two of them |
| LogStore.OpenedChain | src/state.rs:329-333 | opening creates the current file and changes no retained line |
| LogPages.WalkBackIsWholeLog | src/state.rs:387-509 | paging with before = oldest number visits every retained entry exactly once, in order, while lines are appended and files rotated |
| LogSink.WalkWhileRunning | src/state.rs:387-509 | the same while the store runs: any writes, rotations and reopens between the pages, from any files no write can join a cut-short line of, as long as nothing is evicted |
| LogPages.EvictionRenumbers | src/state.rs:411-417 | evicting c lines renumbers every survivor by c |
| LogPages.PageIsNewest | src/state.rs:387-509 | a page holds the newest entries below `before`, all for limit 0, numbered contiguously |
| LogPages.CleanDrops | src/state.rs:452-458 | of trailing carriage returns two are dropped before a newline and one without, and nothing else |
| LogSink.NewestIsWritten | src/state.rs:337-356 | the newest entry after a write is the text written, exactly when it does not end in a carriage return |
| LogSink.LogFileSink.constructor | src/state.rs:307-335 | clamps the settings and counts the newlines of the existing files, whatever they end in |
| LogSink.Reopen | src/state.rs:307-335 | a new object over the directory of an old one retains the same lines; its total starts again from them |
| LogSink.ReopenReads | src/state.rs:307-335 | so it reads the same entries with the same numbers on every page |
| LogStore.SeenIsChain | src/state.rs:571-592 | when every file ends in a newline the counts account for every line |
| LogSink.LogFileSink.Write | src/state.rs:337-356 | writes any text, rotating first when it does not fit (characterised by `FittingRun` and `RunRolls`); the tracked counts stay the real newline counts if and only if the text holds no newline |
| LogSink.LogFileSink.Rotate | src/state.rs:358-382 | files and their counts shift together |
| LogSink.LogFileSink.RotateFiles | src/state.rs:358-367 | the renames from the oldest down equal one shift of the directory |
| LogSink.LogFileSink.ShiftCounts | src/state.rs:368-374 | the counts follow the files |
| LogSink.LogFileSink.ExistingFiles | src/state.rs:399-410 | the files with their tracked counts are the retained lines, oldest first |
| LogSink.LogFileSink.Read | src/state.rs:387-509 | returns exactly the newest `limit` retained entries below `before`, in order, numbered contiguously across files; all lines are retained ones when every file ends in a newline |
| LogSink.Collect | src/state.rs:419-478 | the walk over the files collects the newest wanted entries |
| LogSink.Plan | src/state.rs:440-451 | how many of a file's last lines are skipped and taken |
| LogSink.Gather | src/state.rs:452-477 | one file's window, split into lines and numbered |
| LogSink.TracksRotated | src/state.rs:358-382 | the tracked counts equal the real line counts after a rotation |
| LogSink.TracksAppended | src/state.rs:337-356 | and after an append if and only if the line holds no newline |
| CivilDate.CivilFromDays | src/state.rs:666-678 | day n gives the date n calendar successors after 1970-01-01 |
| CivilDate.TimeStamp | src/state.rs:660-679 | date and time of day name the second they were made from |
| CivilDate.DateAtCounts | src/state.rs:666-678 | day n is a valid Gregorian date whose day count, year by year and month by month, is n |
| CivilDate.DateAtInverse | src/state.rs:666-678 | every date from 1970 on is the date of its day count |
| CivilDate.EraYear | src/state.rs:669-673 | the year computed from a day of the era contains that day |
| CivilDate.InYearCounts | src/state.rs:673-678 | the month and day computed from a day of the year are valid and that many days into it |
| Glob.GlobMatch | src/perms.rs:230-259 | the loop ends; a true answer is always right, and on values without `*` every answer is |
| Glob.ScanSound | src/perms.rs:239-258 | the loop never accepts what the pattern does not mean |
| Glob.ScanComplete | src/perms.rs:239-258 | on values without `*`, going back to the last star only loses nothing |
| Glob.MatcherExactIff | src/perms.rs:230-259 | every pattern is matched as meant on exactly the values without `*` |
| Permissions.EffectiveRules | src/perms.rs:274-320 | the pushed list is name deny, name allow, app deny, app allow |
| Permissions.EffVerdict | src/assets/ts/perm-widget.ts:121-136 | the loop returns the first match |
| Permissions.GlobsAgreeIff | src/assets/ts/perm-widget.ts:107-118 | the dashboard's patterns and the server's agree on exactly the names without `*` and line breaks |
| Permissions.FirstIsAllows | src/perms.rs:134-153 | for every file, name and names of database and collection a client is allowed exactly what the first match over the effective rules allows |
| Permissions.FirstInherited | src/perms.rs:134-153 | the first match without name rules is the decision for a client without an entry |
| Permissions.VerdictIsAllows | src/assets/ts/perm-widget.ts:121-136 | the dashboard's verdict is the server's decision wherever both matchers agree on the patterns in play |
| Permissions.InheritedVerdict | src/assets/ts/perm-widget.ts:129-131 | so is the inherited verdict, for a client without an entry, the collection `*` included |
| Permissions.VerdictsAgreeIff | src/assets/ts/perm-widget.ts:121-136 | verdict and decision are the same on every file if and only if both names hold no `*` and no line break |
| Permissions.InheritedIff | src/assets/ts/perm-widget.ts:252-264 | for any names, the inherited verdict is the decision on every file made of some patterns if and only if both matchers agree on each pair of them |
| Permissions.StarNameAgreesIff | src/assets/ts/perm-widget.ts:107-118 | on the name `*` the matchers differ on exactly the patterns of one or more stars, one `?`, and any stars |
| Permissions.InheritedStarIff | src/assets/ts/perm-widget.ts:252-264 | what is shown as inherited for a plain database, asked as the collection `*`, is the decision if and only if no collection pattern has that shape |
| Permissions.InheritedStarDiffers | src/assets/ts/perm-widget.ts:252-264 | a file with such a pattern for which the dashboard shows allowed and the server refuses |
| PermLaws.RuleEffect | src/perms.rs:134-153 | one more rule changes only accesses it names and matches, and of those exactly the ones no stronger layer decides: name deny, name allow, app deny, app allow |
| PermLaws.NothingByDefault | src/perms.rs:134-153 | without an allow rule that covers it nothing is granted |
| PermEditor.EntriesFromRules | src/assets/ts/perm-widget.ts:57-80 | a cell is denied if a deny rule writes it, else allowed if an allow rule does, else inherits |
| PermEditor.ApplyEntries | src/assets/ts/perm-widget.ts:82-105 | the rebuilt lists write exactly the marked cells of known actions |
| PermEditor.NormalKeepsLayer | src/assets/ts/perm-widget.ts:57-105 | normalising a layer changes nothing it says, for any action, database and collection |
| PermEditor.EditKeepsAllows | src/perms.rs:134-153 | no client's permission changes when the editor rewrites an app's or a name's rules |
| PermEditor.NormalTwice | src/assets/ts/perm-widget.ts:57-105 | normalising again gives the same rules, each once |
| PermIdempotence.TableAgain | src/assets/ts/perm-widget.ts:57-105 | the table read from a table's own rules is its allow part with its deny part merged in, in order |
| PermIdempotence.AgainIff | src/assets/ts/perm-widget.ts:57-105 | rules to table to rules returns the allow list, and the deny list if and only if what is also allowed came first |
| PermIdempotence.NormalAgainIff | src/assets/ts/perm-widget.ts:57-105 | normalising twice is normalising once exactly under that condition on the table, and is idempotent from the second time on |
| PermIdempotence.SecondTimeSwaps | src/assets/ts/perm-widget.ts:57-105 | two concrete rule lists whose deny rules change places the second time |
| Config.SanitizeFixedIff | src/config.rs:387-413 | sanitizing puts every field in range and leaves exactly the configurations in range alone |
| Config.SanitizeNearestIff | src/config.rs:387-413 | the sanitized configuration is the one whose every field is the nearest value in range |
| ConfigHistory.LiveConfig.Apply | src/config.rs:314-331 | records the flat old state, caps the history, clears redo |
| ConfigHistory.LiveConfig.Undo | src/config.rs:333-356 | moves one step back; an entry that does not decode still changes stacks |
| ConfigHistory.LiveConfig.Redo | src/config.rs:358-378 | moves one step forward, rebuilding the history entry |
| ConfigHistory.LiveConfig.Sanitize | src/config.rs:387-413 | field by field equals the clamped record |
| ConfigHistory.LiveConfig.Change | src/routes_admin.rs:314-326 | applies the current state over itself, then edits it |
| ConfigHistory.LiveConfig.Save | src/routes_admin.rs:567-579 | the submitted configuration is sanitized, then applied |
| ConfigHistory.LiveConfig.Revert | src/routes_admin.rs:624-647 | refused, or back to the sanitized snapshot with the history cut and redo dropped |
| ConfigTimeline.RunSound | src/config.rs:312-378 | over every run snapshots decode and are flat, and history and redo together stay within 10,000 |
| ConfigTimeline.RunFine | src/config.rs:333-413 | over every run version and all settings are in range, in the current configuration and in every snapshot |
| ConfigTimeline.WeightKeepsRange | src/routes_admin.rs:366-389 | an accepted weight keeps all settings in range when snapped to tenths |
| ConfigTimeline.WeightSnaps | src/routes_admin.rs:366-389 | a weight edit sets that app's weight to the nearest tenth and nothing else |
| ConfigTimeline.RunFromDefaults | src/config.rs:110-149 | both hold from the defaults on |
| ConfigTimeline.LoadedFineIff | src/config.rs:280-304 | after loading, every configuration undo can reach is in range if and only if the recorded snapshots are |
| ConfigTimeline.RunRefines | src/config.rs:312-378 | over every run the history is the past and the redo stack the reversed future of a timeline |
| ConfigTimeline.RedoUndoes | src/config.rs:333-378 | redo takes one undo back, up to times |
| ConfigTimeline.UndoRedoes | src/config.rs:333-378 | undo takes one redo back, up to times |
| ConfigTimeline.UndosThenRedos | src/config.rs:333-378 | k undos then k redos restore values, both stacks, snapshots and labels, up to times |
| ConfigTimeline.UndoTakesBack | src/config.rs:312-356 | undoing a save or an edit brings back the values and the history, but for the oldest of 10,000 entries |
| ConfigTimeline.FailedUndo | src/config.rs:333-378 | an undo that cannot decode its entry changes no value, and redoing after it neither |
| ConfigTimeline.RevertIsUndoIff | src/routes_admin.rs:624-647 | reverting at i equals i + 1 undos with redo dropped if and only if the snapshot is in range |
| ConfigTimeline.RevertIsUndo | src/routes_admin.rs:624-647 | from the defaults on every run: reverting at i equals i + 1 undos with redo dropped |
| ConfigDisk.RoundTripIff | src/config.rs:171-205 | a saved file loads back as what was saved if and only if it has the current version |
| ConfigDisk.PrefixRefused | src/config.rs:182-192 | every strict prefix of a saved file is refused |
| ConfigDisk.ConfigStore.RotateBackups | src/config.rs:234-255 | removal, renames and the copy pass only through the listed states |
| ConfigDisk.ConfigStore.SaveToDisk | src/config.rs:259-277 | so does the whole save, partial writes included, and it ends in the finished state |
| ConfigDisk.ConfigStore.LoadFromDisk | src/config.rs:280-304 | loads what `Load` finds (characterised by the three rows below), else the defaults, which are saved |
| ConfigLoad.LoadsCurrent | src/config.rs:280-304 | a complete current file is loaded, sanitized |
| ConfigLoad.LoadsNewestBackup | src/config.rs:211-221 | without one, the newest complete backup |
| ConfigLoad.LoadsNothingIff | src/config.rs:280-304 | nothing is loaded if and only if no file is complete |
| ConfigLoad.DamageLoadsOlderSave | src/config.rs:211-304 | after n saves of which the newest j files are damaged, save n - j is loaded |
| ConfigLoad.LoadsIff | src/config.rs:179-205 | exactly the files with the magic, a whole payload, its checksum, a decodable record and the current version load |
| ConfigLoad.DamageRefused | src/config.rs:192-197 | a payload is refused for its checksum exactly when that differs from the header's |
| ConfigDisk.SavedFiles | src/config.rs:234-277 | after a save the old file is the newest backup and every backup is one place up |
| ConfigDisk.BackupsHoldSaves | src/config.rs:234-277 | after n saves backup i holds save n - i |
| ConfigDisk.CrashRunsExist | src/config.rs:160-169 | whatever configurations are saved, some codec meets what CrashSafe asks |
| ConfigDisk.CrashSafe | src/config.rs:259-304 | however many saves stop at whatever points, loading returns the last configuration whose save finished |
| ConfigDisk.BackupAlwaysIff | src/config.rs:234-255 | a complete backup exists at every point if and only if one other than the oldest exists before |
| ConfigDisk.PartialCopyRefused | src/config.rs:252-254 | a backup copy cut short never loads |
| Medians.Median | src/metrics.rs:26-37 | sorts a permutation of the ring and takes its middle, or the mean of the two middle values |
| Medians.MedianIsMiddle | src/metrics.rs:26-37 | the median is the middle of the one ascending order of the values, half way between two for an even number, 0 of none |
| Medians.MedianMonotone | src/metrics.rs:26-37 | raising latencies never lowers the median |
| Limiter.MetricsLoop.Tick | src/metrics.rs:325-402 | one pass over the clients, apps only |
| Limiter.NextLimit | src/metrics.rs:368-400 | one app's step, from its previous limit, latency and pressure, with limits inside the configured bounds |
| Limiter.NextInside | src/metrics.rs:378-394 | a tick brings internal and enforced limits between the configured bounds |
| Limiter.RunInside | src/metrics.rs:310-402 | over every run of ticks, with configurations that may change, limits stay within 1..10,000 |
| Limiter.PagesMakeProgress | src/routes_q.rs:211-223 | so every accepted page request asks for at least one document |
| Limiter.NextAntitone | src/metrics.rs:368-394 | higher latency, CPU or memory use never gives a higher limit |
| Limiter.SlowerIsNoHigher | src/metrics.rs:338-394 | from the latencies of the ring on, slower requests never give a higher limit |
| LimiterReadings.LoadOf | src/metrics.rs:326-372 | the load is the latency overshoot in targets and the larger of CPU above 60% and memory above 70%, in units of what is left, each times its own sensitivity |
| LimiterReadings.CalmIff | src/metrics.rs:326-372 | it is zero exactly when no reading the app is sensitive to is over its threshold |
| LimiterReadings.TickOf | src/metrics.rs:368-382 | from the readings: a new app starts at the maximum, the limit grows when calm, else is divided by one plus the load, between the bounds |
| LimiterReadings.OwnStep | src/metrics.rs:338-400 | a visited app is moved by its own limit and its own latencies |
| LimiterReadings.OthersStay | src/metrics.rs:365-368 | no other limit moves, and names never get one |
| LimiterReadings.UnseenGetsMaximum | src/routes_q.rs:211-223 | an app that was never visited gets the configured maximum |
| Limiter.RunNoHigher | src/metrics.rs:310-402 | over whole runs, a history with higher latencies, CPU and memory use at every tick never ends in a higher limit for any app |
| Limiter.EnforcedIsNearest | src/metrics.rs:383-394 | between the bounds the enforced limit is the integer nearest to internal limit times multiplier times the app's weight, 1 unless one is set |
| Limiter.CalmReaches | src/metrics.rs:378-382 | n calm ticks give x g^n capped at the maximum, with the tick bound that reaches it |
| Limiter.OverloadReaches | src/metrics.rs:378-382 | n overloaded ticks give x / (1 + load)^n floored at the minimum, with the tick bound that reaches it |
| Limiter.RecoversIff | src/metrics.rs:378-382 | calm ever reaches the maximum if and only if growth exceeds 1 or it is there already |
| Limiter.OverloadEnds | src/metrics.rs:378-382 | overload always reaches the minimum |
| RpsArchive.Tier.Push | src/assets/ts/rps-archive.ts:116-134 | one sample into a tier: same bucket, or close, open and cut |
| RpsArchive.PushSample | src/assets/ts/rps-archive.ts:110-136 | every tier gets the sample with its own width and retention |
| RpsArchive.StreamIsBatch | src/assets/ts/rps-archive.ts:110-136 | streaming equals grouping by floor(t / res): means of closed groups, strictly increasing, exactly the retained ones |
| RpsArchive.StreamBounded | src/assets/ts/rps-archive.ts:129-132 | a tier never holds more than keep / res closed buckets |
| RpsWindow.TierFor | src/assets/ts/rps-archive.ts:142-143 | the finest tier whose retention covers the window, else the coarsest |
| RpsWindow.WindowPoints | src/assets/ts/rps-archive.ts:148-154 | the buckets that end inside the window, then the open one |
| RpsWindow.ShownIff | src/assets/ts/rps-archive.ts:148-152 | a closed bucket is shown, at its middle, exactly when it ends after the window begins |
| RpsWindow.WindowIff | src/assets/ts/rps-archive.ts:148-154 | a window of ordered samples shows those buckets and the open one, nothing else |
| RpsWindow.BinIsNear | src/assets/ts/rps-archive.ts:189-196 | a time in the window lies within half a width of its bin's center |
| RpsWindow.Rebin | src/assets/ts/rps-archive.ts:182-201 | accumulating in an array of bins gives one mean per bin that holds points |
| RpsWindow.BinsExact | src/assets/ts/rps-archive.ts:191-200 | the output is exactly one point per bin that holds any, at its center, whose value times their number is their sum |
| RpsWindow.BinsConserve | src/assets/ts/rps-archive.ts:191-197 | every point is in exactly one bin: sums and counts add up to the input's |
| RpsWindow.RebinnedShape | src/assets/ts/rps-archive.ts:182-201 | times stay increasing, at most `target` points, and some whenever there were any |
| RpsWindow.WindowShape | src/assets/ts/rps-archive.ts:141-158 | a window of a tier filled in time order has at most 300 increasing points, and some if the tier has any |

## Left out

- HTTP routing, authentication, sessions, throttles, TLS, file watching, system sampling and driver calls.
- Writes to MongoDB, indexes, `/ls` paging and the listing filters of `src/perms.rs:157-219`.
- Parsing of filters and sorts; a user filter is any predicate, a sort any list of distinct fields.
- Array, regular-expression and `$`-keyed sub-document sort values and dotted sort fields: preconditions of the walk, as the code refuses them or cannot represent them in a cursor.
- The cursor registry and its expiry; cursor text and canonical extended JSON are taken to return their values unchanged.
- Base64, CRC-32, bincode, decimal and date texts: parameters with inverse laws; what the driver writes for a DbPointer is a parameter without laws.
- Rounding and the sign of zero: doubles are reals with NaN and infinities, the limiter and bucket means use reals.
- NaN settings: a NaN survives clamping in the code, the model's settings are real numbers.
- I/O errors other than a crash: renames, writes and reads succeed or the process stops; power loss that reorders writes is not modelled.
- Concurrent dashboard edits: each handler is one atomic step.
- The request-rate average of a tick, which no limit depends on, and how the latency ring is filled.
- Levels, identities and facet lists of log entries, and UTF-8 decoding: entries are bytes with a number.
- ConfigDisk.RoundTripIff: for configurations whose encoding decodes and stays under 4 GiB, because the length field of the format has 32 bits; so for the prefixes and the crash runs.
- LogSink.LogFileSink.Read: for at most 2^64 - 1 retained lines, because `limit` 0 asks for that many.
- Surrogate pairs: the server counts characters, the dashboard's patterns count UTF-16 units.
- Saving and expiry of archive series in browser storage; `sample` only forwards to `pushSample`.
