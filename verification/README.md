# Models of the SQL editor and its gateway

This project models the algorithmic core of a native SQL editor and of the
HTTPS gateway it talks to, and proves what those parts are for. It stands alone:
`dafny verify dfyconfig.toml` checks all of it.

Each source area has its own files. A specification module holds the data model,
functions and theorems; where the source updates things in place, a second
module holds the classes and loops as written, proved against the
specification.

- **Editing a result in place** (`SelectParse`, `QuerySyntax`, `ColumnMap`,
  `EditBuffer`, `CellActions`, `Statements`, `Apply`, `Guard`, `Success`, `Editing`,
  `StatementText`, `StatementReader`, `Preview`): from the tokens of a query to the
  table it reads, from result columns to table columns, the buffer of pending edits
  and every action on it, the statements generated from it and their text, what
  running them in one transaction does to a table, and what the review dialog shows.
  The chain of theorems: exactly the simple SELECTs can be edited, and each is read
  back exactly; each result column is tied to the table column its values come from;
  editing starts exactly when the whole primary key is there once; each action
  reaches exactly the rows and cells shown where it is done, and every sequence of
  actions leaves a normal buffer; the text of every statement names the table of the
  query and reads back as the statement meant; the statements succeed exactly if
  every row fits when its turn comes; and then the table is exactly the edited one,
  even when updates change keys. `EditingIsFaithful`, `StatementsNameTheTable` and
  `ApplyEdits` join them.
- **The event stream** (`Ndjson`, `Results`, `RunMessages`, `Sorting`, `ViewOrder`,
  `Tsv`, `RowLines`): an incremental line decoder refines one split on newlines for
  every chunking; the run it feeds shows exactly the rows sent and tells every
  failure; its sorted view is a stable sorted permutation with the values going up;
  and an exported selection reads back as its cells.
- **Sessions and tabs** (`RunSql`, `Tabs`, `Transactions`): the retry protocol
  against a service that may drop sessions at any moment, the window whose runs
  see only their own messages, and both together with the messages on their way.
- **The gateway** (`Restart`, `Audit`): restart requests, the mailbox with its
  permit and the control loop as interleaved steps, and keyset paging over a log
  that grows between the calls.
- **Text** (`Find`, `DropStatement`, `Texts`): search and replace on byte
  offsets, and dropping a statement into a script.

## What the code does not do

Some statements one would expect are false of the code. Each is kept as the code
has it, with the condition under which it does hold and, where that is not plain
from the condition, a concrete input.

- A decoded stream depends on its chunking if a line outgrows the cap and a chunk
  ends inside it (`ChunkingInvariance`, `EveryChunkingAgreesIffLinesFit`).
- Sorting text that mixes numbers and words, or floats with integers too large
  for them, is no order (`MixedTextIsNotOrdered`, `TotalPreorderIffNoClash`).
- Of a table name with three or more parts the first two are taken
  (`LongTableNames`), and doubled quotes in a quoted name are kept doubled
  (`QuotedNameComesBackIff`).
- Set NULL or Set DEFAULT on a selection that outlived a removed new row indexes
  out of range, and so does F2 (`StaleSelectionStops`, `StaleFocusStops`,
  `ActsIffInRange`).
- A sort between opening the inline editor and committing its text sends the text
  to another row; within one frame the grid sorts (crates/sqail-ui/src/grid.rs:1151-1156)
  before it commits (crates/sqail-ui/src/grid.rs:1189-1199) (`CommitAfterSortIff`).
- Sorting a column whose comparator is no order may stop the program:
  `slice::sort_by` may panic then (crates/sqail-ui/src/results.rs:344; the
  workspace needs Rust 1.95). Without a clash the comparator is an order
  (`TotalPreorderIffNoClash`).
- A NULL in a primary key, which some databases allow, is matched as the text
  "NULL": the statement for a row finds it exactly if its key has no NULL, and
  otherwise may hit the row whose key reads as that text (`OwnRowFoundIff`,
  `FindsIffReadsAs`, `NullKeyHitsAnother`).
- Edits whose outcome is a proper table can be refused, because the statements run
  one by one: an update that takes a key another row gives up later fails
  (`StatementsSucceedIff`, `SwapIsRefused`).
- The edits of a result go to the connection its tab has when they are reviewed, and
  so does the look-up of the table's columns when editing starts
  (crates/sqail-ui/src/app.rs:1123-1138): choosing another connection in between
  sends them to another database (`EditsGoWhereReadIff`, `EditsCanGoElsewhere`).
- The review dialog substitutes into values that read like a placeholder with a
  lower number (`ValueIsReread`, `DialogShowsStatement`).
- The guard against vanished rows fails exactly when a row updated earlier takes
  the vanished key (`GuardHoldsIff`, `VanishedRowStopsApply`,
  `ChangedKeyFoolsGuard`).
- A manual-commit tab can run SQL outside any transaction: when the session of its
  open transaction expires (`ExpiredTransactionIsLost`), and after a run failed in
  transport, or the tab changed or lost its connection, because the tab drops the session
  but keeps believing in the transaction (`FailureLosesTransaction`,
  `StrandedIff`, `RunIsTransactionalIff`). The switch for it promises
  a transaction that stays open until commit or rollback
  (crates/sqail-ui/src/app.rs:2089-2090); the model follows the code.
- Closing a tab to the left of the active one can bring another tab to the front
  (`ClosingKeepsActiveIff`).

## Model

| member | source | states |
|---|---|---|
| NdjsonSpec.ChunkingInvariance | crates/sqail-client/src/lib.rs:592-646 | for every parser and every list of chunks, pushing the chunks and finishing yields what one split on newlines yields if and only if no chunk ends inside a line already past the cap |
| NdjsonSpec.EveryChunkingAgreesIffLinesFit | crates/sqail-client/src/lib.rs:592-646 | a body decodes the same under all chunkings exactly when every line of it fits the cap |
| NdjsonSpec.EventsRoundTrip | crates/sqail-client/src/lib.rs:592-646 | events written one per line whose lines fit the cap come back unchanged and in order for every chunking, given that a JSON text has no raw newline (RFC 8259, section 7) and parses back |
| NdjsonSpec.SplitIsExact | crates/sqail-client/src/lib.rs:603-613 | the reference split loses no byte and leaves no newline inside a line |
| NdjsonSpec.SplitIsUnique | crates/sqail-client/src/lib.rs:603-613 | ... and is the only cut of a body that does |
| NdjsonSpec.SplitContinues | crates/sqail-client/src/lib.rs:601-613 | splitting may stop after any prefix and go on from the unfinished line |
| NdjsonSpec.UnbrokenYields | crates/sqail-client/src/lib.rs:648-681 | a body that ends properly yields what its chunks decode to |
| NdjsonSpec.BrokenYields | crates/sqail-client/src/lib.rs:648-681 | a body that breaks yields every complete line before the break and then one error; the partial line is dropped |
| NdjsonSpec.LineCounts | crates/sqail-client/src/lib.rs:637-646 | what each line of a body stands for, whatever stands around it: nothing if it is blank or newer than this build, its event, or an error if it cannot be read; the output of all other lines stays the same |
| NdjsonSpec.SkippedLinesChangeNothing | crates/sqail-client/src/lib.rs:592-646 | inserting a blank line or a newer event anywhere into a body whose lines fit the cap changes nothing, however both are chunked |
| Ndjson.NdjsonDecoder.Position | crates/sqail-client/src/lib.rs:601-608 | the search resumes at `scanned`, finds the first newline, and the bytes it looks at are counted |
| Ndjson.NdjsonDecoder.NextLine | crates/sqail-client/src/lib.rs:601-613 | cuts off exactly the first complete line; no byte is counted twice |
| Ndjson.NdjsonDecoder.Push | crates/sqail-client/src/lib.rs:601-627 | output and new buffer are the reference ones; afterwards `scanned` is the buffer length, at most `MAX_LINE`, the buffer holds no newline, and over the whole life bytes examined equal bytes pushed |
| Ndjson.NdjsonDecoder.Finish | crates/sqail-client/src/lib.rs:630-635 | decodes a last line without newline and empties the buffer |
| Ndjson.EventStream.Fetch | crates/sqail-client/src/lib.rs:648-681 | taking one chunk (or the end, or the break) into the queue never changes what the stream will still yield |
| Ndjson.EventStream.Next | crates/sqail-client/src/lib.rs:648-681 | items come out one by one, none lost, none invented, and `None` means nothing is left |
| FindSpec.GreedyIsLeftmostGreedy | crates/sqail-ui/src/find.rs:33-59 | the list of matches is ordered, non-overlapping, all of them match, and no match starts in a gap |
| FindSpec.LeftmostGreedyIsUnique | crates/sqail-ui/src/find.rs:33-59 | ... and that description admits one list only |
| FindSpec.OffsetOrder | crates/sqail-ui/src/find.rs:17-31 | byte offsets of characters are ordered like the characters, whatever the UTF-8 widths |
| FindSpec.RebuiltLength | crates/sqail-ui/src/find.rs:93-105 | rebuilding from gaps and replacements changes the length by the same amount per match |
| FindSpec.RebuiltIdentity | crates/sqail-ui/src/find.rs:93-105 | replacing each match by its own text rebuilds the text |
| Find.MatchAt | crates/sqail-ui/src/find.rs:17-31 | a byte position that is no character boundary is no match; otherwise the end is found exactly when the query matches there, with or without case |
| Find.IsMatch | crates/sqail-ui/src/find.rs:62-68 | true exactly for the byte range of a match |
| Find.FindFrom | crates/sqail-ui/src/find.rs:33-59 | the exact-case fast path finds the leftmost occurrence |
| Find.Matches.Advance | crates/sqail-ui/src/find.rs:33-59 | fast path and character scan move to the same next match of the list |
| Find.Matches.Next | crates/sqail-ui/src/find.rs:33-59 | the iterator hands out exactly the leftmost-greedy matches as byte ranges |
| Find.RangesInOrder | crates/sqail-ui/src/find.rs:33-59 | the byte ranges are non-empty, ordered and do not overlap |
| Find.FindForwards | crates/sqail-ui/src/find.rs:71-91 | the first match from a position, wrapping to the first of all |
| Find.FindBackwards | crates/sqail-ui/src/find.rs:71-91 | the last match before a position, wrapping to the last of all |
| Find.FindNext | crates/sqail-ui/src/find.rs:71-91 | next or previous match with wrap-around; nothing only if there is no match at all |
| Find.ReplaceAll | crates/sqail-ui/src/find.rs:93-105 | the result is the gaps with the replacement between them, and the count is the number of matches |
| Find.ReplacedLength | crates/sqail-ui/src/find.rs:93-105 | length of the result for every text, query and replacement |
| Find.ReplaceByItselfIsIdentity | crates/sqail-ui/src/find.rs:93-105 | replacing an exact-case query by itself is the identity |
| SortKeys.TotalPreorderIffNoClash | crates/sqail-ui/src/results.rs:104-130 | the comparator is a total preorder on a column exactly when no float is the rounding of two different integers in it and no word falls between two numeric texts against their numeric order |
| SortKeys.OneKindIsOrdered | crates/sqail-ui/src/results.rs:104-130 | a column of one kind (plus NULLs) is always ordered, NULL least |
| SortKeys.MixedTextIsNotOrdered | crates/sqail-ui/src/results.rs:116-117 | "9", "10", "1a" form a cycle |
| StableSort.SortIsStableSort | crates/sqail-ui/src/results.rs:334-351 | on a preorder the result is sorted and equal keys keep their order |
| StableSort.SortIsPermutation | crates/sqail-ui/src/results.rs:334-351 | if the sort comes to an end, every row appears exactly once, whatever the comparator does |
| StableSort.StableSortIsUnique | crates/sqail-ui/src/results.rs:334-351 | on a preorder there is only one stable sort, so the library algorithm does not matter there |
| StableSort.SortedViewIsStable | crates/sqail-ui/src/results.rs:334-351 | on a column without clashes the view is the stable sorted permutation, ascending and descending alike |
| ViewOrder.CompareMeans | crates/sqail-ui/src/results.rs:104-130 | the comparator is the order of the cell values: NULL first, false before true, numbers and floats by size, numeric text by its number, other text by its first difference |
| ViewOrder.ViewGoesUp | crates/sqail-ui/src/results.rs:334-351 | the sorted view of a column without clashes shows every row once with its values never decreasing, or never increasing when descending, and equal ones as they arrived |
| ViewOrder.OneKindGoesUp | crates/sqail-ui/src/results.rs:334-351 | ... and so for every column of booleans, integers, floats, numeric text or other text, with NULLs |
| ResultSpec.EveryRunShowsWhatWasSent | crates/sqail-ui/src/results.rs:549-630 | over every event stream in the documented order, mixed with sorting clicks on complete results and with a break at any point: each result shows exactly the sent rows padded or cut to width; when the stream is over nothing is running, everything is complete and no row is missing |
| ResultSpec.StepKeepsInvariant | crates/sqail-ui/src/results.rs:549-630 | the invariant behind it, for every event, break and click |
| ResultSpec.InvariantHolds | crates/sqail-proto/src/lib.rs:584-589 | ... and so for every run of the documented order |
| RunMessages.RunTells | crates/sqail-ui/src/results.rs:530-630 | over every documented stream the messages are exactly one line per end of a result, affected-rows count, note, failure, break and end of the stream, in order with its text; the run is marked failed exactly if something failed |
| RunMessages.FailuresAreShown | crates/sqail-ui/src/results.rs:601-605 | the text of every failed statement is among the messages |
| RunMessages.RunReports | crates/sqail-ui/src/results.rs:545-630 | over every documented stream, whatever comes before and after: the run knows the number of its query, each result is marked as cut short exactly as its end said, and the run was cancelled and left a transaction exactly as the end of the stream said |
| RunMessages.PaneInFront | crates/sqail-ui/src/results.rs:545-630 | at any moment the messages are in front if something failed or there is no result, and else the first result |
| RunMessages.CellsAreSent | crates/sqail-ui/src/results.rs:299-306 | each cell shown is the cell sent, or NULL where the row sent was too short |
| ResultSpec.SortingEarlyGoesStale | crates/sqail-ui/src/grid.rs:1151-1156 | without the guard on complete results the sorted view would miss later rows |
| ResultSpec.ThreeTogglesRestore | crates/sqail-ui/src/results.rs:334-351 | three clicks: ascending, descending, back to arrival order |
| ResultSpec.ViewIsStableSort | crates/sqail-ui/src/results.rs:334-351 | the view of a column without clashes is the stable sorted permutation of the rows |
| Results.RawRowsAppend | crates/sqail-ui/src/results.rs:299-317 | appending one row of cells to the flat buffer adds one row and moves none |
| Results.ResultSet.PushRow | crates/sqail-ui/src/results.rs:299-306 | the flat buffer stands for the old rows plus the new one, padded with NULL or cut |
| Results.ResultSet.PushRows | crates/sqail-ui/src/results.rs:568-579 | the same for a batch |
| Results.ResultSet.ToggleSort | crates/sqail-ui/src/results.rs:334-351 | cycles the order and nothing else |
| Results.Run.Fail | crates/sqail-ui/src/results.rs:530-535 | a broken stream: message, failed, everything finished and complete |
| Results.Run.Apply | crates/sqail-ui/src/results.rs:545-630 | every event, in place on the run and its result sets, does what the event means; result sets are only added, and new ones are fresh |
| Results.Run.Follow | crates/sqail-ui/src/results.rs:545-630 | a whole stream with breaks and sorting clicks, fed to the run object, takes it where the specification says every run goes |
| Results.ShowStream | crates/sqail-proto/src/lib.rs:584-589 | so a new run fed with a documented stream shows exactly the rows sent |
| Tsv.ExportReadsBack | crates/sqail-ui/src/results.rs:655-691 | splitting an export on newlines and tabs gives back the matrix of sanitised cells, for every selection with a column |
| Tsv.SelectionIsRectangle | crates/sqail-ui/src/results.rs:665-691 | the selected rows and columns are those from corner to corner that exist, whichever corner was clicked first |
| Tsv.ExportedCellIs | crates/sqail-ui/src/results.rs:665-691 | an exported cell is empty for NULL and else the text on screen with a blank for each tab and line break |
| Tsv.HeaderReadsBack | crates/sqail-ui/src/results.rs:665-691 | the header reads back as the names of the selected columns, the rows after it |
| Tsv.LinesReadBack | crates/sqail-ui/src/results.rs:655-691 | ... because any matrix of cells without tab or newline is read back |
| Tsv.SelectionTsvCapped | crates/sqail-ui/src/results.rs:655-691 | the text is the (header and the) lines of the first `max_rows` selected rows in display order, and the flag says exactly whether more were selected |
| Tsv.ExportRows | crates/sqail-ui/src/results.rs:655-691 | the loop over rows stops exactly at the cap |
| Tsv.PermutationFits | crates/sqail-ui/src/results.rs:324-332 | a sorted view never points outside the rows |
| Audit.PagingIsComplete | crates/sqail-service/src/store.rs:318-342 | for every limit of at least 1 and whatever is appended between the calls, following `next_before` ends and returns each entry of the first call exactly once, newest first |
| Audit.PagesAreWhole | crates/sqail-service/src/store.rs:318-342 | the same from any page on |
| Audit.OlderThanEntry | crates/sqail-service/src/store.rs:318-342 | a page below an entry sees the same entries however the log has grown |
| Audit.Store.Audit | crates/sqail-service/src/store.rs:297-316 | ids grow; a failed write leaves the log alone |
| Audit.Store.AuditList | crates/sqail-service/src/store.rs:318-342 | a page holds the newest `limit` entries with an id below `before`, in descending order; every older entry not on it has a smaller id than all that are, and then the page is full; `next_before` is its last id exactly if it is full |
| RestartSpec.NoLostRestart | crates/sqail-service/src/lib.rs:91-116 | over every interleaving: when the loop waits without a permit and no requester is between its two steps, the last request has been taken; requests are handled in order, each at most once |
| RestartSpec.RestartIsSafe | crates/sqail-service/src/lib.rs:128-188 | over every interleaving: at most one server and one bootstrap token; while the loop waits the server runs the settings in use; every file written belongs to an Apply whose settings had started |
| RestartSpec.RestartsComplete | crates/sqail-service/src/lib.rs:128-188 | once requesters are done, the loop comes to rest within 18 steps, having exited or taken the last request |
| RestartSpec.NeverStuck | crates/sqail-service/src/lib.rs:128-188 | the loop can always go on unless it has exited or waits for nothing |
| RestartSpec.QuietRunsEnd | crates/sqail-service/src/lib.rs:140-188 | between requests the loop takes boundedly many steps |
| RestartSpec.FailedStartFallsBack | crates/sqail-service/src/lib.rs:173-183 | after a failed start, whatever requesters do meanwhile, settings are the old ones and the error is recorded until the loop wakes again |
| RestartSpec.ReloadTakesEffect | crates/sqail-service/src/lib.rs:149-172 | a reload that reads its file and starts ends with the settings of that file in use and nothing saved |
| RestartSpec.ApplyTakesEffect | crates/sqail-service/src/lib.rs:149-172 | an Apply that starts ends with its settings in use and its file written, unless that fails |
| RestartSpec.ErrorRecordedIff | crates/sqail-service/src/lib.rs:149-183 | exactly which steps record an error and which clear it |
| RestartSpec.TokensComeFromTheFirstStart | crates/sqail-service/src/lib.rs:202-220 | a token can only come from the very first start |
| RestartSpec.InvariantKept | crates/sqail-service/src/lib.rs:91-188 | the inductive invariant: permits, mailbox, history, server, token and saved files, for every step |
| RestartSpec.InvariantHolds | crates/sqail-service/src/lib.rs:91-188 | ... and so for every run |
| Restarting.Service.StoreRequest | crates/sqail-service/src/lib.rs:93-95 | storing replaces the pending request; the permit comes later |
| Restarting.Service.NotifyOne | crates/sqail-service/src/lib.rs:96-97 | stores the permit |
| Restarting.Service.TakeRequest | crates/sqail-service/src/lib.rs:110-116 | returns the pending request and empties the slot |
| Restarting.Service.Resolve | crates/sqail-service/src/lib.rs:149-160 | a reload that cannot be read goes back to waiting; an Apply brings a file to save |
| Restarting.Service.StartNew | crates/sqail-service/src/lib.rs:165-172 | success leads to saving if there is a file, failure to the previous settings with the error recorded |
| Restarting.Service.Swap | crates/sqail-service/src/lib.rs:165-183 | settings in use change only when the new ones started |
| Restarting.Service.BootServer | crates/sqail-service/src/lib.rs:134-139 | after the first start the settings can never create a token again |
| Restarting.Service.Run | crates/sqail-service/src/lib.rs:128-188 | the loop as written, with requesters cutting in at every await, is a run of the step machine, so all of the above holds of it |
| RunSqlSpec.SqlRunsAtMostOnce | crates/sqail-ui/src/app.rs:597-665 | for every behaviour of the service, sessions dropped at any moment included: the SQL runs at most once, in one or two attempts |
| RunSqlSpec.SqlFollowsBegin | crates/sqail-ui/src/app.rs:620-641 | in a manual-commit tab without an open transaction, the SQL runs only directly after a BEGIN that succeeded on the same session |
| RunSqlSpec.OpenTransactionIsKeptIffSessionLives | crates/sqail-ui/src/app.rs:578-668 | going on in an open transaction: the SQL is in it exactly if the first request does not find the session gone |
| RunSqlSpec.ExpiredTransactionIsLost | crates/sqail-ui/src/app.rs:578-663 | a concrete run in which the SQL of a manual-commit tab runs outside any transaction |
| RunSqlSpec.NewSessionHasNoTransaction | crates/sqail-ui/src/app.rs:588-618 | without BEGIN and without a session the SQL is never in a transaction |
| RunSqlSpec.RetriedIff | crates/sqail-ui/src/app.rs:620-663 | a run tries again exactly if the session is reported gone, as not found or as lost, to BEGIN or to the SQL |
| RunSqlSpec.DeadSessionIsReplaced | crates/sqail-ui/src/app.rs:597-663 | a run on a dead session goes on with a second attempt on a new session, or fails with nothing run if none can be opened |
| RunSqlSpec.SqlRunsWhereItShould | crates/sqail-ui/src/app.rs:597-663 | the SQL runs on the session given unless that is reported gone, and else on a new one |
| RunSqlSpec.NoBeginUnasked | crates/sqail-ui/src/app.rs:620-641 | BEGIN is sent only when asked for |
| RunSqlTask.Task.OnSession | crates/sqail-ui/src/app.rs:619-664 | BEGIN and SQL on one session; asks for a retry exactly when the guard of the retry arms holds |
| RunSqlTask.Task.Run | crates/sqail-ui/src/app.rs:597-667 | the loop of at most two attempts does what the specification of a run says |
| TabSpec.RunsSeeOnlyTheirOwn | crates/sqail-ui/src/app.rs:850-877 | whatever is done to tabs and whatever other tasks send, in any order: a shown run is exactly what its own messages make of it, and a run once gone never comes back |
| TabSpec.ShownRunsShowWhatWasSent | crates/sqail-ui/src/app.rs:585-600 | from the click on: if the task keeps the documented order, the grid shows the rows sent so far, whatever else goes on in the window |
| TabSpec.ActionTouches | crates/sqail-ui/src/app.rs:503-547 | what each action does to each open tab: all actions but one change the tab they are for and no other, and only a new list of connections may touch every tab; closed tabs stay closed |
| TabSpec.DoIsValid | crates/sqail-ui/src/app.rs:503-547 | tab ids stay unique, run ids are never reused, pinned tabs stay first, the active index stays inside |
| TabSpec.ClosingKeepsActiveIff | crates/sqail-ui/src/app.rs:532-547 | closing another tab keeps the active tab in front exactly if that tab is to its right or the active one is the last |
| TabSpec.ClosingLastTab | crates/sqail-ui/src/app.rs:532-547 | closing the only tab opens a fresh one on the same connection |
| TabSpec.NewTabInherits | crates/sqail-ui/src/app.rs:503-512 | a new tab comes last and in front, on the connection asked for or else on that of the tab in front before |
| TabSpec.RunStartsIff | crates/sqail-ui/src/app.rs:557-600 | a run starts exactly in a tab with a connection, no run going on and more than white space to run; the tab shows it and its task works on the connection of the tab |
| TabSpec.AutocommitBeginsNothing | crates/sqail-ui/src/app.rs:578-588 | no transaction is begun for a run of an auto-commit tab |
| TabSpec.PinningMovesOne | crates/sqail-ui/src/app.rs:387-399 | pinning moves one tab to the border of the pinned ones; the others keep their order and the active tab stays in front |
| TabSpec.StrandedIff | crates/sqail-ui/src/app.rs:722-745 | exactly which messages and actions leave a tab believing in an open transaction whose session it has lost: a failed run, a session on another connection, an end in a transaction without a session, another connection, or the removal of its connection |
| TabSpec.ManualRunIsTransactionalIff | crates/sqail-ui/src/app.rs:578-588 | SQL of a manual-commit tab is in a transaction exactly if the tab believed in none, or its session is known and not found gone |
| TabSpec.EditsGoWhereReadIff | crates/sqail-ui/src/app.rs:1155-1175 | for a run started in any window and everything that happens afterwards: as long as the tab shows the run, its edits are sent to the connection it was read from if and only if the connection the tab was given last is still that one |
| TabSpec.ConnectionIsLastBinding | crates/sqail-ui/src/app.rs:2040-2067 | only the picker, a new list of connections and a saved connection give a tab its connection; it is the last one given |
| TabSpec.SessionIsLastOpened | crates/sqail-ui/src/app.rs:2040-2067 | over everything that can happen in a window: the session of a tab is the one opened for it last, unless a run failed in transport or another connection was chosen since; choosing the old connection again does not bring it back |
| TabSpec.EditsCanGoElsewhere | crates/sqail-ui/src/app.rs:1155-1175 | concrete: read on one connection, choose another, and the edits go there |
| TransactionSpec.MarkIsTrue | crates/sqail-ui/src/app.rs:841-877 | over every interleaving of the window, the task of a tab, the messages on their way and the service, from the opening of the tab on: while no run is going on in it, a tab marked as in a transaction whose session lives has that transaction open |
| TransactionSpec.StepKeeps | crates/sqail-ui/src/app.rs:557-668 | the invariant behind it, for every step, sessions dropped at any moment and late failures of older runs included |
| TransactionSpec.RunIsTransactionalIff | crates/sqail-ui/src/app.rs:578-588 | so, with nothing assumed of the service, SQL of a manual-commit tab is in a transaction exactly if the tab is not marked, or its session is known and not found gone |
| TransactionSpec.RunIsSteps | crates/sqail-ui/src/app.rs:597-668 | whatever the service does, a run as the task performs it is made of steps of that machine |
| TransactionSpec.MarkIsWrongWhileRunning | crates/sqail-ui/src/app.rs:841-849 | concrete: while a run is going on the mark can be wrong |
| TabSpec.FailureLosesTransaction | crates/sqail-ui/src/app.rs:867-877 | for every connection, session, SQL and error: open a transaction, let a run fail in transport, run again: no BEGIN and no session |
| Tabs.Window.NewTab | crates/sqail-ui/src/app.rs:503-512 | appended, active, inherits the active connection |
| Tabs.Window.CloseTab | crates/sqail-ui/src/app.rs:532-547 | removes one tab, and opens a fresh one if it was the last |
| Tabs.Window.SetPinned | crates/sqail-ui/src/app.rs:389-399 | remove, count, insert, find the active tab again: the specified move |
| Tabs.Window.TabIndex | crates/sqail-ui/src/app.rs:383-385 | the first tab with an id |
| Tabs.Window.RunSql | crates/sqail-ui/src/app.rs:557-600 | refuses or shows a fresh run and starts a task with the usable session and BEGIN as needed |
| Tabs.Window.Connections | crates/sqail-ui/src/app.rs:722-740 | tabs lose connections that are gone; if none has one left the active tab gets the first |
| Tabs.Window.Handle | crates/sqail-ui/src/app.rs:841-877 | a message is delivered to its tab and run, or dropped |
| RowHeights.SomeTallIff | crates/sqail-ui/src/results.rs:232-234 | the counter is positive exactly if some row is taller than one line |
| RowHeights.RowLines.Set | crates/sqail-ui/src/results.rs:219-229 | sets one row, changes no other, keeps the counter exact, and reports exactly whether the height changed |
| RowHeights.RowLines.AnyTall | crates/sqail-ui/src/results.rs:232-234 | answers from the counter what a scan would find |
| RowHeights.RowLines.InvalidateUnless | crates/sqail-ui/src/results.rs:238-246 | other widths drop all measurements, the same widths none |
| SelectSyntax.SelectRoundTrip | crates/sqail-ui/src/editing.rs:36-224 | every simple SELECT (ALL or TOP forms, stars, dotted columns, other expressions with nested parentheses, one- or two-part table, alias, tail) is read back as its schema, table and item list |
| QuerySyntax.EditableQueryIff | crates/sqail-ui/src/editing.rs:36-105 | of all query syntax trees, with joins, several tables, DISTINCT, INTO, grouping, windows, subqueries and set operations anywhere, key words in any case: a query is read as one table if and only if it has none of these; then its table and items are read as written |
| QuerySyntax.ComplicatedIsRefused | crates/sqail-ui/src/editing.rs:54-70 | every query with one of these is refused, whatever else is in it |
| QuerySyntax.SecondTableIsRefused | crates/sqail-ui/src/editing.rs:86-99 | a comma after the first table means several tables and is refused, whatever stands behind it |
| QuerySyntax.OnlySelects | crates/sqail-ui/src/editing.rs:45-47 | anything that does not begin with SELECT is refused |
| QuerySyntax.NoNameIsRefused | crates/sqail-ui/src/editing.rs:71-85 | so is a query without a name right after FROM, or after the dot there |
| QuerySyntax.OneTokenItem | crates/sqail-ui/src/editing.rs:162-218 | a single word or quoted name in a select list is a column, but for the words that are values; no other single token but the star means one |
| SelectSyntax.LongTableNames | crates/sqail-ui/src/editing.rs:80-87 | for a table name of any length, the intended table is found exactly if the name has two parts or its first two parts repeat as its last two |
| SelectSyntax.QueryIsRead | crates/sqail-ui/src/editing.rs:36-105 | what is read for any of them |
| SelectSyntax.QuotedNameComesBackIff | crates/sqail-ui/src/editing.rs:214-224 | quotes inside a quoted name are not undoubled: it comes back exactly if it holds no closing quote |
| SelectSyntax.ClassifyItem | crates/sqail-ui/src/editing.rs:171-212 | each written item is classified as what it means |
| SelectSyntax.ItemsSplit | crates/sqail-ui/src/editing.rs:149-167 | the list is cut at its own commas only |
| SelectSyntax.PrefixSkipped | crates/sqail-ui/src/editing.rs:112-148 | ALL, TOP n, TOP (..), PERCENT and WITH TIES are skipped exactly |
| SelectSyntax.FromIsFound | crates/sqail-ui/src/editing.rs:65-73 | the first FROM word is found right behind a select list that holds none |
| SelectParser.SkipGroup | crates/sqail-ui/src/editing.rs:122-136 | skips one parenthesised group |
| SelectParser.SkipPrefix | crates/sqail-ui/src/editing.rs:112-148 | finds the first item |
| SelectParser.ParseItems | crates/sqail-ui/src/editing.rs:112-167 | the splitting loop computes the classified items |
| SelectParser.NoSecondTable | crates/sqail-ui/src/editing.rs:88-102 | the loop looking for a comma stops at the tail |
| SelectParser.ParseSource | crates/sqail-ui/src/editing.rs:36-105 | the whole parser, with all its early refusals |
| ColumnSpec.MappingIsProvenance | crates/sqail-ui/src/editing.rs:228-262 | if column names are distinct up to ASCII case and the result comes from evaluating the select list (an expression may take its values from anywhere), each column of a star or a bare name is mapped to where its values come from, and expressions to nothing |
| Sql.SameNameIff | crates/sqail-ui/src/editing.rs:242-251 | names are taken for the same exactly if they differ in the case of ASCII letters alone |
| ColumnSpec.MappedIffColumn | crates/sqail-ui/src/editing.rs:228-262 | a mapped column is always where the values come from; an entry is empty exactly for expressions and for names the table lacks |
| ColumnSpec.TableOrder | crates/sqail-ui/src/editing.rs:233-234 | the columns a star stands for are all columns of the table by ascending ordinal, equal ordinals as given |
| ColumnSpec.MappedColumnsLineUp | crates/sqail-ui/src/editing.rs:228-262 | whenever a mapping succeeds it has one entry per result column, each with the name shown |
| ColumnSpec.EditableIff | crates/sqail-ui/src/editing.rs:293-352 | editing starts exactly if the result lines up, there is a primary key and each key column occurs exactly once; then no two editable columns write the same table column |
| ColumnSpec.WholeKeyIsFound | crates/sqail-ui/src/editing.rs:307-329 | the whole primary key: editing starts exactly if the result lines up, some column is marked as key and every column so marked occurs exactly once; then the key of the edits has one place for each of them, in their order |
| ColumnSpec.KeyFoundIff | crates/sqail-ui/src/editing.rs:307-329 | the key is located exactly when each of its columns occurs once |
| ColumnSpec.FirstCopiesKeep | crates/sqail-ui/src/editing.rs:330-339 | a column stays editable exactly if it is the first copy |
| ColumnMapper.TakeStar | crates/sqail-ui/src/editing.rs:236-248 | a star takes the columns in table order or refuses |
| ColumnMapper.Map | crates/sqail-ui/src/editing.rs:228-262 | the walk over items and result columns |
| ColumnMapper.Dedupe | crates/sqail-ui/src/editing.rs:330-339 | later copies become read-only |
| ColumnMapper.LocateKey | crates/sqail-ui/src/editing.rs:307-329 | finds the key, or says which column is missing or doubled |
| ColumnMapper.Prepare | crates/sqail-ui/src/editing.rs:293-352 | the constructor, with its refusals in order |
| EditSpec.ActKeepsNormal | crates/sqail-ui/src/grid.rs:1317-1362 | every action keeps the buffer normal: recorded changes are non-empty, on editable columns and different from the original, new rows fill editable columns only |
| EditSpec.ActAll | crates/sqail-ui/src/grid.rs:217-239 | ... and so does every sequence of actions |
| EditSpec.SetCellKeepsNormal | crates/sqail-ui/src/editing.rs:362-378 | setting a cell keeps normal form, so setting the original value back leaves no trace |
| EditSpec.SetCellShows | crates/sqail-ui/src/editing.rs:362-378 | the set cell shows its value, every other cell what it did |
| EditSpec.RemovingIsFiltering | crates/sqail-ui/src/grid.rs:1345-1361 | removing selected new rows highest first is filtering by index |
| CellActions.DeleteMarksShownRows | crates/sqail-ui/src/grid.rs:1319-1361 | after Delete, or the button in a row, a row is marked exactly if it was before or is shown at a selected position, whatever the sort; Delete also drops exactly the selected new rows, the button none; nothing else changes |
| CellActions.RestoreUnmarksShownRows | crates/sqail-ui/src/grid.rs:668-674 | restoring unmarks exactly the rows shown at selected positions |
| CellActions.SettingReachesSelectedCells | crates/sqail-ui/src/grid.rs:1331-1341 | Set NULL and Set DEFAULT reach exactly the selected editable cells of the rows shown there: what every other cell shows, and every mark, stays |
| CellActions.CommitReachesItsCell | crates/sqail-ui/src/grid.rs:1189-1199 | the text of the inline editor goes to the one cell shown where it is open |
| CellActions.EditorOpensIff | crates/sqail-ui/src/grid.rs:1199-1212 | the editor opens exactly on editable cells of new rows and of rows not marked deleted |
| CellActions.NewRowsAndRevert | crates/sqail-ui/src/grid.rs:217-239 | a new row holds defaults only and comes last; reverting forgets everything |
| EditSpec.GridShowsTable | crates/sqail-ui/src/grid.rs:228 | the grid being edited has the cells of the result, in the order of its sorted view |
| EditSpec.ActsIffInRange | crates/sqail-ui/src/grid.rs:1317-1362 | an action goes through exactly if the positions it writes exist |
| EditSpec.StaleSelectionStops | crates/sqail-ui/src/grid.rs:1317-1342 | add two rows, select and delete them, add one again, and set the selection to NULL: it still covers a row that is drawn and one that is not, and the action indexes out of range |
| EditSpec.StaleFocusStops | crates/sqail-ui/src/grid.rs:775-783 | add a row, delete it, and press F2, which opens the focused cell of the selection: out of range |
| EditSpec.SortingKeepsBuffer | crates/sqail-ui/src/grid.rs:1151-1156 | sorting the grid changes neither the buffer nor what it shows for any original row |
| EditSpec.Gestures | crates/sqail-ui/src/grid.rs:1151-1199 | edits and sorts in any order keep the buffer in normal form and the grid the same but for its order |
| EditSpec.CommitAfterSortIff | crates/sqail-ui/src/grid.rs:1151-1199 | a text typed before a sort goes to the row the editor was opened on, for every text, exactly if that row is still shown at the same position |
| EditBuffer.EditState.Set | crates/sqail-ui/src/editing.rs:362-378 | the map updates as written |
| EditBuffer.EditState.PutSelected | crates/sqail-ui/src/grid.rs:1331-1341 | every selected editable cell, row by row |
| EditBuffer.EditState.Delete | crates/sqail-ui/src/grid.rs:1319-1361 | marks original rows, removes new ones |
| EditBuffer.EditState.Commit | crates/sqail-ui/src/grid.rs:1189-1199 | finishes the inline edit on an original or a new row |
| EditBuffer.EditState.Do | crates/sqail-ui/src/grid.rs:217-239 | every user action, or the report that it would index out of range |
| StatementSpec.StatementCount | crates/sqail-ui/src/editing.rs:429-484 | one statement per deleted row, per changed row that stays, and per new row |
| StatementSpec.StatementsNumbered | crates/sqail-ui/src/editing.rs:407-484 | each statement numbers its placeholders 1..m once each in order, has m parameters, and names editable columns only |
| Generator.Key | crates/sqail-ui/src/editing.rs:407-426 | the key clause and its parameters |
| Generator.Assign | crates/sqail-ui/src/editing.rs:440-481 | columns in order with their placeholders and parameters |
| Generator.GenerateUpdates | crates/sqail-ui/src/editing.rs:438-461 | changed rows that are not deleted, in order |
| Generator.Generate | crates/sqail-ui/src/editing.rs:429-484 | deletes, updates, inserts: exactly the specified list |
| TableSpec.EditsAreFaithful | crates/sqail-ui/src/editing.rs:407-484 | on a table with unique keys that still holds the rows to change and delete: if all statements succeed, the final table has exactly the kept rows and one new row per insertion; kept rows have exactly the changed cells replaced, even when updates change keys, rows outside the grid are untouched; if the database stores what it is given, the new rows stand behind all others in order and hold the value of every text typed into them |
| TableSpec.TableHoldsWhatWasShown | crates/sqail-ui/src/editing.rs:407-484 | in the final table every editable cell of every kept row holds the value of the text shown for it |
| TableSpec.KeyHitsItsRow | crates/sqail-ui/src/editing.rs:407-426 | the key clause of a row selects that row alone, whatever earlier statements did |
| TableSpec.DeleteHitsItsRow | crates/sqail-ui/src/editing.rs:433-437 | a DELETE removes its own row and nothing else |
| TableSpec.UpdateHitsItsRow | crates/sqail-ui/src/editing.rs:438-461 | an UPDATE changes exactly the changed cells of its own row |
| TableSpec.InsertGives | crates/sqail-ui/src/editing.rs:462-482 | an INSERT adds one row, made by the database from exactly the values of the filled-in cells |
| TableSpec.NewRowsHold | crates/sqail-ui/src/editing.rs:462-482 | if the database stores what an INSERT gives, each new row holds, in its place behind the old ones, the value of every text typed into it |
| TableSpec.ExtendedKeeps | crates/sqail-ui/src/editing.rs:462-482 | the inserts add one row each after everything there was and change no other row |
| TableSpec.UpdatesDo | crates/sqail-ui/src/editing.rs:438-461 | all updates together, in order |
| TableSpec.StartedGridFits | crates/sqail-ui/src/editing.rs:293-352 | a grid that editing was started on meets the assumptions about keys and columns |
| GuardSpec.GuardHoldsIff | crates/sqail-ui/src/editing.rs:562-568 | exact condition: the update of a row whose key is gone from the table finds no row if and only if no row updated before it takes that key; nothing is assumed of the table, only that no earlier updated row is displayed with the same key |
| GuardSpec.VanishedRowStopsApply | crates/sqail-ui/src/editing.rs:562-568 | if the key of a row to be deleted is gone, nothing is applied; if the key of a row to be updated is gone and no row updated before it takes that key, nothing is applied; for every table and every edit |
| GuardSpec.KeyIsBackIffTaken | crates/sqail-ui/src/editing.rs:438-461 | by the time its update runs, a vanished key is in the table again exactly if a row updated before took it |
| GuardSpec.DeletedRowStops | crates/sqail-ui/src/editing.rs:562-568 | a vanished row to be deleted stops everything, whatever keys change |
| GuardSpec.UntouchedKeysAreGuarded | crates/sqail-ui/src/editing.rs:562-568 | in particular the guard always holds when no key column is changed |
| GuardSpec.ChangedKeyFoolsGuard | crates/sqail-ui/src/editing.rs:562-568 | concrete: a pending key change lets the update for a vanished row hit another row |
| GuardSpec.FindsIffReadsAs | crates/sqail-ui/src/editing.rs:407-426 | on any table, the statement made for a row finds exactly the rows whose key, without a NULL in it, the displayed key cells read as |
| GuardSpec.OwnRowFoundIff | crates/sqail-ui/src/editing.rs:407-426 | the statement made for a row finds that row if and only if no key column of it is NULL |
| GuardSpec.NullKeyHitsAnother | crates/sqail-ui/src/editing.rs:407-426 | concrete: deleting a row with a NULL key deletes another row, and the guard passes |
| SuccessSpec.StatementsSucceedIff | crates/sqail-ui/src/editing.rs:553-577 | where the primary key is the only constraint and the table still holds the rows touched: all statements succeed if and only if every changed row fits (its texts convert, and its new key is neither one given to a row updated before nor one still held by a row not updated yet or not at all) and every new row does, in order, on the edited table |
| SuccessSpec.RowsGoIff | crates/sqail-ui/src/editing.rs:429-461 | under the same conditions the deletes and updates go through exactly if every changed row fits, and then the table is the edited one |
| SuccessSpec.UpdatesGoIff | crates/sqail-ui/src/editing.rs:438-461 | once the deletes are done, the first k updates go through exactly if the first k changed rows fit |
| SuccessSpec.DeletesGo | crates/sqail-ui/src/editing.rs:433-437 | where the primary key is the only constraint, the deletes of rows that are there always go through |
| SuccessSpec.InsertsGoIff | crates/sqail-ui/src/editing.rs:462-482 | where the primary key is the only constraint, the inserts go through exactly if, one after the other, all texts convert and the key of the stored row is not taken |
| SuccessSpec.EditedIsUnique | crates/sqail-ui/src/editing.rs:429-461 | what the edits mean for the rows of a table determines the table |
| SuccessSpec.UntouchedKeysSucceedIff | crates/sqail-ui/src/editing.rs:553-577 | under the same conditions, edits that leave the keys alone and add no rows succeed if and only if all the texts of rows that stay convert |
| SuccessSpec.SwapIsRefused | crates/sqail-ui/src/editing.rs:438-461 | concrete: swapping the keys of two rows is refused, although the edited table is a proper one |
| ApplyRun.Session.RunAll | crates/sqail-ui/src/editing.rs:555-570 | statements in order up to the first that fails or touches no row |
| ApplyRun.Session.Apply | crates/sqail-ui/src/editing.rs:520-579 | all or nothing: success means all statements committed; failure means nothing changed, unless only the reply to COMMIT was lost; a statement or a COMMIT the database refuses leaves the table as it was; without transport faults it succeeds exactly if the database takes the statements and the COMMIT |
| EditingFlow.EditingIsFaithful | crates/sqail-ui/src/editing.rs:36-579 | the pipeline from end to end: for every simple SELECT, every result of it that editing starts on, and every sequence of edits and sorts: the query is read as its schema, table and items, each editable column is written where its values came from, and if the statements succeed on a table whose primary key is what the client was told and that still holds the touched rows, the final table is exactly the edited one; it holds what the grid shows in the rows that stay and, if the database stores what it is given, what was typed into the new rows |
| EditingFlow.ApplyEdits | crates/sqail-ui/src/editing.rs:429-579 | from the buffer to the database: reported as applied, the edited table is what is committed, with one count per deleted, changed and new row; reported as failed, nothing has changed, unless only the reply to COMMIT was lost and all of it is committed |
| EditingFlow.StatementsNameTheTable | crates/sqail-ui/src/editing.rs:381-484 | the text of every statement of an editing session names the schema and the table that the query names, and reads back as the statement whose effect is described |
| EditingFlow.GridHasWholeKey | crates/sqail-ui/src/editing.rs:293-352 | the key of a started grid is all of the primary key of the table, as the client was told it |
| EditingFlow.EditsGoWhereValuesCameFrom | crates/sqail-ui/src/editing.rs:228-352 | every editable cell shows values of the very column it writes |
| EditingFlow.PipelineIsPossible | crates/sqail-ui/src/editing.rs:36-579 | for any query of one key column there is a result, a table and a started grid that meet every condition of the theorem |
| EditingFlow.StartedGridIsFit | crates/sqail-ui/src/editing.rs:293-352 | a grid that editing starts on has one cell per column, an editable key, no two columns writing to one place, and an empty normal buffer |
| StatementText.DialogShowsStatement | crates/sqail-ui/src/editing.rs:381-517 | for every engine, all names, every edit and each of its statements: the dialog shows the statement with all values in place exactly if no name, type or value can itself be read as a placeholder replaced later |
| StatementText.PlainStatementsAreShown | crates/sqail-ui/src/editing.rs:381-517 | in particular whenever none of them contains the marker character |
| StatementText.SqlIsWritten | crates/sqail-ui/src/editing.rs:429-484 | the text as formatted is its fixed parts and placeholders in order |
| SqlReader.StatementReadsBack | crates/sqail-ui/src/editing.rs:381-484 | read as a database does, by a reader that is told nothing but how names are quoted, every generated statement says what it is meant to: its table and schema, its columns, its placeholders with their numbers and casts, its key |
| SqlReader.SameTableIff | crates/sqail-ui/src/editing.rs:381-392 | the texts of two statements name the same table if and only if table and schema agree, where main is no schema on SQLite |
| SqlReader.QuotedNamesReadBack | crates/sqail-ui/src/sql/mod.rs:11-32 | every quoted name is read back by its engine, whatever it contains and whatever the key words are |
| SqlReader.QuoteIdentIsRead | crates/sqail-ui/src/sql/mod.rs:11-32 | ... so that names quoted by it meet what reading statements back requires |
| SqlReader.GeneratedIsWellMade | crates/sqail-ui/src/editing.rs:407-484 | every generated statement is one that is read back |
| SqlReader.LiteralReadsBack | crates/sqail-ui/src/editing.rs:489-517 | the literals of the review dialog read back as the values, NULL as NULL |
| SqlReader.ShownReadsBack | crates/sqail-ui/src/editing.rs:489-517 | ... with the cast that follows them on PostgreSQL |
| StatementText.PiecesSafe | crates/sqail-ui/src/editing.rs:394-400 | in generated text no placeholder runs into its neighbours, whatever the names are |
| StatementText.InsertsAreToldByText | crates/sqail-ui/src/editing.rs:563 | a text starts with INSERT exactly for insert statements |
| PreviewSpec.SimultaneousIff | crates/sqail-ui/src/editing.rs:489-517 | for any text of safe pieces: replacing from the highest number down is simultaneous substitution if and only if nothing can be read as a placeholder again |
| PreviewSpec.PreviewIsExpansion | crates/sqail-ui/src/editing.rs:489-517 | no placeholder is ever taken for another: `?1` never damages `?10` |
| PreviewSpec.HoleIsNotAnother | crates/sqail-ui/src/editing.rs:492-493 | a lower placeholder with what follows it never reads as a higher one |
| PreviewSpec.KeptIffInert | crates/sqail-ui/src/editing.rs:489-517 | a text is left alone exactly if it contains none of the placeholders |
| PreviewSpec.ValueIsReread | crates/sqail-ui/src/editing.rs:489-517 | concrete: the value `?1` of placeholder 2 is substituted into |
| ReviewDialog.Inline | crates/sqail-ui/src/editing.rs:489-517 | the loop from the highest number down |
| DropSpec.DroppingKeepsScript | crates/sqail-ui/src/editor.rs:191-227 | for every text, position and statement: all non-blank lines survive in order, and the only new ones are the statement's, together at the drop position |
| DropSpec.DroppedStandsAlone | crates/sqail-ui/src/editor.rs:191-227 | the statement has a blank line, or the edge of the text, on both sides, and the caret is right behind it |
| DropSpec.DroppedIsUnique | crates/sqail-ui/src/editor.rs:191-227 | the description determines the new text and caret |
| DropSpec.DroppedAsText | crates/sqail-ui/src/editor.rs:191-227 | in characters: on a line of white space the statement takes the place of that line, and otherwise of an empty line added to the text; a line break is added towards a neighbour with text, and nothing else changes |
| Editor.Tab.DropStatement | crates/sqail-ui/src/editor.rs:194-227 | the edit as written meets the description |
| Editor.ReplaceLine | crates/sqail-ui/src/editor.rs:206-224 | padding and replacing one line |

Where a method's contract equates the new state with a specification function,
the meaning of that function is stated by the lemmas of its specification module.

## Left out

- RestartSpec.FailedStartFallsBack: speaks of the time until the loop wakes again;
  after that the next request decides.
- Restarting.Service.Run: runs for a given number of rounds, because the loop of
  the service has no end of its own; the step machine has no such bound.
- Editor.Tab.DropStatement: works on characters, not on UTF-8 byte offsets; line
  breaks are single bytes, so byte and character positions correspond one to one.
  `char_to_byte` and `byte_to_char` are not part of this model.
- Find.MatchAt: lower-casing and UTF-8 widths of characters are functions given
  from outside; their values for real characters are not part of this model.
- SelectSyntax.SelectRoundTrip: the tokens are given; the lexer is not part of
  this model.
- StableSort.SortIsPermutation: speaks of a sort that comes to an end; on a
  comparator that is no order the library's may panic instead.
- TableSpec.EditsAreFaithful: the values of new rows are promised for a database
  that stores what an INSERT gives (`FillKeeps`); conversion of text to values, defaults and further
  constraints of the database are functions given from outside; triggers on updates,
  other sessions writing to the table and row-level security are not modelled.
- TableSpec.InsertGives: what the database makes of the values given is a function
  from outside; `TableSpec.NewRowsHold` says when they are kept.
- SuccessSpec.StatementsSucceedIff: for tables whose only constraint is the primary
  key; other constraints are a function given from outside, and nothing is
  promised about them.
- ApplyRun.Session.Apply: opening and closing the session and the texts of error
  messages are left out; the database undoes an open transaction whose COMMIT
  never arrives, and what it checks at COMMIT is a function given from outside.
- ResultSpec.EveryRunShowsWhatWasSent: elapsed times and the exact wording of
  notes are left out; cells arrive as values, JSON is not parsed.
- SortKeys.TotalPreorderIffNoClash: floats stand for their place in the total
  order of `f64::total_cmp`; rounding of integers to floats is any monotone
  function.
- Tsv.ExportReadsBack: how a cell is rendered as text is a function given from
  outside.
- RunSqlSpec.SqlRunsAtMostOnce: takes a "session gone" reply to mean that nothing
  ran, and replies to BEGIN to be read to their end.
- TabSpec.RunsSeeOnlyTheirOwn: query plans, edits in progress and export tasks,
  which carry run ids in the same way, are left out, and so is sorting, which
  `ResultSpec` covers; a connected client is assumed.
- TabSpec.EditsGoWhereReadIff: the edits kept with a run are those of
  `EditBuffer`; here a run stands for them.
- TransactionSpec.MarkIsTrue: one service; what other tabs do to their own sessions
  is any change that leaves this tab's alone, and Done reports the transaction
  as it is on the session (crates/sqail-service/src/api/query.rs:208-266).
- TabSpec.StrandedIff: opening a file or a text in a tab is a new tab and a run;
  closing a tab with an open transaction is forgetting the transaction and then
  closing; restoring the tabs of the last session is not modelled.
- RowHeights.RowLines.InvalidateUnless: the key is a sequence of numbers; floats
  that are not equal to themselves are left out.
- StatementText.DialogShowsStatement: how names are quoted is a function given from
  outside here; integer, float and boolean parameters, which generated statements
  never use, are left out.
- SqlReader.StatementReadsBack: the reader knows the few forms that generated
  statements have. On PostgreSQL a type name that contains a comma and a blank, or
  AND or WHERE between blanks, is left out (`TypesRead`); `numeric(10,2)` and the
  like are not such names. Which words are key words is given from outside.
- QuerySyntax.EditableQueryIff: common table expressions do not begin with SELECT
  (`OnlySelects`). Expressions are tokens, windows and subqueries; the words that are
  looked for do not occur as bare words elsewhere in the query.
- PreviewSpec.SimultaneousIff: says nothing about a text whose pieces run into a
  placeholder, which generated text never does.
- Restart: reading the settings, saving them, `on_start` and server start-up are
  choices of an outside world, and `Notify` is one permit bit; TLS, the store and
  the error texts are not modelled.
- Audit: the log is a sequence; authorisation, time stamps and SQLite itself are
  not modelled. The API layer keeps the limit between 1 and 500.
- Drawing, dialogs, keyboard handling, themes, the completer, formatter and
  statement splitter, file dialogs, exports to disk, TLS, certificates, the
  keyring and the rate limiter: no deep property, or foreign libraries.
- `insert_at_cursor`, `drop_at`, `Selection::click`, column widths and number
  formatting: they would only add easy members.
