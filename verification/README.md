# Fire2API: verification of the service core

Fire2API turns SQL stored in a metastore into HTTP endpoints over a Firebird database. This project
models the parts of it that carry state or scan text, and proves properties of them over all inputs,
all runs or all interleavings.

- **SQL text** (`Text`, `Lexer`, `LexerTheorems`, `Scanners`, `Splitting`, `Nesting`, `Validation`,
  `ValidationTheorems`, `PolicyTheorems`, `PolicyMeaning`, `PolicyExamples`). One lexer with the states
  normal, literal, line comment and block comment (sections 5.2 and 5.3 of ISO/IEC 9075-2) is the
  reference. Every scanner of the service is a method with the service's own loop, proved against it.
  Above it stand the theorems: the two scrubbing passes are one, statements partition the text, the policy
  sees nothing but the skeleton, and what it accepts is characterised on the whole text.
- **Parameters and pages** (`Parameters`, `BindingTheorems`, `Conversions`, `ConfigurationTheorems`,
  `Routes`, `RouteTheorems`, `Pagination`, `PaginationTheorems`, `OrderingTheorems`, `RewriteTheorems`,
  `RewriteExamples`, `QueryRun`, `Paging`, `RequestRun`). Detection, configuration checks, binding, the
  ordering and paging rewrite, one execution with its checks, chunks and transaction, and all of these from
  the values of a request to what the database executes and what the caller receives.
- **Metastore** (`Drafts`, `MergeTheorems`, `ParameterStore`, `ParameterService`, `SnapshotTheorems`,
  `SnapshotExamples`, `SyncTheorems`). The editor's merge, and the transactions that save, synchronise and
  reorder parameters. Each INSERT and UPDATE is one step that the unique constraint may refuse.
- **Executions** (`History`, `HistoryOrder`, `Execution`, `ExecutionInvariant`, `ExecutionTheorems`,
  `ExecutionRaces`, `ExecutionProgress`, `CanceledRuns`, `CancelRequests`, `RecordTimes`,
  `ExecutionService`). A transition system: the coroutine, the worker thread, the timeout, the release
  callback and cancel requests are separate events, and any enabled one may come next. `Run` folds any
  sequence of events; an event that is not enabled changes nothing, so a statement about `Run` is one
  about every interleaving. The class `Service` holds the mutable state; its methods are those that take
  and return permits, write the status or cancel.
- **Idempotency** (`IsoTime`, `Idempotency`, `IdempotencyTheorems`, `Endpoint`, `Answers`, `AtMostOnce`,
  `AtMostOnceRaces`). The records and their texts of time, the requests that hold them, the answers, and
  both protocols together.
- **Rate limit** (`RateLimit`, `RateLimitTheorems`). The limiter and the log it stands for.

`dafny verify dfyconfig.toml` checks everything. In `AtMostOnce` the three conditions on the
environment are predicates on events: `TimeoutInTime` (a timed-out execution had not passed the last
cancel check), `CommitIsReported` (an execution that raises for another reason did not commit) and
`SettledInTime` (a request completes or abandons before its record expires). A commit may come at any
time, before or after the expiry.

## Where the code falls short

- The service's documentation (`README.md:219-223`) says that a key never authorises a replay. A
  timeout that strikes after the last cancel check is reported as a timeout, the endpoint abandons the
  key, and the commit goes through: `AtMostOnceRaces.LateTimeoutCommitsTwice`. A commit whose report is
  lost and a request that settles after its expiry lead to a second commit in the same way:
  `AtMostOnceRaces.LostCommitCommitsTwice`, `AtMostOnceRaces.LateSettleCommitsTwice`. The write is done
  once per lifetime when none of the three happens: `AtMostOnce.CommitsAtMostOnce`. Whether a
  cancellation is in time is decided by `ExecutionProgress.CanceledInTime`.
- Record numbers are used again after a deletion. A request that settles in time touches its own record
  only (`IdempotencyTheorems.SettlesOwnRecord`); from every reachable world with an open request that has
  expired, a continuation exists in which giving up deletes another's running record:
  `IdempotencyTheorems.LateAbandonFreesAnother`.
- `running` overwrites `cancel_requested` when the request is recorded before the execution has passed
  its admission, and never after that: `CancelRequests.RequestSurvivesIff`,
  `CancelRequests.OnlyMarkRunningOverwrites`.
- A request to cancel that comes before the context is known is acknowledged, and the write can commit
  all the same: `CancelRequests.EarlyRequestIsLost`, a run from every reachable state. Exactly which
  acknowledged requests keep an execution from committing is said by
  `CancelRequests.AcknowledgedBarsIff`.
- Any accepted query that does not end as code loses its row clause, and any that a semicolon ends gets
  it as a second statement: `RewriteTheorems.OptionsReachStatement`. `select 1--` and `select 1;` are
  such queries: `RewriteExamples.CommentLosesRows`, `RewriteExamples.SemicolonClosesQuery`. What the
  caller then receives is said by `Paging.PageIsWindow`.
- A statement whose first word is PROCEDURE passes for a procedure call, and one whose first word is
  UPSERT for UPDATE OR INSERT: `PolicyExamples.ProcedureWordIsEnough`, `PolicyExamples.UpsertWordIsEnough`.
  Everything else the policy accepts is said by `PolicyMeaning.PolicyIff`.
- An ordering by a column whose name holds a window word, `offset` say, drops LIMIT and OFFSET:
  `RewriteTheorems.OrderingNamesWindow`, `RewriteExamples.OrderByOffsetDropsWindow`.
- A snapshot can fail on a stored name that looks like a temporary one; `SnapshotTheorems.SaveOutcome`
  says exactly when, `SnapshotExamples.BlockedSave` shows one. Such names are refused on every save, but
  not by the single-parameter calls (`app/core/query_service.py:540-610`).
- An execution refused for lack of capacity is recorded as failed without a finishing time:
  `ExecutionRaces.RefusalHasNoFinish`. The invariant `ExecutionInvariant.Recorded` allows for it.

## Model

| member | source | states |
|---|---|---|
| `Scanners.StripComments` | app/core/query_service.py:961-988 | the loop returns the source of the reference lexer's items with every comment turned into one space, for every text, including unterminated comments and literals |
| `Scanners.StripLiterals` | app/core/query_service.py:991-1009 | the loop empties every literal of the quote-only lexer, terminated or not |
| `Splitting.SplitStatements` | app/core/query_service.py:1012-1035 | the loop returns exactly the non-blank texts between semicolons outside literals, in order |
| `Nesting.Balanced` | app/core/query_service.py:1038-1047 | true exactly when the parentheses outside literals never close too early and end even |
| `Nesting.TopLevelWords` | app/core/query_service.py:698-717 | the loop collects the upper-cased words at depth zero, ignoring surplus closing parentheses as the code does |
| `Lexer.LexIsFaithful` | app/core/query_service.py:961-1035 | the lexer all scanners refine loses no character |
| `Lexer.LexAppend` | app/core/query_service.py:823-862 | the lexer may be restarted after any text that splits no two-character symbol |
| `LexerTheorems.UncommentedLexesAlike` | app/core/query_service.py:961-988 | relexing text without comments, with or without comment recognition, finds the old items with a space for each comment: no two literals or half symbols fuse |
| `LexerTheorems.ScrubbedLexesAlike` | app/core/query_service.py:991-1009 | emptying the literals of comment-free text creates neither a literal nor a comment |
| `LexerTheorems.TwoPassesAreOne` | app/core/query_service.py:961-1009 | `_strip_literals(_strip_comments(s))` is the output of one pass of the four-state lexer, for every string |
| `LexerTheorems.CommentsLeaveNoTrace` | app/core/query_service.py:961-988 | no comment opener is left outside literals, the literals are the original ones in order, and the function is idempotent |
| `LexerTheorems.WithoutLiteralsIsIdempotent` | app/core/query_service.py:991-1009 | emptying literals twice is emptying them once, on any text |
| `LexerTheorems.SkeletonIsFixed` | app/core/query_service.py:961-1009 | the skeleton is a fixed point of both functions |
| `Splitting.StatementsPartition` | app/core/query_service.py:1012-1035 | the pieces between unquoted semicolons rebuild the text when joined, each starts outside literals and holds no unquoted semicolon, and the statements are the non-blank ones |
| `Splitting.StatementsStayCommentFree` | app/core/query_service.py:642-650 | statements split from comment-stripped text hold no comment |
| `Nesting.BalancedIffNested` | app/core/query_service.py:1038-1047 | the balance check accepts exactly the texts that are the spelling of a tree of groups |
| `Nesting.TopLevelIsOutline` | app/core/query_service.py:698-717 | on balanced text the top-level words are the words left when each outermost group is replaced by a separator |
| `Nesting.GroupContentIsInvisible` | app/core/query_service.py:698-717 | two balanced texts that differ only inside groups have the same top-level words |
| `Validation.ValidateQuery` | app/core/query_service.py:642-678 | the policy as run over the scanners gives the verdict of the specification, with its first error or statement type |
| `Validation.DetectStatementType` | app/core/query_service.py:681-695 | the statement type as run over the scanners is the one of the specification |
| `ValidationTheorems.ValidationSeesOnlySkeleton` | app/core/query_service.py:642-695 | for every text and method the verdict, the error and the statement type are those of the skeleton, also with unterminated literals or comments |
| `ValidationTheorems.StripCommutes` | app/core/query_service.py:647-656 | trimming and emptying literals commute, even when the last literal is open |
| `ValidationTheorems.SplitCommutes` | app/core/query_service.py:648-656 | splitting and emptying literals commute, statement by statement |
| `ValidationTheorems.JudgeSeesOnlyScrubbed` | app/core/query_service.py:651-676 | the checks on one comment-free statement do not depend on the contents of its literals |
| `ValidationTheorems.TypeIgnoresGroups` | app/core/query_service.py:681-717 | the statement type, CTE branch included, does not depend on the content of any balanced group |
| `PolicyTheorems.AcceptedIff` | app/core/query_service.py:642-695 | a text is accepted if and only if the method is known, the skeleton is one statement of an allowed type that does not set the transaction, and the whole skeleton is balanced and holds no forbidden command and no EXECUTE BLOCK |
| `PolicyMeaning.PolicyIff` | app/core/query_service.py:641-678 | told from the text: accepted exactly when the method is one of the five, the skeleton is one balanced statement without any of eleven commands and without EXECUTE together with BLOCK, the statement does not set the transaction, and its command is SELECT under GET, INSERT or a procedure call under POST, UPDATE, MERGE, UPDATE OR INSERT or a procedure call under PUT and PATCH, DELETE or a procedure call under DELETE; the command of a query that begins with WITH is its last operation outside parentheses |
| `PolicyMeaning.AcceptedTypeIsTold` | app/core/query_service.py:681-695 | the statement type of an accepted text is the one told from its statement |
| `PolicyMeaning.RefusalStatesReason` | app/core/query_service.py:644-676 | a refusal states the first reason that applies, in the order of the checks |
| `PolicyMeaning.WordsAreRuns` | app/core/query_service.py:658-660 | the words collected are exactly the maximal runs of word characters |
| `PolicyExamples.ProcedureWordIsEnough` | app/core/query_service.py:681-695 | `procedure p` is accepted under POST |
| `PolicyExamples.UpsertWordIsEnough` | app/core/query_service.py:681-695 | `upsert t` is accepted under PUT |
| `Parameters.DetectParameters` | app/core/query_service.py:209-250 | the loops detect route names, then binds outside comments and literals, each canonical name once, reserved binds left out |
| `Parameters.BindParameters` | app/core/query_service.py:720-775 | the loops normalise the sources, refuse duplicates and unknown fields, and fill in, convert and check every definition as specified |
| `Parameters.CollectBindings` | app/core/query_service.py:778-789 | the loop gives a value to exactly the bind occurrences that resolve |
| `BindingTheorems.DetectionFindsBinds` | app/core/query_service.py:231-249 | every bind that is not reserved is detected under its canonical name |
| `BindingTheorems.DetectionIsExact` | app/core/query_service.py:209-250 | what is detected is the path parameters and the binds that are not reserved, each with its source, and nothing else |
| `ConfigurationTheorems.RouteNamesAreSlots` | app/core/query_service.py:217-218 | the names of a path are exactly those of its placeholders |
| `ConfigurationTheorems.BindsAreMarked` | app/core/query_service.py:232-234 | the binds of a text are exactly the longest names after a colon that follows no other |
| `ConfigurationTheorems.AcceptedConfigurationIff` | app/core/query_service.py:367-418 | a configuration is accepted exactly when the policy accepts the statement, every definition is sound (known type and source, a name that is not reserved, a rule that compiles, a default that converts and fits), names differ up to case, the path definitions are the placeholders and required, every other bind has a definition, and a GET has none for a body |
| `BindingTheorems.AcceptedNames` | app/core/query_service.py:367-419 | an accepted configuration has distinct valid names and one for every bind that is not reserved |
| `BindingTheorems.AcceptedPaths` | app/core/query_service.py:406-419 | in an accepted configuration the path definitions are exactly those of the path, all required, and a GET has no body definition |
| `BindingTheorems.BindSucceedsIff` | app/core/query_service.py:720-775 | a request binds if and only if no source repeats a name up to case, every name is defined for its source or a reserved query name, and every definition obtains a value that converts and fits its rule |
| `BindingTheorems.BindOutcome` | app/core/query_service.py:720-775 | told from the request: it binds exactly when no source sends a name twice up to case, every name is defined for its source or a paging option, and every definition obtains a value; a definition obtains the value sent, converted and fitting its rule, null for a null, otherwise its default, otherwise null if optional; the paging options are those sent |
| `Conversions.BooleansAreRead` | app/core/query_service.py:50-63 | a boolean is read exactly from the five spellings of each truth value, in any letter case and whitespace, from itself, and from one and zero |
| `Conversions.OthersAreRead` | app/core/query_service.py:791-821 | a text parameter is the spelling of its value, a boolean is never a number, an unknown type converts nothing |
| `BindingTheorems.BindingIsComplete` | app/core/query_service.py:720-789 | after acceptance and a successful binding, exactly the non-reserved bind occurrences receive a value, each the one its definition obtains from the request, in any letter case |
| `BindingTheorems.StoredIsJudgedAlike` | app/core/query_service.py:367-418 | storing the definitions changes no verdict on any configuration, nor its error |
| `BindingTheorems.StoredBindingIsComplete` | app/core/query_service.py:720-821 | the same completeness for the stored definitions, which are those the endpoint binds |
| `BindingTheorems.StoredDefaultsBind` | app/core/query_service.py:386-396 | a default that passed the save check never makes a binding fail once stored |
| `RouteTheorems.StoredFormIsCanonical` | app/core/query_service.py:71-75 | two route paths are stored alike exactly when they agree up to case and surrounding whitespace |
| `RouteTheorems.StoringIsIdempotent` | app/core/query_service.py:71-75 | normalising a stored path changes nothing |
| `RouteTheorems.StoredLetters` | app/core/query_service.py:71-75 | text between placeholders is stored in lower case, placeholders in upper case, without outer whitespace |
| `RouteTheorems.StoredNamesAreKept` | app/core/query_service.py:71-75 | normalising keeps the path parameters, in order, up to case |
| `RouteTheorems.AcceptedPathsStoreAlike` | app/schemas/query.py:28-47 | a path accepted by the schema is stored like the path as given, with path parameters distinct up to case |
| `ConfigurationTheorems.AcceptedPathIff` | app/schemas/query.py:28-46 | a path is accepted exactly when it starts with a slash and does not end with one, is not reserved, holds only word characters, slashes, hyphens and braces, every brace belongs to a placeholder, and the names of the placeholders differ up to case |
| `Pagination.SuffixReachesStatement` | app/core/query_service.py:854-862 | plain text appended after a space joins the statement if and only if the text before it ends as code |
| `Pagination.OrderedAddsSuffix` | app/core/query_service.py:831-847 | ordering leaves the text alone or appends text without quotes, comments, semicolons or binds |
| `PaginationTheorems.RewriteExtendsSkeleton` | app/core/query_service.py:823-862 | the skeleton of the rewritten text is the old one, the ordering and the row clause, and the new binds are exactly the row parameters |
| `PaginationTheorems.OrderingAsAsked` | app/core/query_service.py:831-847 | the appended ORDER BY list splits again into exactly the items of the request, in their order |
| `OrderingTheorems.ItemsAccepted` | app/core/query_service.py:45-48 | an ordering item is accepted exactly when it is a column, perhaps qualified, with ASC, DESC in any letter case, or nothing |
| `OrderingTheorems.OrderedIff` | app/core/query_service.py:829-847 | an ordering is accepted exactly when every part between commas is an item and no ORDER BY stands outside the parentheses of the query |
| `OrderingTheorems.WindowWords` | app/core/query_service.py:853-855 | a query counts as paginated exactly when one of five words stands outside its parentheses |
| `PaginationTheorems.SuffixStaysInStatement` | app/core/query_service.py:854-862 | plain text appended to code adds a statement exactly when nothing but blanks follows the last semicolon |
| `RewriteTheorems.OptionsReachStatement` | app/core/query_service.py:823-862 | for every accepted query, with or without ORDER_BY: the options append the ordering and the row clause; these are code if and only if the trimmed query ends outside literals and comments, and then they stay in its one statement if and only if no semicolon ends it |
| `RewriteTheorems.RowsReachOrVanish` | app/core/query_service.py:854-862 | the row clause is kept whole, or nothing of it is left, as the text before it ends as code or not |
| `RewriteTheorems.OrderingNamesWindow` | app/core/query_service.py:829-853 | the ordering of an accepted query that ends as code makes it look paginated if and only if it already did or a word of the ORDER_BY request is a window word |
| `RewriteTheorems.OptionsIgnoreGroups` | app/core/query_service.py:835-853 | what stands inside parentheses decides neither whether a query has an ordering nor whether it has a window |
| `RewriteExamples.CommentLosesRows` | app/core/query_service.py:854-862 | `select 1--` is accepted, and for every window asked for the result is the statement without it |
| `RewriteExamples.SemicolonClosesQuery` | app/core/query_service.py:854-862 | `select 1;` is accepted, and for every window asked for the result is two statements, which the policy refuses |
| `RewriteExamples.OrderByOffsetDropsWindow` | app/core/query_service.py:829-853 | `select 1` ordered by `offset` is accepted, and every window asked for is dropped |
| `QueryRun.FetchRows` | app/core/query_service.py:898-906 | for any positive chunk size the loop returns the first rows up to the maximum, and a cancellation seen by any check stops it |
| `QueryRun.RunInTransaction` | app/core/query_service.py:888-922 | the statement is executed once, after the first check, or not at all; a commit happens exactly for a successful write that is no trial run, every other end is one rollback, and a check that sees the cancellation ends the run |
| `QueryRun.ExecuteQuery` | app/core/query_service.py:865-922 | the database sees the prepared statement and its bindings or nothing at all, and nothing unless the policy accepts; for a write the statement as given with its resolved binds; the output holds the rows up to the maximum |
| `QueryRun.AffectedCounts` | app/core/query_service.py:907-909 | the count reported is that of the driver, never negative, and at least the rows fetched only for a write that returns rows and is no procedure call |
| `Paging.WindowAsAsked` | app/core/query_service.py:848-856 | for options of any type, texts of the query string included: nothing, null and empty text ask for no limit, a false value for no offset; the window is what is asked for, the limit cut at the maximum, and it is refused exactly for what is no number, a limit that is not positive or a negative offset |
| `Paging.PageIsWindow` | app/core/query_service.py:823-906 | end to end, for every GET request that goes through: if the query is not already paginated and ends as code, the caller receives exactly the rows from the offset to the offset plus the limit, and no semicolon ends the query; otherwise it receives the first rows up to the maximum, whatever it asked for |
| `Paging.ReadPage` | app/core/query_service.py:865-922 | a GET request run with any chunk size and any cancellation checks: when it returns, its rows are those of the window, provided the query is not already paginated and ends as code; nothing is committed |
| `Paging.PagesConcatenate` | app/core/query_service.py:823-906 | for a query that is not already paginated and ends as code, the outputs of requests with LIMIT=size and OFFSET=0, size, 2*size, ... put together are the start of the full result, without gap or overlap, and all of it once the pages cover it |
| `Paging.ShortPageIsLast` | app/core/query_service.py:823-906 | a page shorter than its limit appears exactly when the pages reach past the end, and the caller then has the full result |
| `RequestRun.ServeRequest` | app/core/dynamic_loader.py:88-146 | a request against a stored, accepted configuration: nothing is executed unless it binds and the policy accepts the statement; every bind of the executed text that is not reserved has the value its definition obtains from the request, nothing else is given but the row parameters to a GET, and any other method executes the stored text; a commit happens exactly when a request other than GET succeeds |
| `RequestRun.PreparedIsTold` | app/core/query_service.py:884-887 | the same of what is prepared, for every method |
| `RequestRun.OrderedKeepsBinds` | app/core/query_service.py:847-847 | an ordering changes none of the binds, even when it is lost in a comment |
| `Drafts.MergeDrafts` | app/core/query_service.py:321-364 | the index, the updates in place and the numbering pass compute the specified merge |
| `Drafts.MergeIsIdempotent` | app/core/query_service.py:321-364 | merging the result again changes nothing |
| `Drafts.MergeKeepsDrafts` | app/core/query_service.py:321-364 | every draft stays in its place with what the user entered, except what a path placeholder forces |
| `Drafts.MergeAppendsMissing` | app/core/query_service.py:338-363 | what is appended was detected, missing and not suppressed, and is numbered |
| `Drafts.MergeLeavesNothingMissing` | app/core/query_service.py:401-404 | with nothing suppressed the result passes the check for missing parameters |
| `MergeTheorems.MergeKeeps` | app/core/query_service.py:321-364 | a draft of the user keeps all its fields, under the canonical name and its place; only a draft found in the path is forced to be a required path parameter |
| `MergeTheorems.MergeAdds` | app/core/query_service.py:338-363 | everything added is a required text parameter of the source that was detected, without other fields |
| `MergeTheorems.MergeCovers` | app/core/query_service.py:338-357 | a detected parameter has a draft afterwards unless it had none and is suppressed; found in the path, it is a required path parameter |
| `MergeTheorems.MergeStillSuppresses` | app/core/query_service.py:328-331 | what stays suppressed are the suppressed names that were detected |
| `ParameterService.Metastore.SaveQueryConfiguration` | app/core/query_service.py:422-537 | the statements of the save leave the tables of the specification, or, on any error, the tables as they were |
| `ParameterService.Metastore.ReorderParameters` | app/core/query_service.py:621-639 | returns whether the ids are exactly those of the query, and renumbers them or changes nothing |
| `ParameterService.Metastore.SyncDetectedParameters` | app/core/query_service.py:253-318 | the transaction leaves the tables and reports the names of the specification, or changes nothing |
| `ParameterStore.RenameAllOutcome` | app/core/query_service.py:498-503 | temporary renaming goes through if and only if no row still to be renamed bears the temporary name of one renamed before |
| `ParameterStore.WriteAllOutcome` | app/core/query_service.py:505-535 | once the kept rows bear temporary names, every final write goes through the unique constraint |
| `SnapshotTheorems.SaveOutcome` | app/core/query_service.py:422-537 | a save succeeds if and only if the configuration is accepted, the query exists if one is given, no other query is stored under the same normalised route and upper-cased method, the retained ids belong to the query and renaming is not blocked, and otherwise reports the first that fails; the query is the one given or a new one, and holds what was asked for; the rows are those of the other queries and the snapshot |
| `SnapshotTheorems.UnreservedNamesNeverBlock` | app/core/query_service.py:498-503 | without stored names that begin with `__F2A_` no swap or permutation of names is ever blocked |
| `SnapshotExamples.BlockedSave` | app/core/query_service.py:498-503 | valid tables and a publishable snapshot of the query's own parameters, under a free route, for which renaming is blocked and the save fails |
| `SnapshotTheorems.SaveKeepsTablesValid` | migrations/versions/0001_initial.py:27-44 | names stay unique per query up to case, routes stay unique, and every row belongs to a query |
| `SnapshotTheorems.SnapshotReadsBack` | app/core/query_service.py:104-117 | reading a saved query by position returns the snapshot in order, at positions one to n, every field as entered, names canonical and empty texts absent |
| `SnapshotTheorems.SavedQueryBinds` | app/core/query_service.py:104-117 | from the save to the request: the parameters read by position after a successful save bind every non-reserved occurrence in the stored statement to the value its definition yields, and nothing else |
| `SyncTheorems.SyncIsAdditiveAndIdempotent` | app/core/query_service.py:253-318 | a synchronisation never fails, keeps every row but what a path placeholder forces, puts every candidate in place, and a second one creates and updates nothing |
| `SyncTheorems.SyncNumbersMissing` | app/core/query_service.py:268-300 | the created parameters are the missing ones, required text parameters of the detected source, numbered after the last position in the order of detection |
| `SyncTheorems.SyncForcesPaths` | app/core/query_service.py:293-303 | exactly the parameters found in the path become required path parameters, every other one stays as it was, and those that changed are reported |
| `SyncTheorems.ReorderTakenIff` | app/core/query_service.py:621-634 | a reordering is taken exactly when it lists every parameter of the query once and no other |
| `SyncTheorems.ReorderReadsBack` | app/core/query_service.py:621-639 | after a reordering the parameters read back in the order asked for, otherwise unchanged |
| `History.TrimKeepsNewest` | app/core/execution_service.py:266-276 | a trim removes exactly what exceeds the limit, only finished records, and none newer than one it keeps |
| `History.OrderExists` | app/core/execution_service.py:270-272 | the order a trim reads the table in always exists |
| `HistoryOrder.TextsOrderTheTable` | app/core/execution_service.py:269-272 | ordering the finished executions by the texts of their creation times is ordering them by the instants |
| `HistoryOrder.TrimByTextKeepsNewest` | app/core/execution_service.py:266-276 | a trim by the texts removes exactly what exceeds the limit and nothing created later than what it keeps |
| `History.ApplyIsMonotone` | app/core/execution_service.py:245-278 | one call of the status routine writes one row at most, never alters a finished record, and keeps the bound |
| `Execution.RunAppend` | app/core/execution_service.py:85-173 | runs compose |
| `ExecutionInvariant.NextKeeps` | app/core/execution_service.py:85-278 | every event keeps the invariant of permits, positions, commits, contexts and records |
| `ExecutionInvariant.InvHolds` | app/core/execution_service.py:65-74 | the invariant holds in every state reachable from startup |
| `ExecutionTheorems.PermitsAreConserved` | app/core/execution_service.py:185-212 | free permits, permits held while waiting and permits of admitted executions always add up, globally and per owner; unfinished workers hold theirs and never exceed either limit; threads never exceed the connections |
| `ExecutionTheorems.SubmittedWorkersStart` | app/core/execution_service.py:65-74 | a submitted worker can start exactly while fewer threads run than there are connections; with at least as many connections as global permits it never waits |
| `ExecutionTheorems.PermitsAreGivenBackOnce` | app/core/execution_service.py:204-212 | an execution that has given back its permits never holds or returns one again |
| `ExecutionTheorems.FinishedIsFinal` | app/core/execution_service.py:245-265 | over every continuation a finished record keeps status, times and all, a start time is never replaced, and a purged record does not return |
| `ExecutionTheorems.HistoryIsBounded` | app/core/execution_service.py:266-276 | every reachable history holds at most the configured number of finished records and all unfinished ones, and a trim keeps the newest |
| `ExecutionTheorems.StatusIsTruthful` | app/core/execution_service.py:85-173 | a normal return means completed or purged; completed means a commit exactly for writes; canceled means canceled and no commit, refused none; failed means a commit only if its report was lost |
| `RecordTimes.TimesAreThoseOfEvents` | app/core/execution_service.py:245-265 | a record is created at the time of its insertion, and every other time in it is that of the event that set it, and stays |
| `RecordTimes.TimesAreInOrder` | app/core/execution_service.py:245-265 | in every reachable state an execution is created, started and finished in this order, and not later than now |
| `ExecutionTheorems.CancelPreventsCommit` | app/core/query_service.py:910-915 | a cancel event set before the last check prevents the commit over every continuation, whatever the status says |
| `ExecutionRaces.NewWriteCanCommit` | app/core/execution_service.py:85-173 | from every state with room a new write can run to its commit |
| `ExecutionRaces.RunningHidesCancelRequest` | app/core/execution_service.py:107-112 | a run in which `running` overwrites `cancel_requested`, from every state with room |
| `ExecutionRaces.TimeoutHidesCommit` | app/core/execution_service.py:121-130 | a run in which a timeout is recorded and reported although the execution commits, from every state with room |
| `ExecutionRaces.LostCommitRaises` | app/core/execution_service.py:151-170 | a run in which a write commits although its execution raises and is recorded as failed, from every state with room |
| `ExecutionRaces.RefusalHasNoFinish` | app/core/execution_service.py:107-111 | a run in which an execution is refused for lack of a permit and recorded as failed without a finishing time, from every state |
| `ExecutionProgress.PermitsReturn` | app/core/execution_service.py:185-212 | no permit leaks: after every run some continuation without a new execution returns every permit, of the service and of every owner, and every thread |
| `ExecutionProgress.CommitPossibleIff` | app/core/execution_service.py:85-173 | from every reachable state some continuation commits an execution, without any new one, if and only if it writes and has committed, has passed the last check, or was neither canceled nor refused and has no outcome; otherwise none does |
| `ExecutionProgress.SuccessPossibleIff` | app/core/execution_service.py:132-170 | for reads and writes: from every reachable state some continuation makes an execution succeed if and only if it has, has passed the last check, or no check still to come stands in its way: it is not canceled, or it reads and its statement is being executed |
| `CanceledRuns.CanceledNeverSucceeds` | app/core/query_service.py:894-918 | once canceled, an execution whose statement is not sent, or a write before the last check, never succeeds: over every continuation its record is not completed and its caller gets no result |
| `CanceledRuns.CanceledIsNotSent` | app/core/query_service.py:894-896 | the statement of an execution canceled before its first check is never executed |
| `CanceledRuns.NextCheckEndsWork` | app/core/query_service.py:901-902 | once canceled, whichever check comes next, however much later, ends the work as canceled |
| `CanceledRuns.CheckDecides` | app/core/query_service.py:894-918 | every check can be made where it stands, and by the cancel event alone ends the work as canceled or lets it go on; only a read is not checked before it ends |
| `ExecutionProgress.OutcomeMayBeTold` | app/core/execution_service.py:121-170 | a caller that waits for a worker with an outcome may be told this outcome: a result, that it was canceled, or an error |
| `ExecutionProgress.TimeoutMayStrike` | app/core/execution_service.py:121-130 | while a caller waits its timeout may strike, whatever the worker has done by then; a finished record stays as it is |
| `ExecutionProgress.CanceledInTime` | app/core/execution_service.py:50-52 | from every reachable state: after a cancel event or a timeout no run commits the execution, if and only if it does not write, or its worker has neither committed nor passed the last check |
| `CancelRequests.OnlyMarkRunningOverwrites` | app/core/execution_service.py:107-112 | one event turns a recorded request to cancel into `running` if and only if it is the admitted execution's own step to running |
| `CancelRequests.RunHidesRequest` | app/core/execution_service.py:85-112 | from every position up to the admission, once the permits are free, some run hides the request |
| `CancelRequests.RequestSurvivesIff` | app/core/execution_service.py:107-112 | from every reachable state, whether permits are free or taken: a recorded request stays visible over every run, until a final status or a purge, if and only if the execution is past its admission |
| `CancelRequests.AcknowledgedBarsIff` | app/core/execution_service.py:296-311 | from every reachable state: no run after an acknowledged request commits the execution, if and only if it does not write, or it is registered and its worker has neither committed nor passed the last check |
| `CancelRequests.EarlyRequestIsLost` | app/core/execution_service.py:296-311 | from every reachable state: a new write is asked to cancel before its context is known, the request is acknowledged and recorded, and some run commits the write |
| `ExecutionService.Service.AcquireGlobal` | app/core/execution_service.py:192-200 | takes a global permit exactly when one is free |
| `ExecutionService.Service.AcquireOwner` | app/core/execution_service.py:194-202 | takes the owner's permit exactly when one is free |
| `ExecutionService.Service.OwnerTimedOut` | app/core/execution_service.py:196-198 | gives the global permit back |
| `ExecutionService.Service.Release` | app/core/execution_service.py:204-212 | returns both permits of a finished worker, once |
| `ExecutionService.Service.SetStatus` | app/core/execution_service.py:235-278 | updates an unfinished record, trims after a final status, and tells whether a row changed |
| `ExecutionService.Service.RecordResult` | app/core/execution_service.py:151-170 | the worker writes the status of its outcome |
| `ExecutionService.Service.TimeOut` | app/core/execution_service.py:127-130 | sets the cancel event, then records the timeout |
| `ExecutionService.Service.RequestCancel` | app/core/execution_service.py:296-311 | answers by owner and status, and otherwise sets the cancel event of a known context and records the request |
| `IsoTime.TextOrderIsTimeOrder` | app/core/execution_service.py:313-315 | the texts of two UTC timestamps compare as their instants, with or without a fraction |
| `IsoTime.FractionCompares` | app/core/idempotency.py:46-53 | a dropped zero fraction sorts before every other fraction |
| `Idempotency.Records.BeginRequest` | app/core/idempotency.py:33-90 | purges the expired records, then grants a free scope or answers by payload and status; a malformed key changes nothing |
| `Idempotency.Records.CompleteRequest` | app/core/idempotency.py:93-106 | completes a running record and fails otherwise |
| `Idempotency.Records.AbandonRequest` | app/core/idempotency.py:109-114 | deletes a running record and nothing else |
| `IdempotencyTheorems.GrantedIff` | app/core/idempotency.py:42-90 | a request is granted if and only if its key has one to two hundred characters without line breaks and tabs and every earlier grant of its scope was abandoned or has expired; a grant adds the running record of the request, every well formed key removes the expired records, and a malformed one is named and changes nothing |
| `IdempotencyTheorems.RefusalIsTruthful` | app/core/idempotency.py:81-90 | a refusal tells whether the unexpired request of the scope has another payload, was completed, or neither |
| `IdempotencyTheorems.GrantsAreSeparated` | app/core/idempotency.py:33-114 | on every timely trace a scope has one record at most, two of its grants are separated by an abandon or a lifetime, and no two unexpired requests share a record |
| `IdempotencyTheorems.SettlesOwnRecord` | app/core/idempotency.py:93-114 | completing or abandoning in time touches the request's own record only |
| `IdempotencyTheorems.SettlementDecides` | app/core/idempotency.py:93-114 | a request that gives up in time leaves its scope free at once; one that succeeds, recorded or not, keeps it exactly until its record expires |
| `IdempotencyTheorems.CompletedIsKept` | app/core/idempotency.py:93-114 | a completed record stays as it is until it expires, whichever request settles or asks, in time or late |
| `IdempotencyTheorems.CompletionIsRecorded` | app/core/idempotency.py:93-106 | a request counts as completed exactly when its number bears a running record, which is then completed |
| `IdempotencyTheorems.LateAbandonFreesAnother` | app/core/idempotency.py:109-114 | from every reachable world with an open grant that has expired, a timely continuation gives its number to a running record of any other scope; giving up then deletes that record, and the other scope is granted again |
| `Endpoint.Admit` | app/core/dynamic_loader.py:102-116 | a key is begun for requests other than GET that send one, and a conflict or a bad key ends the request |
| `Endpoint.Conclude` | app/core/dynamic_loader.py:117-180 | a success is completed, every other ending abandoned, a failed completion neither; the answer follows the ending, and the table is that of the protocol step, whichever open request holds the record |
| `Answers.AnswersTellTruth` | app/core/dynamic_loader.py:143-180 | in every reachable state: 200 only for an execution that returned, and then a write has committed; 429 only for one that never ran; 409 only for one that was canceled and did not commit; a recorded timeout is answered with 504 |
| `AtMostOnce.NextKeeps` | app/core/dynamic_loader.py:102-180 | every step of requests, workers and clocks keeps the joint invariant |
| `AtMostOnce.UnreturnedIsDead` | app/core/execution_service.py:121-130 | an execution that ended without returning has not committed and never will, given timeouts in time and reported commits |
| `AtMostOnce.CommitsAtMostOnce` | app/core/dynamic_loader.py:102-180 | two grants of one scope whose executions both committed were made at least a lifetime apart, over every interleaving, also when completing fails |
| `AtMostOnce.EndingDecides` | app/core/dynamic_loader.py:117-180 | settled in time, the scope of a request is free at once if its execution did not return, and held until the record expires if it did |
| `AtMostOnceRaces.LateTimeoutCommitsTwice` | app/core/dynamic_loader.py:157-179 | when a timeout may strike after the last check, one scope commits twice within one lifetime: a run for every key, caller and lifetime |
| `AtMostOnceRaces.LostCommitCommitsTwice` | app/core/dynamic_loader.py:157-179 | when the report of a commit is lost, one scope commits twice within one lifetime |
| `AtMostOnceRaces.LateSettleCommitsTwice` | app/core/dynamic_loader.py:157-179 | when requests may settle after their expiry: one that launched nothing gives up late, and another scope commits twice within one lifetime |
| `RateLimit.AuthRateLimiter.Retry` | app/core/rate_limit.py:19-27 | the waiting time of a lockout, or zero and the expired lockout forgotten |
| `RateLimit.AuthRateLimiter.Fail` | app/core/rate_limit.py:29-43 | drops old failures from the front, adds one, and starts a lockout at the limit |
| `RateLimit.AuthRateLimiter.Succeed` | app/core/rate_limit.py:45-49 | forgets the caller |
| `RateLimitTheorems.WindowIsRecent` | app/core/rate_limit.py:33-38 | the pruned window is the part of the whole log after the cutoff |
| `RateLimitTheorems.LimiterRefinesLog` | app/core/rate_limit.py:19-49 | for every sequence of calls in order of time the limiter answers what a log that is never pruned answers |
| `RateLimitTheorems.RetryAfterIsExact` | app/core/rate_limit.py:19-43 | windows stay sorted and below the limit; a waiting time is from one second to the lockout, asking after it gives zero, and asking after fewer whole seconds does not |

## Left out

- Scanners.StripComments: texts are ASCII; Unicode letters, whitespace and case mapping are not modelled, nor are identifiers in double quotes, which the service does not recognise either.
- Validation.ValidateQuery: errors are names, not the Portuguese messages, and the catch-all for exceptions is absent because the model raises none.
- Parameters.BindParameters: floats, dates, date-times, `str` and the regular expression engine are deterministic functions in `Runtime`; of several unknown fields the set is reported, not its spelling; the boolean word "não" is not ASCII and is left out.
- Paging.PageIsWindow: what Firebird answers to a row clause is the definition `DatabaseRows`, and the answer to the query itself is any sequence of rows.
- Drafts.MergeDrafts: detected names are not empty, as the detector guarantees.
- ParameterService.Metastore.SaveQueryConfiguration: concurrent writers of the metastore are not interleaved inside a transaction, and an integrity error is the one name of the constraint.
- ExecutionService.Service.SetStatus: error messages and affected rows are not kept, and calls to the metastore do not fail.
- ExecutionTheorems.StatusIsTruthful: `shutdown` and a later restart, which replaces the global semaphore under live workers, are not events, nor is the cancellation of the request's own task.
- ExecutionInvariant.NextKeeps: acquiring a permit is taking one or running out of time; the queue order of waiters is not modelled.
- Idempotency.Records.BeginRequest: hashes are injective labels, so scopes hold the key and payloads are numbers; the number of a new record is any number not in use.
- IdempotencyTheorems.GrantsAreSeparated: clocks do not go back, and the addition of the lifetime is given by its instant.
- RateLimitTheorems.LimiterRefinesLog: times are real numbers on a clock that starts at zero or later and does not go back.
- RateLimit.AuthRateLimiter.Fail: the lock that makes each call atomic is assumed.
- Endpoint.Admit: reading and checking the JSON body, and the envelope of the response, are absent.
- Single-parameter calls that add, update or delete one parameter: easy next to the snapshot.
- Access keys, sessions, audit records, the admin panel, OpenAPI and the swapping of routes: no hard properties.
