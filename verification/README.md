# yayPI: verified models

yayPI turns YAML into a REST backend. This project models the parts of it whose correctness is
not visible from one function at a time, and proves their properties with Dafny. Run
`dafny verify dfyconfig.toml` to check everything.

How the files follow the program:

| files | part of the program |
|---|---|
| `SqlLogic`, `Keyset`, `CursorCodec`, `Paging` | keyset pagination: order, cursor condition, signed cursor, pages, `ReadAll` |
| `Numerals`, `Strings`, `Placeholders`, `Rendering`, `QueryText`, `QueryBuilder`, `RowAccess`, `LikeMatch` | query text and its argument list, for `$n` and `?` databases |
| `SqlReader`, `QuerySemantics`, `FilterSemantics`, `ListAnswer`, `WriteReader`, `JoinReader` | what a database makes of that text: the statements read back, and run |
| `SqlScript`, `SqlElements`, `SqlKept`, `SqlResplit`, `MigrationFile`, `MigrationRun` | the SQL lexer, splitting and re-splitting, generated migration files, their execution in a transaction |
| `FkGraph`, `CycleCheck`, `TopoSort` | reference graphs: cycle detection and table order |
| `RefreshTokens`, `WorkQueue`, `Idempotency`, `JobLock` | protocols on database rows |
| `Upsert` | upserts with a stale guard |
| `Calendar`, `SqliteTime`, `TimePattern`, `TimeParse`, `TimeRoundTrip` | time formats and the SQLite text form of times |
| `RateLimit` | token buckets with eviction |
| `Relations` | batched relation loading |
| `Basics` | two helpers |

Modelling decisions that hold throughout:

* A database table is a map or a sequence of rows; one SQL statement is one atomic step. WHERE
  conditions are evaluated in three-valued logic. A column's order is a ranking of its values by real
  numbers, which covers case-sensitive and case-insensitive collations.
* The protocols are step systems: requests, workers and replicas are between statements, and the
  theorems hold for every run, that is every interleaving, including requests that stop anywhere and
  workers that finish after their lease. The statements themselves are also methods of a class that
  holds the rows.
* The database that executes a migration may refuse BEGIN, any statement, the bookkeeping INSERT and
  COMMIT, each depending on everything that has run so far.
* What a query fragment means is the text with a value in the place of every placeholder. A builder
  method is specified by what the database executes: for `$n` databases by number, for `?` databases by
  position. That is the intended statement on every `$n` database; on a `?` database it is so if and only
  if no literal question mark stands in the text. SQL string literals are not set apart from other text.
* That text is also read: a reader takes it apart into columns, conditions, order and limit, its words and
  operators included, and the conditions are evaluated on rows in three-valued logic. The row-access
  fragment, which the configuration writes, enters as the expression that it reads as.
* Go integers that can overflow are modelled with their width (cursor values, backoff); other numbers
  are mathematical. Times are counts or calendar fields in UTC.
* What a 64-bit conversion makes of a float beyond 64 bits is a parameter of the backoff; jitter is real.
* HMAC, Base64, JSON text, number printing, RFC 3339 text, case folding of search terms and the hash of
  a token are parameters or structured values.

Where the code does not meet a stated intent for all inputs, the exact condition is proved, with a
concrete input outside it where one input shows it best:

* `docs/endpoints.md:201` promises that every row is returned exactly once for any sort order. The cursor
  of a stored row selects exactly the stored rows after it if and only if the database places the decoded
  cursor where the row is (`Paging.ContinuesExactlyFromItsPlace`), and paging is proved for tables of such
  rows. It is so under every collation when the sort value is NULL, text, a 64-bit integer or a time that
  RFC 3339 can write and the primary key is text, a 64-bit integer or a boolean: exactly these come back
  unchanged (`CursorCodec.CursorCarriesPosition`, `Paging.SurvivorsArePageable`). It is not so for a boolean
  sort column on SQLite, where a listing of two rows ends after the first (`Paging.BooleanSortLosesRows`).
  A row with NULL in a column declared non-nullable is lost after a cursor that is not NULL there, and only
  then (`Keyset.UndeclaredNullIsLost`).
* A row filter is numbered in order if and only if it has no placeholder of its own and no subject binding
  in it is directly followed by a digit (`RowAccess.BindingsInOrder`). That is about numbering: a binding
  inside an SQL string literal is numbered too, but a database finds no placeholder there.
* The rewriting of placeholders for `?` databases does not spare quoted names: a name arrives unchanged if
  and only if no `$` in it stands before a digit (`QueryText.QuotedNameSurvives`).
* Included rows are grouped by the text of their key. Every row gets exactly the rows of its own lookup if and
  only if, among the live rows some key finds, a key finds a row exactly when their texts agree
  (`Relations.GroupsAreLookups`); a case-insensitive collation breaks it (`Relations.CaseMisses`).
* One update is reported alike with and without RETURNING if and only if a guarded match counts as an
  affected row and is read back, and an unguarded one is read back exactly when it matched
  (`QueryBuilder.OutcomesAgree`).
* A revocation leaves a family dead if and only if no rotation of it is between its two statements, for
  a family (`RefreshTokens.RevokeKillsUnlessRotating`) and for all tokens of a user
  (`RefreshTokens.LogoutAllKillsUnlessRotating`); a run in which it misses one is
  `RefreshTokens.RevocationCanMissRotation`.
* `Done` and `Fail` do not recheck the lease. Two workers are at work on one row if and only if a claim
  comes at or after the end of the lease of a worker still at work (`WorkQueue.LeasesAreExclusive`), and a
  finished row changes its status again exactly by the late result of a worker that has lost the row
  (`WorkQueue.OnlyLateResultsReopen`). `WorkQueue.LateFailOverwritesDone` is a run from the empty queue in
  which both happen.
* For every jitter and on every platform a failed row is retried after its planned delay if and only if the
  doubling fits 64 bits or wraps around to at least the cap, and the planned delay times 1.2 fits 64 bits
  (`WorkQueue.BackoffFollowsPolicy`, `WorkQueue.BackoffOverflows`).
* An idempotency key guards its handler in a run if and only if no step deletes the entry of a handler
  that is still active (`Idempotency.GuardedExactlyWithoutRemoval`). A request that reads the entry does
  so exactly when the entry's age, at the request's arrival, has reached the ttl
  (`Idempotency.SecondHandlerByAge`). Two runs from a key without a row show it: a handler that is slower
  than the ttl, and an entry left by a crash that two requests find expired
  (`Idempotency.SlowHandlerRace`, `Idempotency.ExpiredEntryRace`).
* A stale guard on a column that updates may not change orders nothing (`Upsert.ImmutableGuardLosesOrder`).
* A pattern in which no number of variable width stands before text that starts with a digit (`Separable`)
  reads back what it rendered exactly when year and hour can be told from it and it is not 29 February without
  a year (`TimeRoundTrip.RoundTrip`); in other patterns two dates can share one text
  (`TimeRoundTrip.UnseparatedIsAmbiguous`).
* A row without a key gets the related rows of an empty key, exactly when some were fetched for another
  row (`Relations.Include`). Soft-deleted rows of a junction table still link: the join does not look at
  their `deleted_at` (`internal/query/relations.go:124-129`).

## Model

| member | source | states |
|---|---|---|
| Keyset.OrderByIsBefore | internal/query/cursor.go:154-169 | the ORDER BY list sorts stored rows by one strict order, NULLs last in both directions, primary key as tiebreaker, whatever the dialect's own NULL placement |
| Keyset.BeforeIsStrictOrder | internal/query/cursor.go:152-169 | the listing order is irreflexive and transitive, and total on rows that the primary key tells apart |
| Keyset.KeysetIsAfter | internal/query/cursor.go:172-197 | under three-valued logic the keyset condition is true exactly for the stored rows strictly after the cursor's position, for both directions, nullable or not, NULL cursor values and primary-key sorts |
| Keyset.UndeclaredNullIsLost | internal/query/cursor.go:147-150 | without the NOT NULL promise a row after the cursor is selected if and only if the sort is by primary key, the column is declared nullable, the row's value is not NULL or the cursor's is |
| Keyset.SortNullableExactly | internal/query/cursor.go:147-150 | a sort column counts as nullable exactly when the first field it names is declared so and is not a primary key |
| Keyset.KeysetClause | internal/query/cursor.go:172-197 | refuses a cursor of another sort and touches no argument then; otherwise appends exactly the arguments of the condition it returns |
| Keyset.Args.Add | internal/query/builder.go:111-114 | appends one argument and returns its number |
| CursorCodec.CursorCarriesPosition | internal/query/cursor.go:30-125 | encode then decode gives back sort, direction and the row's exact position if and only if sort value and key are of a kind that survives tagging and JSON |
| CursorCodec.OnlySignedIsAccepted | internal/query/cursor.go:87-112 | a cursor is accepted if and only if its signature is the server's for its payload |
| CursorCodec.IntegersAndBooleans | internal/query/cursor.go:42-80 | an integer sort value comes back exactly when it fits 64 bits, a boolean comes back as its text |
| Paging.ContinuesExactlyFromItsPlace | internal/query/cursor.go:30-197 | for every stored row its cursor selects exactly the stored rows after it if and only if the decoded cursor has the row's rank, and NULL only for NULL |
| Paging.BooleanSortLosesRows | internal/query/cursor.go:42-80 | a failing input: sorted by a boolean where texts rank behind numbers, a listing with pages of one row ends after the first of two rows |
| Paging.PageShowsNextRows | internal/handler/list.go:106-150 | a page holds, in order, the first rows after its cursor; it has a next cursor exactly when rows are left, and that cursor is its last row's position |
| Paging.ReadAll | internal/handler/read.go:56-69 | for every limit the loop ends with exactly the visible rows in strictly ascending order |
| Paging.EveryStableRowOnce | internal/handler/list.go:106-150 | with arbitrary inserts and deletes between pages the collected rows are strictly ascending, each was visible when served, and every row that stays is collected exactly once |
| Paging.FixedTableIsListed | internal/handler/list.go:106-150 | on a table that does not change, following next_cursor reaches the last page within one request more than there are rows, and has collected the listing in order |
| Paging.OtherSortIsRefused | internal/query/cursor.go:172-176 | a cursor of another column or direction is refused, and no other |
| Paging.CollectFrom | internal/handler/list.go:106-150 | the same from any cursor: nothing at or before the cursor is repeated, nothing after it that stays is missed |
| Paging.ReadLimit | internal/handler/read.go:173-176 | the page size is between 1 and 1000, and the requested one when that is in range |
| Placeholders.RebindQuestion | internal/dialect/rebind.go:9-31 | the byte scan replaces every placeholder by ? and copies the rest |
| Placeholders.RebindNeedsTextualOrder | internal/dialect/rebind.go:9-31 | rewriting to ? binds every position to the same value for all lists of n arguments if and only if the placeholders are $1..$n once each in textual order and no literal question mark stands in the text |
| Placeholders.RebindKeepsPlainText | internal/dialect/rebind.go:9-31 | a text is left alone if and only if no dollar sign in it stands before a digit |
| Placeholders.ReindexFilter | internal/query/builder.go:125-143 | the scan shifts every placeholder number by the offset |
| Placeholders.ReindexKeepsMeaning | internal/query/builder.go:117-143 | a fragment numbered $1..$n, renumbered behind prior arguments, is numbered on from them and means what it meant |
| QueryText.AddPlaceholder | internal/query/builder.go:111-114 | a value is appended and its placeholder names its position |
| QueryText.QuotedNameSurvives | internal/dialect/rebind.go:9-31 | a quoted name reaches a ? database unchanged if and only if no dollar sign in it stands before a digit |
| QueryText.FilterClause | internal/query/filter.go:140-190 | fails exactly for unknown columns and operators; otherwise the clause's placeholders are the next ones and it means the filter on its column |
| QueryText.FragmentClause | internal/query/builder.go:117-121 | a well-numbered fragment keeps its meaning behind the arguments already bound |
| QueryText.BaseWhere | internal/query/builder.go:146-162 | filters, soft delete and row access render in order, each with the next placeholders |
| QueryText.SearchClause | internal/query/builder.go:211-226 | one LIKE per searchable column, each with its own argument |
| QueryText.KeysetText | internal/query/cursor.go:172-197 | the rendered keyset condition means the condition of Keyset.KeysetClause over the arguments it appended |
| FilterSemantics.FilterSelects | internal/query/filter.go:140-190 | read out of the executed text, every filter is true on exactly the rows whose value stands in the relation its operator names: eq, ne with NULL, gt, gte, lt, lte, in, nin, is_null, contains and starts_with |
| FilterSemantics.KnownOperators | internal/query/filter.go:140-190 | the operators that are accepted, and no other |
| FilterSemantics.SearchSelects | internal/query/builder.go:211-226 | the search condition, read out of its text, is true on exactly the rows with the term in a searched column |
| FilterSemantics.KeysetSelects | internal/query/cursor.go:172-197 | the keyset condition, read out of its text, is true on exactly the stored rows strictly after the cursor |
| QueryBuilder.List | internal/query/builder.go:166-208 | succeeds exactly for known columns and a matching cursor; what the database executes, by number or by position, is the listing with every argument in its place |
| ListAnswer.OrderReads | internal/query/cursor.go:154-169 | the ORDER BY text reads as its keys, in order and direction |
| ListAnswer.ListReads | internal/query/builder.go:166-208 | the text that List executes reads as a SELECT of the entity's columns with every condition, the order, the limit asked for or 20, and the offset unless there is a cursor |
| ListAnswer.ListSelects | internal/query/builder.go:146-208 | a stored row passes that SELECT exactly when every filter asks for it, it is not soft-deleted, row access admits it, the search finds it, and it stands after the cursor |
| ListAnswer.ListAnswersPage | internal/query/builder.go:166-208 | that SELECT, run on any table, answers with exactly the rows of the page of Paging |
| QueryBuilder.Count | internal/query/builder.go:229-249 | the same for the count query |
| WriteReader.CountReads | internal/query/builder.go:229-249 | the count query counts the entity's table |
| QueryBuilder.GetRow | internal/query/builder.go:253-275 | one row by key, soft delete and row access, locked where the dialect locks |
| QueryBuilder.Create | internal/query/builder.go:280-344 | a missing, empty or nil uuid key is replaced by the generated one; then the fields given are inserted, each column with its own value; fails exactly without any |
| QueryBuilder.PrimaryFieldIsFirst | internal/query/builder.go:280-289 | the primary key is the first field marked so; without one the column is id |
| QueryBuilder.KeyIsGenerated | internal/query/builder.go:280-289 | a uuid key is generated exactly when the record has none, nil or an empty one, and nothing else of the record changes |
| QueryBuilder.InsertGiven | internal/query/builder.go:292-325 | the INSERT names exactly the fields given in the entity's order and every value stands under its column |
| WriteReader.CreateReads | internal/query/builder.go:292-325 | the text that Create executes reads as an INSERT of exactly the given fields, each with its own value, returning the entity's columns where the database can |
| WriteReader.GivenExactly | internal/query/builder.go:292-300 | a field is given exactly when the record has its column, or else its name |
| QueryBuilder.ReadBack | internal/query/builder.go:331-344 | without RETURNING the row read back is that of the key inserted, or of the driver's id when none was |
| QueryBuilder.CreateReadsItsRow | internal/query/builder.go:278-344 | a record with a uuid key is read back by the very key it was inserted with, whatever id the driver reports |
| QueryBuilder.Update | internal/query/builder.go:369-456 | assignments, timestamps and revival first, then key, soft delete, row access and the stale guard; every argument in its place; fails exactly when nothing is assigned |
| WriteReader.UpdateReads | internal/query/builder.go:369-431 | the text that Update executes reads as an UPDATE of exactly the given fields that may be set, the stamps and the revival, under key, soft delete, row access and guard |
| QueryBuilder.ReportUpdate | internal/query/builder.go:413-455 | stale exactly for a guarded write that changed no row, not found when nothing was returned or read back, with and without RETURNING |
| QueryBuilder.FindByKey | internal/query/builder.go:460-498 | looks a row up by its natural key with every key value in its place |
| QueryBuilder.DeleteRow | internal/query/builder.go:502-535 | stamps deleted_at on a live row or removes the row, under the row filter |
| QueryBuilder.FetchIn | internal/query/relations.go:101-144 | one batch of the related rows of a single table, one argument per key |
| JoinReader.FetchReads | internal/query/relations.go:101-116 | a batch reads as the live rows whose column is one of the keys |
| QueryBuilder.FetchJoin | internal/query/relations.go:117-130 | one batch over a junction table: the join selects the related columns and the owner's key, live rows only, one argument per key |
| JoinReader.JoinReads | internal/query/relations.go:117-130 | a junction batch reads as the related columns with the owner's key, joined by the junction's other key and the related primary key, for the given owners, live rows only |
| QueryBuilder.Prepare | internal/query/builder.go:81-109 | a query with $1..$n in textual order executes as meant on every numbered database, and on a positional one exactly without literal question marks |
| QueryBuilder.BoundStatementReads | internal/query/builder.go:81-109 | a statement with bound arguments reads as it did, by number and by position, with every time replaced by its text in its place |
| RowAccess.EarliestBinding | internal/policy/rowfilter.go:97-108 | finds the first occurrence of any subject binding |
| RowAccess.BindSubjectParams | internal/policy/rowfilter.go:88-122 | the loop replaces the bindings from left to right by $1, $2, ... and collects their values in that order |
| RowAccess.BindingsStandFor | internal/policy/rowfilter.go:57-86 | each of the four bindings stands for the subject's field of that name, or the empty text without a subject |
| RowAccess.BindingsInOrder | internal/policy/rowfilter.go:57-123 | for every filter the result is numbered $1..$n for its n arguments if and only if the filter has no placeholder of its own and no binding is directly followed by a digit; then it means the filter with the subject's values substituted |
| RowAccess.ResolveRowFilter | internal/policy/rowfilter.go:27-50 | the first rule that matches or fails decides; no rules means open, no match means denied |
| RowAccess.ScopeTenant | internal/handler/common.go:76-89 | refuses subjects without a tenant; otherwise the filter is the row filter AND the tenant condition, still well-numbered |
| LikeMatch.EscapedIsLiteral | internal/query/filter.go:132-137 | an escaped string matches exactly itself inside a LIKE pattern |
| LikeMatch.StartsWithMatches | internal/query/filter.go:176-182 | starts_with matches exactly the texts with that prefix |
| LikeMatch.ContainsMatches | internal/query/filter.go:176-182 | contains matches exactly the texts in which the input occurs |
| SqlScript.SplitStatements | internal/migration/split.go:10-86 | the index-driven scan, with its line loops over comments and transaction words, computes the split of the lexical definition |
| SqlKept.KeptExactly | internal/migration/split.go:15-112 | a trimmed piece is one of the statements if and only if some line of it is neither blank nor a comment, and its code lines, joined, do not spell BEGIN, BEGIN TRANSACTION, START TRANSACTION, COMMIT, END or ROLLBACK in any case |
| SqlKept.CommentedStatement | internal/migration/split.go:15-96 | a comment line before a statement stays with it and changes nothing about whether it is kept |
| SqlScript.ScanElement | internal/migration/split.go:24-83 | each turn of the scan ends at the end of the comment, quoted string, dollar-quoted body or character it started at |
| SqlScript.ScanQuoted | internal/migration/split.go:42-59 | quoted strings end at their closing quote, past doubled quotes and escapes |
| SqlScript.ScanDollar | internal/migration/split.go:60-77 | dollar-quoted bodies end at their own tag; a $1 is one character |
| SqlElements.QuotedIsOneElement | internal/migration/split.go:42-59 | a string in any of the three quotes is one element |
| SqlElements.DollarQuotedIsOneElement | internal/migration/split.go:60-77 | a dollar-quoted body runs to the next occurrence of its own tag, or to the end |
| SqlElements.OtherDollarIsOneCharacter | internal/migration/split.go:60-77 | a dollar sign without a tag is one character |
| SqlElements.CommentsAreOneElement | internal/migration/split.go:27-41 | a comment runs to the end of its line, or to its closing mark |
| SqlElements.OtherCharacters | internal/migration/split.go:24-83 | every other character is an element of its own |
| SqlScript.PiecesRebuildScript | internal/migration/split.go:10-86 | the raw pieces joined by semicolons are the script, character for character |
| SqlScript.CutsOnlyTopLevel | internal/migration/split.go:10-86 | the script is cut exactly at the semicolons that are lexical elements of their own |
| SqlScript.InsideIsNotTopLevel | internal/migration/split.go:10-86 | a position inside a quote, comment or body never starts an element, so it is never a cut |
| SqlResplit.SplitIsSplittable | internal/migration/split.go:10-112 | every statement of a split is trimmed, worth keeping and lexically closed (the last one may run to the end) |
| SqlResplit.ResplitIsIdentity | internal/migration/split.go:10-112 | splitting the statements joined by newline-semicolon-newline returns the same list, for every script |
| MigrationFile.BuildUpSql | internal/migration/generator.go:72-99 | the two appended slices give the file: transactional statements between BEGIN and COMMIT, then the marker and the concurrent ones |
| MigrationFile.SplitConcurrent | internal/migration/runner.go:345-367 | the lines before the marker, joined, and the code lines after it |
| MigrationFile.OneStatementIsWellFormed | internal/migration/generator.go:72-99 | a statement with one top-level semicolon at its end, kept by the split, and without the marker line is one the round trip covers |
| MigrationFile.FileRunsTheSameStatements | internal/migration/generator.go:52-99 | a generated file parses back to the original transactional statements without their final semicolon and the original concurrent ones, in order |
| MigrationRun.RunOutside | internal/migration/runner.go:265-270 | statements outside the transaction run in order up to the first that fails |
| MigrationRun.ApplyMigration | internal/migration/runner.go:235-271 | whatever BEGIN, a statement, the bookkeeping INSERT or COMMIT answers after the history so far: the transaction's statements and the bookkeeping row are left if and only if all of these succeed, and otherwise the database is as before; the rest runs afterwards until one fails |
| MigrationRun.ApplyStatements | internal/migration/runner.go:311-342 | the same for a list without bookkeeping; nothing runs without the lock |
| MigrationRun.FailureLeavesNothing | internal/migration/runner.go:245-260 | the first statement that fails, wherever it stands, undoes all before it |
| MigrationRun.FileAppliesLikeStatements | internal/migration/runner.go:235-342 | applying the file commits exactly when applying the list does and the bookkeeping row can be inserted; then both leave the same statements in the same order, and fail alike, for any database whose answers depend on what has run up to the trailing semicolon |
| CycleCheck.BuildAdjacency | internal/config/validator.go:242-251 | the adjacency map is the graph of references to other entities |
| CycleCheck.Search.Dfs | internal/config/validator.go:254-272 | every step keeps the colouring: the path is what is in progress, finished nodes stand with their targets first until an error is reported, every reported path is a walk back into itself |
| CycleCheck.DetectCircularRefs | internal/config/validator.go:239-282 | no error if and only if the reference graph is acyclic; every reported path is a walk whose last node occurs earlier in it |
| FkGraph.FollowUntilRepeat | internal/migration/engine.go:338-402 | in a finite set where every node has a target in the set every node reaches a cycle |
| FkGraph.TargetsFirstIsAcyclic | internal/migration/engine.go:338-402 | no node of a list in which targets come first reaches a cycle |
| TopoSort.Release | internal/migration/engine.go:380-387 | every repeated reference counts down once, and an entity is queued at most once, exactly when its last reference is placed |
| TopoSort.ReleaseAll | internal/migration/engine.go:379-388 | the in-degrees of all entities stay the numbers of unplaced references, and exactly those at zero are placed or queued |
| TopoSort.Place | internal/migration/engine.go:374-389 | when the queue runs dry the placed entities stand after all they refer to |
| TopoSort.UnplacedReachesCycle | internal/migration/engine.go:374-401 | an entity is left over exactly when its references lead into a cycle |
| TopoSort.TopoSortEntities | internal/migration/engine.go:338-402 | a permutation of the input for every graph; first the entities that reach no cycle, each after its references, then the others in input order; references come first everywhere if and only if there is no cycle |
| RefreshTokens.TokenTable.Rotate | internal/auth/refresh.go:126-170 | uninterrupted: only a live, unexpired token rotates and is consumed; a used one revokes exactly the rows of its family that are not revoked; nothing else changes a row |
| RefreshTokens.TokenTable.Issue | internal/auth/refresh.go:69-87 | stores a live token unless id or digest collide |
| RefreshTokens.PresentedOutcome | internal/auth/refresh.go:126-150 | of a presented token only a live, unexpired one goes on to be consumed, a used one leads to the revocation of its family, any other ends the request |
| RefreshTokens.ConsumedOrRevoked | internal/auth/refresh.go:150-187 | the update consumes the checked row if it is still live; a request that lost the race revokes the family it presented |
| RefreshTokens.SuccessorJoinsTheFamily | internal/auth/refresh.go:191-242 | a rotation's successor is a live token of the same user and family, and nothing else changes |
| RefreshTokens.RevocationIsLocal | internal/auth/refresh.go:172-187 | a revocation sets revoked_at on the rows of its family, or of its user, that have none, and changes nothing else |
| RefreshTokens.HolderIsLost | internal/auth/refresh.go:126-273 | in every state a family loses a live token exactly by its consumption or by a revocation of the family or of the token's user, and a rotation in flight exactly when it ends |
| RefreshTokens.RotationIsExclusive | internal/auth/refresh.go:126-187 | in every interleaving each row is consumed at most once and each family has at most one among live tokens and rotations in flight |
| RefreshTokens.DeadFamilyStaysDead | internal/auth/refresh.go:172-273 | a family with neither is never again consumed from or added to, in any run |
| RefreshTokens.RevokeKillsUnlessRotating | internal/auth/refresh.go:172-187 | revoking a family leaves it dead if and only if no rotation of it is in flight |
| RefreshTokens.ReuseRevokesFamily | internal/auth/refresh.go:126-187 | presenting a consumed token leads to the revocation of its family, which is dead then if and only if no rotation of it is in flight |
| RefreshTokens.LogoutAllKillsUnlessRotating | internal/auth/refresh.go:181-187 | in every run, revoking all tokens of a user leaves each of that user's families dead if and only if no rotation of it is in flight |
| RefreshTokens.RotationSurvivesRevocation | internal/auth/refresh.go:191-242 | any rotation in flight when its family is revoked can still store a live successor |
| RefreshTokens.RevocationCanMissRotation | internal/auth/refresh.go:191-242 | a run from the empty table in which a revoked family gets a live token |
| WorkQueue.Queue.Due | internal/queue/queue.go:68-99 | at most limit due rows, earliest next attempt first, none left out that is earlier |
| WorkQueue.Queue.Claim | internal/queue/queue.go:102-111 | exactly a pending row whose lease has passed is claimed |
| WorkQueue.Queue.Fail | internal/queue/queue.go:121-136 | dead at the limit or when permanent, otherwise rescheduled by the backoff |
| WorkQueue.ClaimableFromLeaseEnd | internal/queue/queue.go:102-111 | while a worker owns a row another can claim it exactly from the end of its lease on |
| WorkQueue.ResultsMove | internal/queue/queue.go:114-136 | a result changes only its own row: a success finishes it, a last or permanent failure ends it, any other reschedules it |
| WorkQueue.RescheduledIsDueLater | internal/queue/queue.go:68-136 | a row that was put back can be polled exactly from its retry time on |
| WorkQueue.LeasesAreExclusive | internal/queue/queue.go:68-141 | with any number of workers, punctual or not, no two are ever at work on one row in a run if and only if no claim comes at or after the end of the lease of a worker still at work |
| WorkQueue.PunctualIsExclusive | internal/queue/queue.go:68-141 | workers that finish or stop within their lease never share a row |
| WorkQueue.HowARowIsLost | internal/queue/queue.go:102-141 | in every state a worker at work loses its row if and only if another holder reports a result or another claims the row from the end of the lease on |
| WorkQueue.OnlyLateResultsReopen | internal/queue/queue.go:114-141 | in every state a finished row changes its status if and only if a worker that has lost the row reports: a success on a dead one, a last failure on a done one |
| WorkQueue.TerminalRowsStay | internal/queue/queue.go:114-141 | in every run in which no worker is overtaken done and dead rows never change again; only a done one can disappear |
| WorkQueue.OnlyDoneDisappears | internal/queue/queue.go:139-141 | whatever removes a row is a purge of an old done row |
| WorkQueue.AbandonedRowIsClaimable | internal/queue/queue.go:102-111 | in every run a pending row's lease ends within two minutes; from then on the next worker to poll and claim it gets it |
| WorkQueue.LateFailOverwritesDone | internal/queue/queue.go:114-136 | a run from the empty queue in which two workers are at work on one row and the late failure of the first turns the row the second has done into a dead one |
| WorkQueue.BackoffFollowsPolicy | internal/queue/queue.go:121-136 | for every jitter and platform the delay is the capped doubling with jitter if and only if the doubling fits 64 bits or wraps around to at least the cap, and 1.2 times the planned delay fits 64 bits |
| WorkQueue.JitterIsClose | internal/queue/queue.go:131-132 | the planned delay with jitter is within 20 percent of it, and is what is computed on every platform if and only if it fits 64 bits |
| WorkQueue.BackoffOverflows | internal/queue/queue.go:121-136 | an input outside that condition: the delay is negative, so the row is retried at once |
| WorkQueue.DoublesTwentyTimes | internal/queue/queue.go:131 | the planned delay doubles with each attempt up to the 21st and not after it |
| WorkQueue.WrapIsCongruent | internal/queue/queue.go:131 | the wrapped product is the one 64-bit number that differs from it by a multiple of 2^64 |
| Idempotency.KeyRow.Claim | internal/handler/idempotency.go:126-163 | the key is obtained exactly when free or expired; otherwise the stored entry is returned unchanged |
| Idempotency.KeyRow.Settle | internal/handler/idempotency.go:104-116 | a status of 500 or more, or none, frees the key; any other status is stored with its body |
| Idempotency.GuardedExactlyWithoutRemoval | internal/handler/idempotency.go:50-163 | in every interleaving from a free key there is at most one handler, guarded by its entry, throughout if and only if no step deletes the entry of an active handler |
| Idempotency.OneHandlerAtATime | internal/handler/idempotency.go:50-163 | in every run without such a step the handler runs for at most one request at a time |
| Idempotency.SecondHandlerByAge | internal/handler/idempotency.go:126-163 | a request that reads the entry of an active handler starts a second one if and only if the entry's age at its arrival has reached the ttl |
| Idempotency.DeletedExactlyWhenOld | internal/handler/idempotency.go:126-163 | in every run entries are deleted for their age if and only if a request or a sweep sees one at the ttl |
| Idempotency.YoungIsExclusive | internal/handler/idempotency.go:50-163 | a key whose entries are never seen at the ttl has at most one handler at a time, in every run |
| Idempotency.RemovalLetsSecondStart | internal/handler/idempotency.go:126-163 | after a step that deletes an active handler's entry any new request runs beside it |
| Idempotency.OneRetry | internal/handler/idempotency.go:126-163 | a request deletes an expired entry at most twice, then it gives up |
| Idempotency.SlowHandlerRace | internal/handler/idempotency.go:126-163 | a run from a free key: a handler outlives the ttl and one later request deletes its entry and runs beside it |
| Idempotency.NeverRunsAgain | internal/handler/idempotency.go:50-116 | after a response below 500 the handler never starts again in any run that does not see the entry at the ttl, however long |
| Idempotency.AnsweredNeverRunsAgain | internal/handler/idempotency.go:50-116 | after a response with a status from 1 to 499, stored or not, the handler never starts again in a run that does not see the entry at the ttl |
| Idempotency.LaterRequestsGetTheVerdict | internal/handler/idempotency.go:50-116 | once the request is over every later answer in such a run is the stored status and body for the same body, 422 for another one, and 409 if the response was lost |
| Idempotency.StoredAnswerIsReplayed | internal/handler/idempotency.go:50-116 | a stored response with a status from 1 to 499 is in the entry with exactly that status and body, and every later request in such a run gets it, or 422 for another body |
| Idempotency.FailureFreesTheKey | internal/handler/idempotency.go:104-116 | after a status of 500 or more, or none, the entry is gone and the next request runs the handler |
| Idempotency.ExpiredEntryRace | internal/handler/idempotency.go:126-163 | a run from a free key: two requests find the entry of a crashed one expired; the second deletes the fresh entry of the first and runs beside it |
| JobLock.Locker.Lock | internal/cron/locker.go:46-72 | the lock is obtained exactly when there is no row or an expired one |
| JobLock.LocksAreExclusive | internal/cron/locker.go:46-82 | in every interleaving two unexpired leases never overlap and runs start at least minHold whole seconds apart |
| JobLock.LateUnlockIsHarmless | internal/cron/locker.go:75-82 | in every run a holder whose acquisition was followed by another one leaves the row alone when it unlocks; the last one shortens its lease to minHold |
| JobLock.CrashedHolderExpires | internal/cron/locker.go:46-72 | after the lease of a crashed holder the next replica to try obtains the lock |
| Upsert.Target.Write | internal/handler/upsert.go:71-135 | the action reported and the row left, for every conflict mode, row visibility, guard and soft-deleted state |
| Upsert.CreatedRowHolds | internal/handler/upsert.go:71-85 | a created row holds every field that was given, keys and immutable columns included |
| Upsert.Target.UpdateGuarded | internal/query/builder.go:369-456 | changes the row exactly when the guard admits it and something is assigned or revived |
| Upsert.StripForUpdate | internal/handler/fieldmask.go:75-93 | drops exactly the server-managed columns and the natural key |
| Upsert.MutableExactly | internal/handler/fieldmask.go:75-93 | an upsert overwrites a field exactly when it is neither natural key nor primary key, immutable, filled by the server, nor a managed timestamp |
| Upsert.StoredIsBest | internal/handler/upsert.go:86-135 | after any deliveries and deletions the mutable columns are those of the first delivered message with the greatest guard |
| Upsert.FixedColumnsStay | internal/handler/upsert.go:86-135 | whatever is delivered afterwards, a natural-key, immutable or otherwise fixed column keeps the value of the first message |
| Upsert.SoftDeleteMarks | internal/query/builder.go:502-535 | a soft delete marks the row and keeps its columns |
| Upsert.BestIsFirst | internal/handler/upsert.go:86-135 | that message is the earliest one no other exceeds |
| Upsert.DeliveriesConverge | internal/handler/upsert.go:86-135 | with distinct guards every order and repetition of the same messages ends in the same mutable columns |
| Upsert.RevivedExactlyByNewer | internal/query/builder.go:369-456 | a soft-deleted row is revived by a newer message and left untouched by any other |
| Upsert.ImmutableGuardLosesOrder | internal/query/builder.go:369-456 | with a guard column updates may not change, an older message overwrites a newer one |
| Calendar.DayNumberGrows | internal/timefmt/timefmt.go:196-199 | later dates have larger day numbers |
| Calendar.DaysOfYears | internal/timefmt/timefmt.go:477-481 | leap years come every fourth year, except every hundredth, but not every four hundredth |
| Calendar.PadReads | internal/timefmt/timefmt.go:294-300 | a padded number has exactly its width and reads back as the number |
| SqliteTime.TextOrderIsTimeOrder | internal/timefmt/timefmt.go:196-199 | for all UTC times of the years 0 to 9999 the encodings compare as text exactly like the times truncated to microseconds, and are equal exactly when those are |
| SqliteTime.WholeSecondHasNoFraction | internal/timefmt/timefmt.go:196-199 | a time is written in 19 characters, like CURRENT_TIMESTAMP, exactly when its microseconds are zero |
| SqliteTime.Bind | internal/query/builder.go:87-109 | for SQLite every time becomes its text in its own place and nothing else changes, whatever the time |
| SqliteTime.BoundTimesCompare | internal/query/builder.go:81-109 | two bound times compare in a byte-ordered column as the times do to the microsecond, for <, > and = |
| SqliteTime.TimeCursorKeepsItsPlace | internal/query/cursor.go:30-85 | whether the driver hands a stored time over as text or as a time, the cursor value bound on the next request is the stored text |
| TimePattern.Tokenize | internal/timefmt/timefmt.go:243-282 | the scan computes the tokens of the recursive reading |
| TimePattern.FirstMatchIsLongest | internal/timefmt/timefmt.go:240-263 | the first token tried that fits is the longest that fits |
| TimePattern.TokenizeLosesNothing | internal/timefmt/timefmt.go:243-282 | the tokens spell the pattern without its brackets; it is refused if and only if a bracket is open or no token has two letters |
| TimePattern.LiteralsAreMerged | internal/timefmt/timefmt.go:243-282 | literal text between two tokens is one literal |
| TimePattern.Render | internal/timefmt/timefmt.go:118-135 | the rendered text is that of the tokens in order |
| TimePattern.TokensShow | internal/timefmt/timefmt.go:309-367 | every token, by its spelling, shows the field it stands for, month and day names written out |
| TimePattern.WeekdaysFollow | internal/timefmt/timefmt.go:329-332 | the day names of consecutive dates follow one another |
| TimePattern.EpochIsThursday | internal/timefmt/timefmt.go:329-332 | 1 January 1970 is shown as a Thursday |
| TimeParse.ParsePattern | internal/timefmt/timefmt.go:371-483 | the loop over the tokens computes the recursive reading |
| TimeParse.Num | internal/timefmt/timefmt.go:378-389 | reads at least min and at most max digits |
| TimeParse.OffsetsRead | internal/timefmt/timefmt.go:485-511 | +hh:mm and -hh:mm, with or without colon, read as that many seconds east or west |
| TimeParse.FoldsCase | internal/timefmt/timefmt.go:391-398 | names match when every letter is the same or the other case of the same ASCII letter |
| TimeRoundTrip.RunOnKeepsDay | internal/timefmt/timefmt.go:477-481 | normalising a date keeps the day it denotes |
| TimeRoundTrip.TimeDateKeepsSecond | internal/timefmt/timefmt.go:477-481 | whatever carries over, the normalised date and time denote the same second |
| TimeRoundTrip.DayZeroIsTheDayBefore | internal/timefmt/timefmt.go:477-481 | day 0 of a month is the last day of the month before |
| TimeRoundTrip.TimeDateKeepsValid | internal/timefmt/timefmt.go:477-481 | normalisation changes nothing exactly when date and time of day are valid |
| TimeRoundTrip.AcceptedNeedsNoNormalising | internal/timefmt/timefmt.go:465-482 | an accepted text denotes a real date and time, with exactly the components it was read from |
| TimeRoundTrip.ReadsBack | internal/timefmt/timefmt.go:309-464 | reading a rendered text consumes all of it and collects what each token showed |
| TimeRoundTrip.RoundTrip | internal/timefmt/timefmt.go:309-483 | for every separable pattern and UTC time of the years 0 to 9999 parsing the rendered text gives the truncated time exactly when a two-digit year means 2000 to 2099, the hour can be told, and it is not 29 February without a year |
| TimeRoundTrip.UnseparatedIsAmbiguous | internal/timefmt/timefmt.go:309-367 | without a separator two dates share one text |
| RateLimit.WaitIsExact | internal/middleware/ratelimit.go:21-34 | a denied client that retries alone is allowed if and only if the announced wait has passed |
| RateLimit.StaysInRange | internal/middleware/ratelimit.go:21-34 | tokens stay between 0 and max |
| RateLimit.SweepingIsInvisible | internal/middleware/ratelimit.go:81-100 | on every request sequence the limiter answers exactly like one that never drops a bucket |
| RateLimit.GrantsArePaid | internal/middleware/ratelimit.go:21-34 | grants never exceed the level at the start plus what is earned until the last request |
| RateLimit.AtMostMaxPlusRate | internal/middleware/ratelimit.go:21-100 | in any window of length d one key is granted at most max + rate * d requests |
| RateLimit.RateLimiter.Sweep | internal/middleware/ratelimit.go:81-92 | at most once per idleTTL, drops exactly the buckets idle for longer |
| RateLimit.RateLimiter.Allow | internal/middleware/ratelimit.go:95-100 | sweeps, finds or creates the key's bucket and takes from it |
| Relations.DistinctKeys | internal/query/relations.go:161-176 | one key for every text among the rows' non-nil keys, and no other |
| Relations.FetchIn | internal/query/relations.go:101-144 | the batches of 500 return every live row once for each batch that finds it |
| Relations.BatchesOfFiveHundred | internal/query/relations.go:101-106 | a batch has up to 500 keys |
| Relations.BatchesAreOneQuery | internal/query/relations.go:101-144 | as a multiset that is what one query with all keys returns if and only if no live row is found by two batches |
| Relations.IndexBy | internal/query/relations.go:148-159 | every group holds the rows of its key text, in order, after the hook |
| Relations.GroupIgnoresOrder | internal/query/relations.go:148-159 | a group's contents do not depend on the order in which the database answers |
| Relations.GroupIsLookup | internal/query/relations.go:101-176 | for a key that texts decide the group of a row's key is that row's own lookup, after the hook, whatever was fetched with it |
| Relations.GroupsAreLookups | internal/query/relations.go:101-176 | for every database equality: every row with a key gets exactly its own lookup if and only if, among the live rows some key finds, a key finds a row exactly when their texts agree |
| Relations.CaseMisses | internal/query/relations.go:148-176 | a failing input: under a case-insensitive collation a row's lookup is not empty but its group is |
| Relations.JoinLookup | internal/query/relations.go:117-130 | a many-to-many lookup returns every live related row once per link |
| Relations.Include | internal/query/relations.go:22-94 | refuses exactly for an unknown entity, another database, an unknown junction or kind, and leaves the rows alone then; otherwise every row changes only in the relation: belongs_to gets a live related row whose primary key is the row's foreign key or null, has_one and has_many the live rows whose foreign key is the row's primary key, many_to_many the linked rows, when texts decide; a row without a key gets nothing unless rows of an empty key were fetched |

## Left out

- HTTP handling, routing, authentication middleware, logging, metrics, OpenAPI and YAML loading: no state worth a proof.
- Offset pagination: List and Count model the query text, not the stability of offsets.
- The JSON and Base64 text of a cursor: kept as structured values, because the libraries are lossless on them.
- The configured expression of a row-access rule: its outcome for a subject is an input of ResolveRowFilter.
- Two's-complement overflow of a placeholder number with more than 18 digits in reindexFilter.
- Sharing of attached related rows between owners: rows are values in Relations, so a hook that changes a row after it was attached is not captured.
- keyString itself: Relations takes any text function and any equality of the database.
- Statement errors in the middle of the row protocols: a request that fails is one that stops.
- Clock differences between replicas: all processes read one clock, though statements may carry an earlier reading of it.
- PolicyFrom and attempt counts across workers: attempts come from a read before the claim, so no exact count holds across replicas.
- Field names that differ from their columns in Upsert: a message is keyed by column.
- Concurrent sweeps and requests in the rate limiter: requests run one after another, with non-decreasing times; counts are exact reals.
- Time zones other than UTC, leap seconds and case folding outside ASCII in month and weekday names.
- RFC 3339 presets, unix formats and FromDriver: the Go library reads and writes them.
- Years before 0 and after 9999 in the SQLite text form.
- The Down half of a migration and checksums: the digest is any string of hexadecimal digits.
- TopoSort.TopoSortEntities: does not state the order among entities that are ready at the same time, because the program promises none.
- WorkQueue.TerminalRowsStay: covers runs in which no worker is overtaken; WorkQueue.OnlyLateResultsReopen says of all other steps which of them change a finished row.
- MigrationRun.ApplyMigration: assumes that DDL takes part in the transaction; on MySQL every DDL statement commits by itself.
- MigrationRun.FileAppliesLikeStatements: statements of a migration are taken not to concern the bookkeeping table.
- Relations.Include: says nothing of the attached rows when texts do not decide; Relations.GroupsAreLookups says when that is.
- MigrationFile.FileRunsTheSameStatements: requires a name without a line break, because the name is written into one comment line.
- QueryText.FragmentClause: requires a fragment numbered from one; RowAccess.BindingsInOrder says which configured filters are.
- RowAccess.ScopeTenant: requires the same of the row filter it extends.
- QueryText.BaseWhere: requires the same of the row filter.
- QueryText.FilterClause, QueryText.SearchClause, QueryText.KeysetText: names of columns have no $ before a digit, which the configuration does not check; QueryText.QuotedNameSurvives says when that matters for ? databases, and quoted names are not set apart for $n databases.
- QueryBuilder.List, QueryBuilder.Count, QueryBuilder.GetRow, QueryBuilder.Create, QueryBuilder.InsertGiven, QueryBuilder.ReadBack, QueryBuilder.Update, QueryBuilder.FindByKey, QueryBuilder.DeleteRow, QueryBuilder.FetchIn, QueryBuilder.FetchJoin: the same about the names of tables and columns.
- RowAccess.BindingsInOrder: does not set SQL string literals in a row filter apart from the rest of its text.
- Reading a migration file and taking the migration lock: the content and whether the lock was obtained are inputs.
- Driver errors while a query's rows are read: QueryBuilder models the statement and what its result means.
