# libc2sql, modelled and verified in Dafny

libc2sql maps C structs to database rows. This project models its statement cache, SQL builder, parameter
binder, row mapping, schema registry, table migration, nested transactions and public calls, and proves what
they promise. The backend is a small reference database: tables with constraints, SQL three-valued logic
(section 8.12 of SQL-92, ISO/IEC 9075:1992), a stack of named snapshots (savepoints, clause 16 of
ISO/IEC 9075-2:1999) and prepared statements with text, bound values and a cursor. It reads the SQL text the
library prints, character by character, so theorems about results go through the text.

How the parts build on each other:

- `Core`, `Bits`, `RowBytes`: values, bit operations, little-endian integers, the NULL bitmap.
- `LruSpec`, `StmtCache`, `Ledger`, `Traces`: the cache as a sequence, the cache as linked entries and hash chains, and the
  ledger equation `cached + held + finalized == all ever prepared`.
- `SqlText`, `SqlGrammar`, `SqlStatements`, `Queries`, `QueryParsing`, `PgParams`: what the library prints, a lexer and
  parser for it, and the round trip.
- `SqlEngine`, `TableSpec`, `QueryMeaning`: running statements, what queries mean for rows, and that the two agree.
- `SqlFragments`, `QueryBuilder`: the growing buffer and the printing routines.
- `Driver`, `RowMapping`, `Handle`, `TxSpec`, `ApiSpec`: the driver, binding and reading structs, the public calls and
  their specifications.
- `Runs`, `Iteration`, `ApiMeaning`, `RunMeaning`, `Batches`, `Guard`: whole runs, iterators, calls and runs in terms of rows,
  batches as single writes, and the generated capacity guard.
- `Registry`, `Migration`, `Registration`, `StrictScanner`: registration and table layout.

Each public call is specified as if its statement were prepared for that one use. `Runs.RunCalls` proves that
the calls as written, with a cache of any size and contents and with SQLite's reset that keeps old values, do
exactly that in every run. `QueryMeaning.QueryMeans` and `ApiMeaning` say what it is in terms of rows, and
`RunMeaning` carries that to runs: tables stay served, reads answer by the rows that match, and what is written is read back.

Memory failures, driver failures and the outcome of backend requests are parameters (`allocOk`, `tmpOk`, `up`, ...), so the
contracts cover them. The comparison of two values that are not NULL is a parameter too (`cmp`).

Where code and documentation disagree the model follows the code:

- A failed cache rebuild is documented to preserve the cache. It evicts first, so it does exactly when the entries fit (`Rebuild`, `FailedRebuildEvicts`).
- NULL is documented to leave the struct member unchanged. The single-row read overwrites it with zeros (`NullMemberZeroed`);
  `ReadRow`, iterators and multi-row reads do leave it.
- The STRICT scan can fail to end (`ScanMeans` says exactly when).
- A condition with a match-all below AND or OR, and an upsert on a schema with only its key, print text that is no statement
  (`QueryRoundTrip` says exactly when text is one).
- A 128-character column name is valid but is lost on introspection (`DeclaredAgrees`).
- A single-row read whose temporary bitmap cannot be allocated returns OK without the NULL bits (`ReadSingle`).

## Model

| member | source | states |
|---|---|---|
| Runs.RunCalls | src/c2sql.c:344-388 | For every run of write, batch, read, delete, count, BLOB, transaction and resize calls from every valid state, results, tables and transaction stack equal those of the specification in which each statement is prepared for one use; neither cache contents nor capacity appear in it |
| Runs.RunCall | src/c2sql.c:803-1292 | One call of any of these kinds, and each write and read, refines its single-use specification and keeps the handle's invariant |
| Runs.RunWrite | src/c2sql.c:437-566 | Write and WriteMany refine their single-use specifications |
| Runs.RunChange | src/c2sql.c:803-860 | Delete and WriteBlobField refine theirs |
| Runs.RunQuery | src/c2sql.c:866-922 | Count and ReadBlobField refine theirs |
| Runs.RunRead | src/c2sql.c:572-699 | Read refines its own, including what it leaves in the caller's buffers |
| Runs.RunTx | src/c2sql.c:935-1030 | Begin, commit and rollback, with each way the driver can fail, are steps of a stack of snapshots |
| Runs.CallIsEvent | src/c2sql.c:935-1030 | Every call is one event: a begin, commit or rollback call is the event of its name exactly when it returns OK, and every other call changes the tables at most and keeps the snapshots |
| Runs.RunIsEvents | src/c2sql.c:935-1030 | The events of a run, one for each call, can happen one after the other and lead to the very world the run leads to, driver failures included |
| Runs.RollbackRunRestores | src/c2sql.c:998-1030 | Begin, any calls whose begins and ends balance, failed ones included, rollback: tables and enclosing snapshots are what they were at the begin |
| Runs.CommitRunKeeps | src/c2sql.c:969-996 | Begin, any such calls, commit: the tables those calls made, the enclosing snapshots unchanged |
| Runs.DoesKeepsWorld | src/c2sql.c:803-1292 | Every call keeps all tables and snapshots well shaped and the depth within 16 |
| RunMeaning.DoesKeepsServed | src/c2sql.c:803-1292 | No call takes a registered struct's table or one of its columns away, in the tables or in a snapshot a rollback could restore |
| RunMeaning.ReadInRows | src/c2sql.c:572-699 | A read answers by the rows that match: NOT_FOUND or MULTIPLE_ROWS with the buffers untouched, or the row delivered |
| RunMeaning.CountInRows | src/c2sql.c:866-922 | A count call returns the number of rows that match |
| RunMeaning.DeleteInRows | src/c2sql.c:803-860 | A delete call leaves exactly the rows that do not match and returns how many did |
| RunMeaning.WriteBlobInRows | src/c2sql.c:1097-1180 | A field write sets the bytes in the one row that matches, in that column alone; with none or several matching nothing changes |
| RunMeaning.ReadBlobInRows | src/c2sql.c:1182-1292 | A field read returns the bytes of the one row that matches, and none otherwise |
| RunMeaning.FieldCallRefused | src/c2sql.c:1114-1124 | Whatever the condition, a field call on a column that does not exist is UNKNOWN_COLUMN and on one that is no BLOB INVALID_ARG, without effect |
| RunMeaning.ReadShows | src/c2sql.c:572-699 | A read that delivers a row warns exactly when some value of it that is not NULL cannot be read off the caller's struct, and adds exactly its NULL bits |
| RunMeaning.ArgumentsRefused | src/c2sql.c:497-497 | An empty batch, a stride of 0 and a delete without a condition are INVALID_ARG without effect |
| RunMeaning.UnknownRefused | src/c2sql.c:501-507 | Every call on a struct that is not registered is UNKNOWN_STRUCT without effect, the buffers included |
| RunMeaning.ConditionRefused | src/query_builder.c:153-176 | A condition on a column the struct does not have is UNKNOWN_COLUMN and a nested match-all a driver error, in every call that takes one, without effect |
| RunMeaning.TxRefused | src/c2sql.c:935-1030 | NESTED_TX at depth 16, NO_ACTIVE_TX outside a transaction and a driver error when the backend refuses, without effect; a nested rollback whose release fails restores the tables and keeps the level |
| RunMeaning.ReadAfterRun | src/c2sql.c:572-699 | After any run of calls a read answers by the rows that match in the tables the run left |
| RunMeaning.WriteInRows | src/c2sql.c:437-490 | After a write that succeeds exactly one row has its key, and it is the struct that was written |
| RunMeaning.WriteThenRead | src/c2sql.c:437-699 | After a write that succeeds a read by its key delivers every column of the struct that was written, with a warning exactly when a TEXT had no terminator |
| Handles.Handle.GetOrPrepare | src/c2sql.c:344-379 | The statement returned has that text, all its placeholders and no open cursor; it is cached or owned; the cache contents are the LRU acquisition, after a failed put those the put leaves, and otherwise as they were; errors happen exactly for text SQLite rejects or for lack of memory |
| Handles.Handle.CachePrepared | src/c2sql.c:365-378 | Handing a statement to the cache and taking it back keeps every prepared statement accounted for, also when the put fails |
| Handles.Handle.Release | src/c2sql.c:382-388 | After use an owned statement is finalized and a cached one is idle again; the full invariant holds |
| Handles.Handle.Open | src/c2sql.c:455-471 | Building and acquiring: success gives a statement with exactly as many placeholders as the query binds; every failure has its exact cause |
| Handles.BindCondValues | src/c2sql.c:300-332 | The binder writes the leaves, left to right, to consecutive placeholders from the start index and touches no other; it fails exactly when they do not fit |
| Handles.Handle.BindQuery | src/c2sql.c:1152-1169 | Field at 1 and condition from 2, or condition from 1: every placeholder is rebound |
| Handles.Handle.Start | src/c2sql.c:610-628 | Whatever values an earlier use left bound, the first step answers what a fresh statement would |
| Handles.Handle.WriteOne | src/c2sql.c:473-481 | Bind and step have the effect of the statement on a database by itself, or NOT NULL violation and no effect |
| Handles.Handle.Write | src/c2sql.c:437-490 | Status and tables of a single write for every struct, row, bitmap and cache state |
| Handles.Handle.WriteRows | src/c2sql.c:542-553 | The loop over rows is the left fold of single writes up to the first failure |
| Handles.Handle.WriteBatch | src/c2sql.c:529-561 | Outside a transaction the whole fold or nothing; inside, the fold of the rows before the failure |
| Handles.Handle.WriteMany | src/c2sql.c:492-566 | The batch contract for the public call, with begin failure and lack of memory |
| Batches.WriteManyIsWrites | src/c2sql.c:492-566 | A batch call on an array of structs, with an array of bitmaps or none, is the single writes of those structs in order up to the first that fails: if none fails it leaves the world they leave; if one does it has that write's status and leaves, inside a transaction, the world of the writes before it and, outside, the world there was |
| Batches.RowStands | src/c2sql.c:540-545 | The row and bitmap the loop takes for index i begin with struct i and bitmap i |
| Batches.StoreAllRuns | src/c2sql.c:542-553 | The fold over a batch is a run of single write calls up to the first failure |
| ApiSpec.StoreAllPrefix | src/c2sql.c:542-553 | What an unfinished batch leaves is the fold of exactly the rows before the failing one |
| Handles.Handle.Read | src/c2sql.c:572-699 | NOT_FOUND, MULTIPLE_ROWS and every error leave the buffers as they were; one row is delivered |
| Handles.Handle.ReadSingle | src/c2sql.c:643-698 | The temporary row is published only when there is no second row; without memory for the temporary bitmap it is published without its NULL bits |
| Handles.Handle.Delete | src/c2sql.c:803-860 | A missing condition is refused; otherwise the rows and the count of the single-use statement |
| Handles.Handle.Count | src/c2sql.c:866-922 | The count and unchanged tables |
| Handles.Handle.CountMatching | src/c2sql.c:1054-1095 | 0, 1, or 2 for two or more, on a statement that is finalized on every path |
| Handles.Handle.WriteBlobField | src/c2sql.c:1097-1180 | Checks, pre-flight count and update as one specification |
| Handles.Handle.ReadBlobField | src/c2sql.c:1182-1292 | Bytes are returned only on OK, and nothing is held afterwards |
| Handles.FindColIndex | src/c2sql.c:1042-1047 | The first column of that name, or -1 |
| Handles.Handle.ReadMany | src/c2sql.c:701-761 | An iterator holds one new statement, or none on failure, with the exact cause |
| Handles.Handle.StmtNext | src/c2sql.c:763-785 | One step of the iterator's statement; the row is read in place, the end leaves the buffers alone |
| Iteration.Iterate | src/c2sql.c:701-797 | Opening an iterator, stepping it any number of times and freeing it delivers the matching rows in table order, then the end; after the end PostgreSQL stays there and SQLite starts again |
| Iteration.Walk | src/c2sql.c:763-785 | The k-th step delivers the k-th matching row into the caller's buffers, counting as the dialect does |
| Iteration.AnswerInOrder | src/postgres_driver.c:235-259 | What step k answers, as row k of the result or the end |
| Handles.Handle.StmtFree | src/c2sql.c:787-797 | The iterator's statement is finalized once |
| Handles.Handle.SetConfig | src/c2sql.c:236-258 | Resizing keeps the most recent statements that fit, in order, finalizes the others and keeps the invariant |
| Handles.Handle.Close | src/c2sql.c:199-230 | The open transaction is undone if the backend carries the rollback out; with no iterators open every statement ever prepared has been finalized exactly once, either way |
| ApiMeaning.WriteMeans | src/query_builder.c:281-309 | On a table that fits the schema a write replaces the whole row with its key or appends the row, unless a constraint forbids it |
| ApiMeaning.WriteRefused | src/type_mapping.c:62-65 | A NULL in a column that is not nullable is NOT_NULL_VIOLATION without effect |
| ApiMeaning.SelectMeans | src/c2sql.c:592-633 | A read returns exactly the matching rows in table order |
| ApiMeaning.CountMeans | src/c2sql.c:883-917 | A count is the number of matching rows |
| ApiMeaning.DeleteRowsMeans | src/c2sql.c:820-856 | A delete leaves exactly the rows that do not match and reports the number of the others |
| ApiMeaning.WriteBlobMeans | src/c2sql.c:1126-1176 | With one match exactly that row changes, and only in that column; with none or several nothing does |
| ApiMeaning.FieldRefused | src/c2sql.c:1106-1124 | Whatever the condition: an unregistered struct, a missing column and a column that is no BLOB have their statuses; no table changes and no bytes are returned |
| ApiMeaning.ReadBlobMeans | src/c2sql.c:1211-1291 | The field is returned exactly when one row matches |
| ApiMeaning.OverwrittenOne | src/c2sql.c:1126-1176 | Overwriting a column where one row matches is an update of that one cell |
| TableSpec.DeleteSplits | src/c2sql.c:849-856 | Matching and remaining rows together are the rows there were |
| TableSpec.DeleteEmpties | src/c2sql.c:849-856 | After a delete nothing matches |
| TableSpec.UpsertRows | src/query_builder.c:281-309 | An upsert replaces the row with the key or appends |
| TableSpec.UpsertAgain | src/query_builder.c:281-309 | A later upsert of the same key overrides an earlier one |
| Ledger.BalancedOwned | src/c2sql.c:334-388 | From the ledger equation: cached and held statements are live, distinct, and are all the live ones |
| Ledger.BalancedPrepare | src/c2sql.c:354-361 | A new statement is held by its preparer |
| Ledger.BalancedPut | src/stmt_cache.c:165-215 | Insertion, replacement, eviction, disabled mode and put failure keep each statement in exactly one place |
| Ledger.BalancedFinalize | src/c2sql.c:382-388 | Finalizing moves a held statement to the finalized ones |
| Ledger.BalancedDrop | src/stmt_cache.c:217-279 | Shrinking and destroying finalize what leaves the cache, once each |
| Ledger.ShelvedPut | src/stmt_cache.c:190-214 | Every entry that stays is still backed by an idle statement prepared from its key |
| Ledger.ShelvedAfter | src/sqlite_driver.c:193-195 | Running and resetting a statement leaves it ready for its next use although its old values stay bound |
| StmtCaching.StmtCache.Get | src/stmt_cache.c:149-163 | Refines lookup-and-move-to-front on the sequence of entries; the pointer invariant holds |
| StmtCaching.StmtCache.Put | src/stmt_cache.c:165-215 | Refines the sequence specification in all cases, says exactly which statements are finalized, and keeps the invariant |
| StmtCaching.StmtCache.Replace | src/stmt_cache.c:180-188 | The old statement of a present key is finalized and the entry moves to the front |
| StmtCaching.StmtCache.PutNew | src/stmt_cache.c:190-214 | A full cache evicts its last entry; a failed allocation finalizes the new statement |
| StmtCaching.StmtCache.EvictTail | src/stmt_cache.c:114-128 | The least recently used entry leaves both structures and its statement is finalized; on an empty cache nothing happens |
| StmtCaching.StmtCache.Rebuild | src/stmt_cache.c:217-263 | The most recent entries survive in order and are found under the new mask; NO_MEMORY exactly when the bucket count changes and cannot be allocated; whatever the status, the contents are preserved exactly when they fit the new capacity |
| StmtCaching.FailedRebuildEvicts | src/stmt_cache.h:85-92 | A rebuild of a two-entry cache that returns NO_MEMORY and loses an entry |
| StmtCaching.StmtCache.Shrink | src/stmt_cache.c:225-228 | The evict loop ends with the first entries kept, finalizing from the back |
| StmtCaching.StmtCache.Rehash | src/stmt_cache.c:240-259 | Every entry is chained again in the bucket its hash names |
| StmtCaching.StmtCache.Destroy | src/stmt_cache.c:265-279 | Every cached statement is finalized once |
| StmtCaching.StmtCache.constructor | src/stmt_cache.c:134-147 | An empty, valid cache of that capacity |
| StmtCaching.StmtCache.LruUnlink | src/stmt_cache.c:50-56 | The doubly linked list without that entry, head and tail included |
| StmtCaching.StmtCache.LruPushFront | src/stmt_cache.c:58-64 | The list with the entry in front |
| StmtCaching.StmtCache.LruPromote | src/stmt_cache.c:66-70 | The list with the entry moved to the front |
| StmtCaching.StmtCache.BucketFind | src/stmt_cache.c:76-85 | Walking a chain ends and finds the entry with that text, if it is chained |
| StmtCaching.StmtCache.BucketInsert | src/stmt_cache.c:95-99 | All chains stay acyclic and every entry stays in its own bucket |
| StmtCaching.StmtCache.BucketUnlink | src/stmt_cache.c:87-93 | Exactly that entry leaves the chains |
| StmtCaching.StmtCache.ContentsWellFormed | src/stmt_cache.c:50-128 | From the pointer invariant: keys are distinct and the size is within the capacity |
| StmtCaching.HashSql | src/stmt_cache.c:33-40 | The loop computes the djb2 hash modulo 2^64 |
| StmtCaching.SlotIsModulo | src/stmt_cache.c:42-44 | Masking the hash is reducing it modulo the bucket count |
| StmtCaching.NextPow2AtLeast | src/stmt_cache.c:19-23 | The least power of two at or above n, without overflow up to 2^63 |
| StmtCaching.DoublingReaches | src/stmt_cache.c:19-23 | The doubling loop on a 64-bit word ends exactly for n up to 2^63 |
| LruSpec.TraceMirrors | src/c2sql.c:344-379 | After every trace of acquisitions the keys are the first capacity keys of the distinct most-recent-first order |
| LruSpec.SmallerCacheIsPrefix | src/c2sql.c:344-379 | After every trace a smaller cache's keys are a prefix of a larger one's |
| Traces.UseAll | src/c2sql.c:344-388 | On a handle, after every trace of acquisitions and releases, refused texts included, the linked cache holds the first capacity keys of that order |
| LruSpec.MirrorsPrefix | src/c2sql.c:344-379 | So of two handles with the same history the smaller cache's keys are a prefix of the larger one's |
| LruSpec.PutThenGet | src/c2sql.c:371-377 | A get right after a put hits and returns the statement put |
| LruSpec.PutWellFormed | src/stmt_cache.c:165-215 | Insertion keeps keys distinct and the size within the capacity |
| LruSpec.PutConserves | src/stmt_cache.c:165-215 | Statements before, with the new one, are the statements after and the finalized ones |
| LruSpec.ResizeConserves | src/stmt_cache.c:225-228 | Statements kept and finalized by a shrink are the statements there were |
| Handles.Handle.BeginTx | src/c2sql.c:935-967 | A snapshot is pushed, or nothing happens; depth limit 16 and driver failure with their statuses |
| Handles.Handle.CommitTx | src/c2sql.c:969-996 | The innermost snapshot is dropped and the tables stay |
| Handles.Handle.RollbackTx | src/c2sql.c:998-1030 | The innermost snapshot is restored and dropped; with only the release failing the tables are back and the level stays open |
| Handles.OpenLevel | src/c2sql.c:948-956 | Depth and names stay in step with the database's frames whether or not the driver call succeeds |
| Handles.UnwindSavepoint | src/c2sql.c:1011-1019 | Rewind by name and release by name affect the innermost frame only |
| TxSpec.InnermostIsLast | src/c2sql.c:953-955 | The current savepoint name finds the innermost frame, and no other frame has it |
| TxSpec.SpNamesDiffer | src/c2sql.c:953-954 | Savepoint names of different levels differ |
| TxSpec.RollbackRestores | src/c2sql.c:998-1030 | Begin, any balanced run inside, rollback: tables and enclosing snapshots are what they were at the begin |
| TxSpec.CommitKeeps | src/c2sql.c:969-996 | Begin, any balanced run inside, commit: the tables the run made, the enclosing snapshots unchanged |
| TxSpec.InnerKeepsBase | src/c2sql.c:935-1030 | A run never disturbs the snapshots below where it began |
| TxSpec.DepthBounded | src/c2sql.c:940-946 | The depth stays within 16 in every run |
| QueryBuilder.Build | src/query_builder.c:425-487 | With enough memory and known columns the text is the query's and the count its number of placeholders; out of memory and unknown column only otherwise |
| QueryBuilder.Buf.Grow | src/query_builder.c:34-43 | Capacity is the doubling of 256 that holds the text; it fails exactly above the memory limit and keeps the text |
| QueryBuilder.Buf.Append | src/query_builder.c:45-51 | The string is appended, terminated, or the buffer is unchanged |
| QueryBuilder.AppendPlaceholder | src/query_builder.c:90-98 | The next number, printed in the dialect's form |
| QueryBuilder.AppendCond | src/query_builder.c:171-199 | Prints the condition tree with placeholders numbered left to right and counts them |
| QueryBuilder.ValidateCondColumns | src/query_builder.c:153-164 | UNKNOWN_COLUMN exactly when a leaf names a column the schema does not have |
| QueryBuilder.BuildInsert | src/query_builder.c:256-279 | Prints the insert statement of the schema |
| QueryBuilder.BuildUpsert | src/query_builder.c:281-309 | Prints the upsert statement, setting every column but the key |
| QueryBuilder.BuildSelect | src/query_builder.c:311-335 | Prints the select statement with its optional condition |
| QueryBuilder.BuildCount | src/query_builder.c:337-353 | Prints the count statement |
| QueryBuilder.BuildUpdateField | src/query_builder.c:355-377 | Prints the field update; its value is placeholder 1 |
| QueryBuilder.BuildSelectField | src/query_builder.c:379-400 | Prints the field query |
| QueryBuilder.BuildDelete | src/query_builder.c:402-419 | Prints the delete statement |
| SqlText.LexRender | src/query_builder.c:90-98 | Reading the characters of a well-spaced list of pieces gives back its tokens, with placeholder numbers, in both dialects |
| SqlGrammar.ParseCond | src/query_builder.c:171-199 | The printed condition parses, with AND tighter than OR, to the same tree |
| SqlGrammar.ParseCondFails | src/query_builder.c:174-176 | A match-all below a connective makes the text unparsable |
| QueryParsing.QueryRoundTrip | src/query_builder.c:256-419 | For every query and schema the text parses back to the query, exactly when no match-all is nested and an upsert has a column to set |
| QueryParsing.NestedAllDoesNotParse | src/query_builder.c:174-176 | A concrete nested match-all whose text is no statement |
| QueryParsing.KeyOnlyUpsertDoesNotParse | src/query_builder.c:294-306 | A concrete key-only upsert whose text is no statement |
| Queries.QueryReads | src/query_builder.c:256-419 | Every query prints exactly as many placeholders as it binds values, and well-spaced pieces |
| ApiSpec.QueryParams | src/postgres_driver.c:128-140 | Both drivers count in the text exactly the values the query binds |
| PgParams.PgCountParams | src/postgres_driver.c:128-140 | The scanning loop computes the largest number behind a dollar sign |
| PgParams.ParamCountRender | src/postgres_driver.c:128-140 | On printed text that is the number of placeholders, because names hold no dollar sign |
| QueryMeaning.CondMeans | src/query_builder.c:171-199 | The condition is true in three-valued logic exactly on the rows the two-valued reading with NULL comparisons false selects |
| QueryMeaning.QueryMeans | src/query_builder.c:256-419 | Running a query's text with its bound values on any database that holds the schema's table does exactly what the query means, and text that is no statement fails |
| QueryMeaning.AssignWhole | src/query_builder.c:296-306 | On the conflicting row the SET list writes the whole new row |
| SqlEngine.ExecuteKeepsShape | src/c2sql.c:480-482 | Running any text keeps every table's columns, and its rows in shape |
| Driving.Driver.Prepare | src/sqlite_driver.c:106-115 | SQLite refuses text that does not parse, PostgreSQL stores it; all values start as NULL |
| Driving.Driver.Bind | src/postgres_driver.c:170-189 | Numbers outside the placeholders are refused with the dialect's status; otherwise exactly that value changes |
| Driving.Driver.Step | src/postgres_driver.c:235-259 | The first step runs the text with the values bound then; later ones walk the rows |
| Driving.Driver.Reset | src/postgres_driver.c:315-339 | The cursor closes; SQLite keeps the values, PostgreSQL clears them |
| Driving.Driver.Release | src/sqlite_driver.c:90-92 | Drops the innermost savepoint of that name and all above it |
| Driving.Driver.RollbackTo | src/sqlite_driver.c:94-96 | Restores the innermost savepoint of that name and keeps it |
| RowMapping.BindRow | src/type_mapping.c:51-74 | Every column's value is bound to its placeholder, or the first forbidden NULL or missing placeholder is reported |
| RowMapping.BindStatusMeans | src/type_mapping.c:62-65 | With a placeholder per column binding fails exactly on a NULL in a column that does not allow it |
| RowMapping.BindOne | src/type_mapping.c:16-49 | The value bound is the column's value, TEXT up to its terminator, its buffer or INT_MAX |
| RowMapping.BoundedStrlen | src/type_mapping.c:10-14 | The number of bytes before the first NUL, at most the bound |
| RowBytes.TextBound | src/type_mapping.c:37-43 | The TEXT bound is the bytes before the first NUL, at most the member's size and INT_MAX |
| RowMapping.ReadOne | src/type_mapping.c:80-132 | Stores the value's bytes at the column's offset and reports truncation exactly |
| RowMapping.ReadRow | src/type_mapping.c:134-161 | All non-NULL columns are stored in order, NULL bits set; a warning exactly when some column was truncated |
| RowMapping.ReadStatusMeans | src/type_mapping.c:134-161 | For every row of values the columns can hold, a warning exactly when some value that is not NULL cannot be read off the struct afterwards |
| RowBytes.TruncatedMeans | src/type_mapping.c:80-132 | For every value a column can hold it is reported truncated exactly when the bytes stored do not give the value back |
| RowMapping.SetNullBit | src/type_mapping.h:54-57 | The byte with that bit added |
| RowBytes.WithBitSets | src/type_mapping.h:49-57 | Setting a bit sets that bit and no other |
| RowMapping.RowRoundTrip | src/type_mapping.c:16-161 | Binding and reading back returns INT, REAL and BLOB bytes, TEXT up to its terminator and the NULL bits; unterminated TEXT loses its last byte with a warning |
| RowBytes.CellRoundTrip | src/type_mapping.c:16-132 | The same for one column |
| RowBytes.EncodeSigned | src/type_mapping.c:22-31 | Storing a loaded little-endian integer gives back its bytes |
| RowBytes.SignedEncode | src/type_mapping.c:86-101 | Loading a stored integer that fits gives it back |
| RowMapping.ReadOutside | src/type_mapping.c:134-161 | Bytes of no column, or of NULL columns only, are untouched |
| RowMapping.ReadColumn | src/type_mapping.c:134-161 | With disjoint columns, each column holds the bytes stored and then those it had |
| RowMapping.NullBitsRead | src/type_mapping.c:148-151 | Exactly the bits of NULL columns are added |
| RowMapping.TextEnds | src/type_mapping.c:109-121 | TEXT that is read is terminated inside its buffer |
| RowMapping.CopiedNullBit | src/c2sql.c:689-693 | Merging the temporary bitmap adds the same bits as reading in place |
| RowMapping.NullMemberZeroed | src/c2sql.c:658-688 | In the single-row path a NULL member comes back as zeros, so it is unchanged exactly when it was zero |
| RowMapping.RowSize | src/c2sql.c:645-649 | The end of the last column |
| RowMapping.RowEndReached | src/c2sql.c:645-649 | That end is the end of some column: nothing behind the struct is copied |
| RowBytes.BitmapBytesLeast | include/c2sql.h:126-126 | A bitmap has the fewest bytes that hold a bit for each column |
| Registry.IdentifierValid | src/schema_registry.c:68-95 | Accepts exactly the names of 1 to 128 word characters that start with no digit and are not reserved in any case |
| Registry.SchemaIsPlain | src/schema_registry.c:187-248 | Registered names need no escaping and columns have distinct names |
| Registry.RegisterStatusIs | src/schema_registry.c:168-248 | Every struct gets the status of the first check it fails: column count, struct name, duplicate struct, then the first column at fault |
| Registry.RegisterStatusMeans | src/schema_registry.c:168-248 | A struct passes exactly with 1 to 64 columns, valid names, no name twice, and INT32 and INT64 members of 4 and 8 bytes |
| Registry.RegistryIsPlain | src/schema_registry.c:168-286 | Every schema a registry holds is one that all calls can work with |
| Registry.SchemaRegistry.Register | src/schema_registry.c:168-286 | The first failing check decides the status; NO_MEMORY exactly when an allocation that is needed fails; success appends the schema with its first key, failure changes nothing |
| Registry.RegisterKeeps | src/schema_registry.c:168-286 | Registration keeps names unique and every schema well formed, with 1 to 64 columns |
| Registry.FirstKeyMeans | src/schema_registry.c:275-282 | The key index is the first key column or -1 |
| Registry.SchemaRegistry.CheckColumns | src/schema_registry.c:209-248 | The first fault in column order |
| Registry.SchemaRegistry.Grow | src/schema_registry.c:124-136 | Growing moves the schemas and keeps them |
| Registry.SchemaRegistry.Lookup | src/schema_registry.c:288-301 | The schema of that name, if any |
| Registry.SchemaRegistry.Unregister | src/schema_registry.c:303-322 | That schema is removed and the order of the others kept |
| Registry.ShiftDown | src/schema_registry.c:314-316 | The later entries move down by one |
| Registry.UnregisterUndoes | src/c2sql.c:425-427 | Unregistering right after registering gives the registry there was |
| Migration.MigrateTable | src/migration.c:398-516 | OK exactly when the table is new, has one key at most and reads back as declared, or its columns agree with a prefix of the schema's and the missing ones can all be added and read back. On OK every stored column has the schema's name, type class, NOT NULL, PRIMARY KEY and wanted UNIQUE. A column that differs in any of these, a surplus one, a missing one without auto_migrate and a table that is not STRICT when that is required are SCHEMA_MISMATCH with the tables unchanged; a driver error exactly when a request is refused. Any outcome leaves the old columns and a prefix of the missing ones |
| Migration.MigrateSteps | src/migration.c:398-516 | The steps in order have the status of the step-by-step reading, and change nothing when they stop before the first ALTER |
| Migration.StatusInFields | src/migration.c:440-487 | That status in terms of the fields of the stored columns |
| Migration.AgreesMeans | src/migration.c:381-392 | The comparison finds no difference exactly when name, type class, NOT NULL, PRIMARY KEY and wanted UNIQUE are those of the schema and the name is shorter than 128 |
| Migration.MigrateTwice | src/migration.c:398-516 | After success a second run succeeds and leaves the tables as the first run made them |
| Migration.MigrateRetry | src/migration.c:459-487 | Whatever a first run came to, a retry with the backend up succeeds exactly when it would have at the start, and ends with the same tables |
| Migration.RetryResumes | src/migration.c:459-487 | What any run leaves behind is migratable exactly when the start was, to the same result |
| Migration.RegisterTable | src/c2sql.c:394-431 | Success registers the schema and its table serves every query on it; failure leaves the registry as it was; a struct that fails the checks gets their status and no table changes; otherwise, with memory, success and status are those of the migration, in the stored fields |
| Registration.RegisterStruct | src/c2sql.c:394-431 | On a handle: on success the schema is found under its name and served, on failure the schemas are those there were, and either way every other served schema stays served; success exactly when the checks pass and the table is migratable, with the statuses of both |
| Registration.Init | src/c2sql.c:144-197 | A new handle is valid: no schemas, an empty cache of 64 statements, no transaction, no iterators |
| Migration.CompareFirst | src/migration.c:381-392 | True exactly when all compared columns agree |
| Migration.AddMissing | src/migration.c:466-487 | Columns are added in schema order until one fails; OK exactly when every one can be added |
| Migration.GrownTwice | src/migration.c:466-487 | Adding columns in two stages is adding them at once |
| Migration.GrownRows | src/migration.c:466-487 | Added columns keep every stored value |
| Migration.DeclaredAgrees | src/migration.c:381-392 | A column reads back as declared exactly when its name is shorter than 128 and it is no nullable key that the backend makes NOT NULL: any in PostgreSQL, any but an integer one in a STRICT SQLite table |
| Migration.TakesMeans | src/migration.c:466-487 | Adding a column to a table that meets its constraints gives one that does, exactly when it has no rows or the column may be NULL |
| Migration.MigratedInLine | src/migration.c:459-487 | The table a migration makes matches its schema exactly when the columns that were there agree and the others read back as declared |
| Migration.LongNameNeverAgrees | src/migration.c:87-90 | A valid 128-character name that no table can match |
| Migration.InLineServes | src/migration.c:439-447 | A table that passes the comparison fits the schema for every query |
| StrictScanner.Scan | src/migration.c:213-231 | The loop computes the scan, with the round that makes no progress reported |
| StrictScanner.ScanMeans | src/migration.c:213-231 | For every text: yes exactly when a word STRICT starts before the first character the scan cannot cross; it never ends exactly when otherwise six characters remain there |
| StrictScanner.ScanClean | src/migration.c:213-231 | On spaces, tabs, newlines, commas, letters, digits and underscores it ends with the right answer, the early exit included |
| StrictScanner.Crossable | src/migration.c:221-229 | Exactly the characters the two inner loops step over |
| StrictScanner.StuckMeans | src/migration.c:221-230 | A round makes no progress exactly at an uncrossable character with six characters left |
| StrictScanner.ScanNeverEnds | src/migration.c:221-230 | A comment before STRICT, a tail on which the scan never ends |
| Guard.WriteGuarded | generated/sessions_schema.c:15-31 | Two counts, the test and the write as one specification; NO_MEMORY only when one of them is out of memory; otherwise CAPACITY_EXCEEDED is returned exactly when the key is new and the table is full, and no failure changes a table |
| Guard.GuardMeans | generated/sessions_schema.c:21-29 | For keys of a type whose values the backend's = tells apart, a write is refused exactly when its key is new and the table is full |
| Guard.GuardedStep | generated/sessions_schema.c:15-31 | A refused or failed write changes nothing; an existing key never changes the count; keys stay of their column's type |
| Guard.GuardHolds | generated/sessions_schema.c:15-31 | In every run of guarded writes and deletes the rows stay within the larger of their initial number and the limit |

## Left out

- SQLite and libpq themselves: name resolution happens when a statement is stepped, values keep the class they were bound with, and a failed call changes nothing.
- DDL text and catalogue queries: CREATE and ALTER act on the tables directly and introspection reports their columns; STRICT is a flag of the migration.
- Conversions between value classes when a column of one type is read as another: they read as zero or as no bytes.
- The meaning of REAL values: eight opaque bytes; UNIQUE compares them as bytes, so the two zeros differ there, and the guard's and the read-back theorems ask of a REAL key that the backend's = does not relate different bytes.
- Two UNIQUE or key columns conflicting in one upsert are seen as a constraint violation of the resulting rows.
- The registry inside the handle: `Handle` holds the registered schemas as a sequence and `Registry.SchemaRegistry` the array; `Registration.RegisterStruct` keeps the two equal.
- Release of memory, aliasing of returned pointers, and the handle, cursor and registry addresses.
- Overflow of C `int` and of the 16-byte placeholder buffer for more than 10^14 placeholders; overflow of `size_t` in the query buffer.
- Mutexes and thread interleavings: calls are atomic.
- The live-handle registry, logger, error messages, connection strings and NULL argument checks: single-branch code.
- Condition constructors, the Python generator and the templates.
- Unbounded text in `max_text_len`: the code never reads it.
- The list of reserved words: the theorems hold for every list.
- Handles.Handle.WriteMany: takes the commit or rollback of its own transaction to succeed, because the source ignores their result.
- Handles.Handle.RollbackTx: the automatic rollback of a backend after an error is not modelled.
- Handles.Handle.StmtNext: rows are those of the first step; writes made while an iterator is open are not seen by it.
- Driving.Driver.Begin: beginning inside a transaction fails in both dialects; PostgreSQL would only warn, and the library never does it.
- Migration.Alter: a backend may refuse any added column, by a parameter; the particular restrictions of each are not listed.
- StmtCaching.StmtCache.constructor: its allocation is taken to succeed; in the source a failure makes the whole initialization fail.
- Registration.Init: allocations and the connection are taken to succeed.
- Driving.Driver.Prepare: SQLite also refuses missing tables and columns here; the model refuses them at the first step.
- Runs.RunCalls: the run has enough memory; single calls are proved with every failure.
