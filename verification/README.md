# Verified model of the database manager's core

Verix DBM is a web console for databases. This project models the parts of it in which a
mistake would lose or corrupt something, and proves what they are for:

- the **table designer**, which compiles an edited table into an ordered DDL list for Postgres,
  MySQL and SQLite (`TableModel`, `Schema*`, `ShownTable`, `EmptyScript`, `SqliteFilter`,
  `SqliteWarnings`, `LoadModel`, `CreateTable`, `Describe*`, `DescriptionWitness`, `Designer*`);
- the **data grid's manual transaction**, which queues edits over a page and compiles them to SQL
  (`GridQueue`, `GridCommit`, `GridOutcome`, `GridText`, `Paging`);
- the **keyring** and the re-encrypt run (`Keyring`, `KeyringWitness`, `Rotation`);
- the **rate limiter**, the **pool registry** and **session state on pooled connections**
  (`RateLimit`, `Registry`, `Sessions`, `SessionHistory`);
- **printers and scanners**: quoting, delimited text, the confirm scanner, path containment
  (`Quoting`, `Scanning`, `Delimited`, `Confirm*`, `SqlitePath`, `SqliteOpen`,
  `SqliteDsn`).

`dafny verify dfyconfig.toml` checks everything.

## How it is modelled

**Designer.** A statement is a constructor (`AddColumn`, `DropConstraint`, ...) and the database a
partial interpreter `Ddl.Step` over a table record: a statement on a missing or taken name, an
unknown column or a blank type is refused. A column drop takes constraints with it on Postgres and
shrinks them on MySQL, which refuses to drop or rename a column that a CHECK uses. Types, defaults
and CHECK texts are opaque; `parse` says which columns a text mentions and is a parameter of every
theorem. `Tracks` ties a model's snapshot to the loaded table, `Shows` says which table the designer
displays (`ShownTable` spells it out row by row), `WellFormedEdit` that shown names do not compete
and that what is to be added is complete and mentions shown columns. The main result is an
equivalence: the list runs to the shown table if and only if the edit is `Safe`. `Safe` is a
condition on the edit alone (which names are added, renamed, left or removed), and its six parts are
exactly where the code does not meet its intent; `SchemaFailures` has a family of edits for each:

1. additions and renames run before drops, so a column name can be reused only in some orders, and
   Postgres is sent a blanked type as it is;
2. `uniqChanged` ignores a rename, so a UNIQUE renamed alone stays as it was;
3. a constraint left alone follows its renamed column in the database, and shrinks or goes with a
   removed one, but not in the designer's text;
4. a row loaded blank and edited while blank is dropped and not added;
5. `pkColsChanged` reads the surviving columns only, and compares names joined with commas;
6. renames run before constraints are dropped, so MySQL refuses the rename of a column that a loaded
   CHECK mentions, even when the same edit rewrites that CHECK.

**Grid.** The page is immutable; cells are shown as text with NULL as the glyph. A commit runs on a
keyed table as one transaction. `GridText` prints the same statements as the text that is sent and
parses it back, so the theorem about statements is a theorem about the text. A row whose key stores
the glyph itself is one no generated condition reaches; `GridOutcome` covers such rows too.

**Keyring.** The AEAD is a seal/open pair: opening what was sealed gives the plaintext, the wrong
key fails, payloads are base64 text and so never hold `$`.

**Confirm scanner.** `Confirm` is the scanner as it is. `ConfirmLiterals` reads the same text with
literals, quoted names and comments told apart, and says when the two agree. `ConfirmStatements`
defines destructive statements without the scanner (the verb that comes first or after a WITH prefix,
and no WHERE outside parentheses) and says exactly which of them are asked about; `ConfirmMisses` holds
the destructive texts the scanner lets through.

**SQLite paths.** `SqlitePath` is the check, for any answer of the file system. `SqliteOpen` is a file
system with links, in which the answers and what a creating open reaches are defined. `SqliteDsn`
prints the text that is handed to the driver, path and settings, and reads the file name back from it:
the text up to the first `?`.

**State.** Clock readings, nonces, store failures, server refusals and symbolic link resolution are
parameters. The registry and the SQLite pool are state machines over critical sections, so that
theorems range over every interleaving. The registry's five maps are one map with the kind in its key.
For Postgres the tool's SET commands are sent to a server that interprets them, runs texts statement by
statement and refuses work in a read-only transaction; what work does is a parameter.

Where the source's words and its code differ, the model follows the code: the warning list is said
to surface every edit SQLite cannot apply, but a foreign key or check that was blanked out escapes
it; the rate limiter is described by its `max` per window, but any window's first request passes,
even when `max` is 0; the grid's comments say rows are matched by their full contents, but the
primary key is used when there is one; the confirm scanner is said to err only by asking too often,
but a comment opener or the word WHERE in a literal, a WHERE in a subquery or a WITH prefix hides a
destructive statement; symbolic links that leave the SQLite directory are said to be rejected, but a
dangling one is accepted, and so is a path with a `?` whose part before it is a link.

## Model

| member | source | states |
|---|---|---|
| `TableModel.GenerateModify` | internal/web/spa/src/tableModel.ts:140-233 | the seven pushing phases give the list `Modify`, about which everything below is proved |
| `SchemaTheorem.ModifyReachesShownTable` | internal/web/spa/src/tableModel.ts:140-233 | for every table, model and well-formed edit, on Postgres and MySQL: running the list on the loaded table never meets an inapplicable statement and ends exactly at the shown table, if and only if the edit is `Safe` |
| `SchemaTheorem.ShownTableIsUnique` | internal/web/spa/src/tableModel.ts:140-233 | a model shows at most one table, so "ends at the shown table" determines the result |
| `ShownTable.ShownColumns` | internal/web/spa/src/tableModel.ts:100-105 | a shown table has exactly the named rows as columns, each with its trimmed type (`text` if blank), its NOT NULL mark and its trimmed default |
| `ShownTable.ShownKey` | internal/web/spa/src/tableModel.ts:115 | its key has exactly the ticked columns, under the loaded name, or the table's with `_pkey`, or PRIMARY on MySQL |
| `ShownTable.ShownObjects` | internal/web/spa/src/tableModel.ts:208-221 | each filled row is an object with what its texts say, and every object has a row that is filled or was loaded empty |
| `EmptyScript.NothingSentExactly` | internal/web/spa/src/tableModel.ts:140-233 | on Postgres and MySQL the list is empty iff, up to outer blanks, every row is as loaded (a UNIQUE may be called anything), none was added or removed, and key, comment and name are not seen to change |
| `EmptyScript.KeyChangeIsSeen` | internal/web/spa/src/tableModel.ts:268-273 | without commas, the key comparison sees a change iff some name is ticked and was no key column, or the reverse, whatever the order of rows |
| `SchemaCorollaries.PlainEditsReachShownTable` | internal/web/spa/src/tableModel.ts:140-233 | edits with new names for added and renamed columns, types kept, no UNIQUE renamed alone, no blank row edited while blank, no loaded key column removed, untouched constraints over shown columns, no comma in column names and, on MySQL, no loaded CHECK over a renamed column always arrive |
| `SchemaCorollaries.UniqueRenamedAloneIsLost` | internal/web/spa/src/tableModel.ts:260 | a UNIQUE renamed without touching its columns never ends under its new name |
| `SchemaCorollaries.ReusedColumnNameFails` | internal/web/spa/src/tableModel.ts:147-148 | a new column under a loaded name stops the list, even if that column is removed by the same edit |
| `SchemaCorollaries.RemovedKeyColumnLosesKey` | internal/web/spa/src/tableModel.ts:268-273 | on Postgres, removing one column of a loaded key while the others stay loses the key |
| `SchemaCorollaries.UnseenKeyChangeIsLost` | internal/web/spa/src/tableModel.ts:268-273 | whenever other columns are ticked than were loaded and the comparison does not see it, the key does not end as shown |
| `SchemaCorollaries.MentionedColumnMustStay` | internal/web/spa/src/tableModel.ts:153-204 | a column that an untouched constraint or index mentions cannot be renamed or removed: such an edit never ends at what is shown, on either engine |
| `SchemaCorollaries.RenameUnderCheckStops` | internal/web/spa/src/tableModel.ts:153-200 | on MySQL, a rename of a column that a loaded CHECK mentions stops the list, whatever the edit does to that CHECK |
| `Ddl.RunKeepsBound` | internal/web/spa/src/tableModel.ts:140-233 | whatever list runs, every constraint stays bound to columns that exist |
| `SchemaFailures.RenamedUniqueIsLost` | internal/web/spa/src/tableModel.ts:260 | for all names: a UNIQUE renamed alone meets every hypothesis of the theorem and does not arrive |
| `SchemaFailures.RenamedUnderUniqueIsLost` | internal/web/spa/src/tableModel.ts:153-156 | the same for a column renamed under an untouched UNIQUE |
| `SchemaFailures.RenameChainIsLost` | internal/web/spa/src/tableModel.ts:153-156 | the same for `a` renamed to `b` and `c` to `a` under an untouched UNIQUE(a), where all shown columns exist |
| `SchemaFailures.RenamedUnreadFkIsLost` | internal/web/spa/src/tableModel.ts:195-216 | the same for a foreign key that was loaded without its definition and renamed: dropped, not added |
| `SchemaFailures.RemovedKeyColumnExample` | internal/web/spa/src/tableModel.ts:268-273 | the same, on Postgres, for key (a, b) with `a` removed |
| `SchemaFailures.RenamedWithCheckIsRefused` | internal/web/spa/src/tableModel.ts:153-200 | the same, on MySQL, for a column renamed together with the text of its CHECK: the list stops at the rename |
| `SchemaFailures.RenamedWithCheckArrives` | internal/web/spa/src/tableModel.ts:153-200 | on Postgres that edit arrives |
| `SchemaFailures.CommaHidesKeyChange` | internal/web/spa/src/tableModel.ts:268-273 | the key moves from column `x,y` to columns `x` and `y`, and the comparison does not see it |
| `SchemaFailures.CommaEditIsLost` | internal/web/spa/src/tableModel.ts:268-273 | and that edit meets every hypothesis and does not arrive |
| `SchemaFailures.CommaNamesExist` | internal/web/spa/src/tableModel.ts:268-273 | such names exist: `a` and `b` |
| `SchemaFailures.BlankedCheckIsSkipped` | internal/web/spa/src/tableModel.ts:252-255 | a CHECK that was blanked out: no warning, and SQLite is not sent the drop |
| `SchemaExamples.PlainExampleArrives` | internal/web/spa/src/tableModel.ts:140-233 | for all names: an edit that renames, adds and makes a key meets hypotheses and condition together, and arrives |
| `SchemaKeys.TicksKeptMeansUnrenamed` | internal/web/spa/src/tableModel.ts:268-273 | without commas, an unnoticed key is ticked as loaded exactly when none of its columns was renamed |
| `SchemaKeys.NoCycle` | internal/web/spa/src/tableModel.ts:153-156 | renames that succeed one after the other never permute a set of names among themselves |
| `ColumnPhases.AlterRun` | internal/web/spa/src/tableModel.ts:150-172 | the column phase succeeds exactly when each new name is free by then, types are kept and, on MySQL, no CHECK mentions a renamed column, and then moves and redefines every column at once |
| `ObjectPhases.DropKeysRun` | internal/web/spa/src/tableModel.ts:190-200 | drops of objects that are there, none twice, all succeed and remove just these |
| `ObjectPhases.AddObjsSucceeds` | internal/web/spa/src/tableModel.ts:208-221 | additions whose names are free and columns exist all succeed, in any number |
| `SqliteFilter.SqliteIsFilteredPostgres` | internal/web/spa/src/tableModel.ts:164-224 | for every model, the SQLite list is the Postgres list with the column-alter, key, constraint and comment statements filtered out, in order |
| `SqliteFilter.SqliteUnsupported` | internal/web/spa/src/tableModel.ts:238-258 | the warning list, pushed column by column and then for the table |
| `SqliteWarnings.WarnsExactly` | internal/web/spa/src/tableModel.ts:238-258 | each warning is given iff there is the change it names, of that column under its loaded name, of the key, of that kind of constraint, or of the comment |
| `SqliteFilter.SqliteGetsEverything` | internal/web/spa/src/tableModel.ts:140-233 | nothing is filtered out exactly for edits of the supported kinds |
| `SqliteFilter.SilenceMeansComplete` | internal/web/spa/src/tableModel.ts:238-258 | with an empty warning list nothing is filtered out, if and only if no foreign key or check row was blanked out and no loaded constraint is nameless |
| `SqliteFilter.CompleteMeansSilent` | internal/web/spa/src/tableModel.ts:238-258 | when nothing is filtered out, the only warnings left are about a key that is neither dropped nor added or a UNIQUE row that is still blank |
| `LoadModel.UneditedModelIsClean` | internal/web/spa/src/tableModel.ts:276-325 | loading and editing nothing gives an empty list on every engine, exactly when everything the engine could drop has a name |
| `CreateTable.GenerateCreate` | internal/web/spa/src/tableModel.ts:118-137 | the create list, clause by clause |
| `CreateTable.CreateBuildsShownTable` | internal/web/spa/src/tableModel.ts:118-137 | every well-formed new table is created exactly as shown |
| `CreateTable.SqliteCreateIsPostgres` | internal/web/spa/src/tableModel.ts:118-137 | SQLite's create list is Postgres's without the comment; an unnamed table is called `table_name` |
| `DescribeTable.IdListJoined` | internal/web/spa/src/tableModel.ts:93 | the designer reads back every printed list of comma-free, trimmed names |
| `Text.IdListHas` | internal/web/spa/src/tableModel.ts:93 | a name is in a list iff it is one of the trimmed, non-empty pieces between commas |
| `Text.SplitIs` | internal/web/spa/src/tableModel.ts:93 | the pieces hold no separator and, joined with it, give the text |
| `Text.TrimCuts` | internal/web/spa/src/tableModel.ts:93 | trimming takes off blanks only, and leaves none at either end |
| `DescribeTable.DescriptionLoadsBack` | internal/web/spa/src/tableModel.ts:276-325 | loading a complete description shows exactly the described table: columns, key, constraints and indexes |
| `DescribeTable.CreateDescribeLoad` | internal/web/spa/src/tableModel.ts:118-137 | create, describe, load: the loaded model and the original show the same table |
| `DescriptionWitness.DescriptionExists` | internal/web/spa/src/tableModel.ts:276-325 | every table whose texts are stored trimmed and whose names can be listed has a complete description, in which nothing occurs twice |
| `DescriptionWitness.CreatedHasDescription` | internal/web/spa/src/tableModel.ts:118-137 | so has every table created from printable names |
| `DesignerSession.EditsKeepTracking` | internal/web/spa/src/tableModel.ts:276-325 | no sequence of edits changes what the model knows of the loaded table |
| `DesignerSession.SessionReachesShownTable` | internal/web/spa/src/tableModel.ts:140-325 | end to end: load a described table, make any edits; the generated list ends at what is shown if and only if the edit is `Safe` |
| `DesignerApply.ApplyModify` | internal/postgres/ddl.go:123-155 | the list run as a script: a safe edit arrives, a committed one arrives exactly if safe, and with transactional DDL a failure anywhere leaves the table as it was |
| `GridQueue.Grid.CommitEdit` | internal/web/spa/src/components/tabs/GridTab.tsx:368-382 | queues the text, or removes the entry when it restores the original; nothing else changes |
| `GridQueue.Grid.DeleteRows` | internal/web/spa/src/components/tabs/GridTab.tsx:409-418 | queues the rows once each, in order, and drops their edits |
| `GridQueue.Grid.SubmitDraft` | internal/web/spa/src/components/tabs/GridTab.tsx:341-347 | queues the draft last |
| `GridQueue.QueueAfter` | internal/web/spa/src/components/tabs/GridTab.tsx:341-418 | after any session: queued deletes are the rows ever deleted, each once; no row is queued without an edit; drafts in order |
| `GridQueue.EffectiveEdits` | internal/web/spa/src/components/tabs/GridTab.tsx:457-458 | after any session the effective edits are exactly the cells, on rows never deleted, whose last committed text differs from the original |
| `GridCommit.BuildStatements` | internal/web/spa/src/components/tabs/GridTab.tsx:467-482 | the pushed statements are the updates, deletes and inserts of the queue, in that order, by the whole primary key, or by all columns when there is none |
| `GridCommit.StatementsSay` | internal/web/spa/src/components/tabs/GridTab.tsx:467-482 | an UPDATE per edited row in ascending order, NULL for an empty text or the glyph and every other text as it is; a DELETE per queued row; an INSERT per draft with its texts as they are |
| `GridCommit.WholeRowCondition` | internal/web/spa/src/components/tabs/GridTab.tsx:301-306 | without a primary key the condition selects exactly the rows equal to the one shown, if no cell stores the glyph |
| `GridCommit.WhereMatchesKey` | internal/web/spa/src/components/tabs/GridTab.tsx:301-306 | the condition written for a row selects exactly the rows with its key; if a key cell stores the NULL glyph it selects nothing |
| `GridOutcome.OnlyReachingCounts` | internal/web/spa/src/components/tabs/GridTab.tsx:301-306 | the batch does exactly what the batch without the rows whose key stores the NULL glyph would do |
| `GridOutcome.CommitIsOverlay` | internal/web/spa/src/components/tabs/GridTab.tsx:467-482 | whenever the batch commits, key edits included, it leaves exactly the overlay of the queue's part on rows whose key can be read: edited cells replaced, queued rows removed, drafts added, the rest untouched |
| `GridOutcome.ShowsWhatItCommitsExactly` | internal/web/spa/src/components/tabs/GridTab.tsx:467-482 | a committed batch leaves what the grid shows, the overlay of the whole queue, iff no row whose key stores the glyph is deleted and the edits of each leave it as it was |
| `GridOutcome.GlyphKeyLosesEdit` | internal/web/spa/src/components/tabs/GridTab.tsx:301-306 | for all cell texts: a row whose key stores the glyph is edited, the batch commits, and the table is as it was |
| `GridOutcome.CommitsExactly` | internal/web/spa/src/components/tabs/GridTab.tsx:467-482 | key edits included, the batch commits exactly when keys stay unique and non-NULL after each update that reaches its row, in row order, and in the overlay |
| `GridOutcome.CommitsWhenKeyed` | internal/web/spa/src/components/tabs/GridTab.tsx:467-482 | without key edits the batch commits exactly when that overlay has unique non-NULL keys |
| `GridOutcome.CommittedSession` | internal/web/spa/src/components/tabs/GridTab.tsx:341-482 | from user actions to stored cells: a page row whose key stores the glyph is as it was; any other is gone iff it was ever deleted, and each of its cells is NULL if its last committed text is empty or the glyph, else that text, or as it was if never changed |
| `GridOutcome.ReloadShowsSession` | internal/web/spa/src/components/tabs/GridTab.tsx:297 | loaded again, an edited cell shows its last committed text, or the glyph if it was cleared |
| `GridOutcome.CommittedDrafts` | internal/web/spa/src/components/tabs/GridTab.tsx:476-481 | the drafts are the rows after the last one, in order: each filled cell its text, each other its default |
| `GridOutcome.OffPageUntouched` | internal/web/spa/src/components/tabs/GridTab.tsx:467-482 | a row that is not on the page is never touched, whatever the keys |
| `GridText.StatementRoundTrip` | internal/web/spa/src/components/tabs/GridTab.tsx:467-482 | for all names and cell texts and each dialect, a parser reads the printed UPDATE, DELETE or INSERT back as the statement meant |
| `GridText.CommitTextMeansCommit` | internal/web/spa/src/components/tabs/GridTab.tsx:467-482 | every text of a commit, parsed and resolved against the page's columns, is the statement that `CommitIsOverlay` is about |
| `Paging.RunStatement` | internal/sqlite/sqlite.go:109-126 | the row loop returns the first 1000 rows, every cell as its text and NULL as the glyph, and marks the rest |
| `Paging.BrowseWhere` | internal/sqlite/sqlite.go:137-150 | a page is the LIMIT/OFFSET window of the result, never truncated |
| `Paging.ApiGrid` | internal/web/api_sql.go:159-169 | the endpoint serves the clamped page |
| `Paging.WalkSeesEverything` | internal/web/spa/src/components/tabs/GridTab.tsx:126-130 | pressing next while offered shows every row once, in order, in n/size + 1 pages, none truncated |
| `Paging.TotalIsExact` | internal/web/spa/src/components/tabs/GridTab.tsx:126-133 | the total without a plus sign is the number of rows; with one there are at least that many |
| `Paging.RefusedSize` | internal/web/api_sql.go:163-168 | with a size the server replaces, the client stops after one page, complete exactly when the result has at most 100 rows |
| `Keyring.NewFromProvider` | internal/crypto/crypto.go:96-133 | a ring of all keys with the primary first in the order of attempts, iff every id is non-empty, free of `$` and new and every key has 32 bytes and the primary is there; otherwise the first fault, of one entry id before length before duplicate |
| `Keyring.RotationRoundTrip` | internal/crypto/crypto.go:138-166 | what one ring encrypts, every later ring that keeps that key under its id decrypts |
| `Keyring.LegacyDecrypts` | internal/crypto/crypto.go:148-166 | unprefixed ciphertext decrypts exactly when the ring holds its key, and only to its plaintext |
| `Keyring.PrimaryIsEnough` | internal/crypto/crypto.go:148-166 | for ciphertext under the primary id, dropping all other keys changes nothing |
| `Keyring.ReencryptSound` | internal/crypto/crypto.go:168-183 | re-encryption keeps the decrypted value, ends under the primary id, skips exactly what is there already, and fails exactly when it cannot decrypt or has no nonce |
| `KeyringWitness.LawfulExists` | internal/crypto/crypto.go:193-221 | a cipher that keeps the promises assumed of seal and open exists |
| `Rotation.ApiReencrypt` | internal/web/api_audit.go:107-127 | the loop with its counters, writes and dropped pools is the run `RunOver` |
| `Rotation.EveryPrefixIsSafe` | internal/web/api_audit.go:107-127 | for any failures and any prefix of the loop, every credential still decrypts to its original result and nothing unlisted is touched |
| `Rotation.CountersAddUp` | internal/web/api_audit.go:107-127 | checked = rewritten + failed + already primary, and a pool is dropped per rewrite |
| `Rotation.CountersAre` | internal/web/api_audit.go:107-127 | checked is the number of stored passwords, failed that of those not under the primary id that cannot be read, get no nonce or are not stored |
| `Rotation.ForgottenExactly` | internal/web/api_audit.go:107-127 | pools are dropped for exactly the connections whose stored password changed, once each |
| `Rotation.CleanRunMovesAll` | internal/web/api_audit.go:107-127 | a run with no failure leaves every non-empty credential under the primary id |
| `Rotation.OldKeysCanGo` | internal/web/api_audit.go:107-127 | then a ring with only the primary key decrypts each one to what the full ring gave before the run |
| `Rotation.SecondRunIsIdle` | internal/web/api_audit.go:107-127 | and a second run rewrites nothing, whatever its nonces and store do |
| `Rotation.ChangeIsLostExactly` | internal/web/api_audit.go:102-122 | a password changed during the run is overwritten by the listed one iff the change comes before its connection's visit and that visit rewrites; otherwise it stays |
| `Rotation.UnlistedChangeStays` | internal/web/api_audit.go:102-122 | a password of a connection that was not listed stays as changed |
| `RateLimit.RateLimiter.Sweep` | internal/web/ratelimit.go:45-49 | deletes exactly the expired windows |
| `RateLimit.RateLimiter.Allow` | internal/web/ratelimit.go:55-82 | a live window admits below max and counts; an expired or new one opens; at 50 000 windows a new key first sweeps, and is refused if all are live |
| `RateLimit.LimiterRefinesSimpleLimiter` | internal/web/ratelimit.go:39-82 | for every run with a non-decreasing clock, whatever the timing of the sweeps, every request gets the verdict of a limiter that keeps live windows only |
| `RateLimit.ClockGoingBackBreaksRefinement` | internal/web/ratelimit.go:55-57 | readings are taken before the lock; out of order, a prune can forget a live window |
| `RateLimit.TableNeverExceedsCap` | internal/web/ratelimit.go:67-80 | in every run the table holds at most 50 000 windows |
| `RateLimit.AtMostTwiceMinusOne` | internal/web/ratelimit.go:55-82 | in any stretch of any run no longer than one period, a key passes at most 2·max - 1 times (once if max is below one) |
| `RateLimit.BoundIsReached` | internal/web/ratelimit.go:55-82 | for every max and period some run reaches that bound in a span no longer than one period |
| `Registry.PoolRegistry.Find` | internal/conn/registry.go:136-142 | a hit returns the cached pool and touches it; a miss changes nothing |
| `Registry.PoolRegistry.Store` | internal/conn/registry.go:162-165 | the pool replaces whatever the id held, and nothing is closed |
| `Registry.PoolRegistry.Janitor` | internal/conn/registry.go:92-132 | drops and closes exactly the entries idle past five minutes |
| `Registry.PoolRegistry.Forget` | internal/conn/registry.go:340-365 | drops and closes exactly the entries of the id, in all five maps |
| `Registry.Perform` | internal/conn/registry.go:92-166 | every step of the state machine below is what the registry's own code does to its maps and closed pools |
| `Registry.EveryPoolIsAccountedFor` | internal/conn/registry.go:92-166 | under every interleaving each cached pool is open and held under one id, and opened = cached + closed + in flight + leaked |
| `Registry.WhoCloses` | internal/conn/registry.go:92-166 | a pool is closed exactly by a failed ping of its own call, by the janitor when idle past the limit, or by Forget of its id |
| `Registry.HandedOutPoolStaysOpen` | internal/conn/registry.go:92-166 | for five minutes after it was handed out a pool is closed by nothing but a Forget of its id, whatever else runs |
| `Registry.OpenAfterHandOut` | internal/conn/registry.go:136-166 | and each hand-out, a hit included, starts those five minutes anew |
| `Registry.SerialRunsNeitherLeakNorGoStale` | internal/conn/registry.go:134-166 | when calls of one id overlap neither each other nor Forget, nothing leaks and a hit never returns a pool whose call began before the last Forget |
| `Registry.LeaksExactly` | internal/conn/registry.go:134-166 | for every history between a miss and its store: the call leaks a pool iff another call of the id finished in between and its entry was neither swept nor forgotten since |
| `Registry.GoesStaleExactly` | internal/conn/registry.go:134-166 | for every such history: the pool stored is from before the last Forget iff that Forget ran since the miss |
| `Registry.OverlappingGettersLeak` | internal/conn/registry.go:134-166 | two calls that both miss lose the first pool |
| `Registry.ForgetDuringGetterGoesStale` | internal/conn/registry.go:340-346 | a Forget during a call is undone by that call |
| `Sessions.SqlConn.Query` | internal/postgres/postgres.go:362-415 | from any session state, a text that starts does so read-only iff the call is, in the call's schema or the default path, under the tool's timeout; it does not start iff a command is refused or it has several statements and the call is read-only, and then each setting is as the accepted commands left it |
| `SessionHistory.CallOn` | internal/postgres/postgres.go:362-415 | the same for a call on one connection of a pool, which leaves the others alone |
| `SessionHistory.ReadOnlyCallKeepsData` | internal/postgres/postgres.go:381-392 | whatever the connection was left in, a read-only call changes no data, and work that would is refused |
| `SessionHistory.WriteCallWrites` | internal/postgres/postgres.go:381-392 | whatever was left behind, an accepted write call runs all its work in its own schema, or none if some of it fails by itself |
| `SessionHistory.PooledRefinesFresh` | internal/postgres/postgres.go:362-415 | over any history on any connections, the data are what the write calls alone would make of them, each on a connection nobody used before |
| `SessionHistory.SeveralStatementsWouldWrite` | internal/postgres/postgres.go:403-411 | why several statements are refused there: they could turn the session read-write and write |
| `SessionHistory.LeftReadOnlyRefuses` | internal/postgres/postgres.go:381-383 | why every call sets the mode: a session left read-only refuses the next write |
| `Sessions.SqlConn.ExecScript` | internal/postgres/ddl.go:128-155 | with Postgres' own settings every statement starts read-write whatever the session default, without them (MySQL) in the session's mode; success means all ran and committed; otherwise a transactional engine is unchanged and another stands where it failed |
| `Sessions.ScriptRunsInOrder` | internal/postgres/ddl.go:145-153 | a script stands where the statements before its first failure lead, one after the other, and has run iff none fails |
| `Sessions.BlanksAreSkipped` | internal/postgres/ddl.go:146-149 | a blank statement anywhere changes nothing |
| `Sessions.StatementsStartInTheirMode` | internal/sqlite/sqlite.go:53-76 | under every interleaving of calls, failed ones included, idle connections have query_only off and a statement starts in its call's mode, given that resets succeed |
| `Sessions.OnlyAFailedResetSticks` | internal/sqlite/sqlite.go:65-71 | a step leaves a connection in the wrong mode exactly if it is a failed reset with the flag on |
| `Sessions.FailedResetBlocksWrites` | internal/sqlite/sqlite.go:65-71 | such a reset makes the next write on that connection start read-only |
| `Quoting.IdentRoundTrip` | internal/mysql/ddl.go:14 | in each dialect a scanner reads a quoted name before any rest not starting with the quote as the name and that rest |
| `Quoting.LiteralRoundTrip` | internal/mysql/ddl.go:23-29 | the same for literals, with MySQL's backslash escapes and two replacement passes |
| `Quoting.QualifiedRoundTrip` | internal/sqlite/ddl.go:16-21 | a qualified name reads back as its table and its schema; none is printed for an empty one except on Postgres, nor for `main` on SQLite |
| `Quoting.QualifiedDetermines` | internal/postgres/ddl.go:21-24 | two qualified names are equal exactly when tables and printed schemas are |
| `Quoting.TwoPartRoundTrip` | internal/web/spa/src/tableModel.ts:92 | the browser's two-part names read back as both parts |
| `Quoting.BackslashPassIsNeeded` | internal/mysql/ddl.go:23-26 | without the first pass a text ending in a backslash would not end its literal |
| `Delimited.DelimitedRoundTrip` | internal/web/spa/src/components/tabs/GridTab.tsx:205-210 | a reader of rules 5 to 7 in section 2 of RFC 4180, with LF between records, recovers header and rows for any separator other than quote and LF, any cell text and at least one column |
| `Delimited.QuotedOnlyIfNeeded` | internal/web/spa/src/components/tabs/GridTab.tsx:205-208 | a cell is copied as it is iff it holds no separator, quote or line feed |
| `Delimited.FinalBreakIsAmbiguous` | internal/web/spa/src/components/tabs/GridTab.tsx:209-210 | a reader that also drops a final line break (rule 2) recovers everything exactly when the last row is not a single empty cell |
| `Confirm.ConfirmIsPerStatement` | internal/dbsql/dbsql.go:239-250 | `a;b` needs a confirmation iff `a` or `b` does, for every `b` and every `a` that does not end inside a comment |
| `Confirm.CommentFreeStatements` | internal/dbsql/dbsql.go:239-250 | in particular for every comment-free `a` |
| `Confirm.LeadingCommentChangesNothing` | internal/dbsql/dbsql.go:232-240 | a closed block comment in front of any text never changes the verdict |
| `Confirm.SplittingOnlyOverAsks` | internal/dbsql/dbsql.go:236-238 | in a comment-free text, cutting at semicolons inside literals never loses a prompt: what asks as one statement asks when cut |
| `Confirm.HiddenDropIsSeen` | internal/dbsql/dbsql.go:233-236 | a DROP behind a closed block comment is seen, after any text that leaves no comment open (an opener inside a literal counts as one) |
| `Confirm.OneStatement` | internal/dbsql/dbsql.go:241-248 | a comment-free text without semicolons is judged as one statement |
| `Confirm.CaseDoesNotMatter` | internal/dbsql/dbsql.go:220-226 | the verdict depends on no letter's case |
| `Confirm.OpenLineHidesTheRest` | internal/dbsql/dbsql.go:220-240 | why the condition on `a` is there: an open line comment takes the next statement with it |
| `ConfirmLiterals.ScannerSeesPlain` | internal/dbsql/dbsql.go:239-240 | the two replacement passes remove exactly the comments, when no literal, quoted name or line comment holds a comment opener and every block comment is closed |
| `ConfirmStatements.JudgedExactly` | internal/dbsql/dbsql.go:220-247 | one statement without vertical tabs: the scanner asks iff it is destructive and is a DROP or TRUNCATE, or has its DELETE or UPDATE first and no WHERE in a subquery, literal or quoted name |
| `ConfirmStatements.BlankInFront` | internal/dbsql/dbsql.go:221-240 | a tab, line feed, form feed, carriage return or space in front never changes the verdict |
| `ConfirmStatements.NothingIsMissed` | internal/dbsql/dbsql.go:232-250 | every text with a destructive statement is asked about, if no comment opener is hidden as above, no vertical tab stands in the code, no DELETE or UPDATE behind WITH, and no WHERE in a subquery, literal or quoted name |
| `ConfirmStatements.AsksExactly` | internal/dbsql/dbsql.go:239-250 | with no hidden opener, no vertical tab and no semicolon in a literal, it asks iff some statement is destructive and can be told, as in `JudgedExactly` |
| `ConfirmStatements.AsksIffDestroys` | internal/dbsql/dbsql.go:239-250 | under the conditions of both, it asks iff some statement is destructive |
| `ConfirmMisses.DashesInLiteralHide` | internal/dbsql/dbsql.go:225-240 | a destructive statement after a literal that holds two dashes is missed |
| `ConfirmMisses.BlockInLiteralsHides` | internal/dbsql/dbsql.go:224-240 | so is one between a literal that opens a block comment and one that closes it |
| `ConfirmMisses.BlockInLineHides` | internal/dbsql/dbsql.go:224-240 | so is one after a line comment that opens a block comment |
| `ConfirmMisses.WhereInLiteralHides` | internal/dbsql/dbsql.go:223-246 | so is an UPDATE or DELETE whose only WHERE stands in a literal |
| `ConfirmMisses.WhereInSubqueryHides` | internal/dbsql/dbsql.go:223-246 | so is an UPDATE or DELETE whose only WHERE stands in a subquery |
| `ConfirmMisses.WithHides` | internal/dbsql/dbsql.go:222-246 | and a DELETE or UPDATE behind a WITH prefix |
| `ConfirmMisses.VerticalTabHides` | internal/dbsql/dbsql.go:221-246 | and a DROP or TRUNCATE behind a vertical tab |
| `ConfirmMisses.DashesInput` | internal/dbsql/dbsql.go:225-240 | `select '--'; drop table t` is destructive and not asked about |
| `ConfirmMisses.BlockInput` | internal/dbsql/dbsql.go:224-240 | `select '/*'; drop table t; select '*/'` likewise |
| `ConfirmMisses.LineInput` | internal/dbsql/dbsql.go:224-240 | a line `-- /*`, then `drop table t -- */`, likewise |
| `ConfirmMisses.WhereInput` | internal/dbsql/dbsql.go:223-246 | `update t set a = 'where'` likewise |
| `ConfirmMisses.SubqueryInput` | internal/dbsql/dbsql.go:223-246 | `update t set a = (select b from u where c = 1)` likewise |
| `ConfirmMisses.WithInput` | internal/dbsql/dbsql.go:222-246 | `with x as (select 1) delete from t` likewise |
| `ConfirmMisses.NothingHidden` | internal/dbsql/dbsql.go:232-240 | the conditions are met by code with literals without openers and with closed comments |
| `SqlitePath.ResolveExistingPrefix` | internal/store/store.go:601-619 | terminates with the resolution of the longest resolvable prefix and the untouched rest, or the path itself |
| `SqlitePath.ResolveSQLitePath` | internal/store/store.go:561-595 | succeeds exactly when the path, its longest resolvable prefix resolved, properly extends the resolved root component by component; each refusal exactly in its case |
| `SqlitePath.RelMeansInside` | internal/store/store.go:590-593 | the tests on the relative path mean proper containment |
| `SqliteOpen.EvalAnswers` | internal/store/store.go:601-619 | the file system with links answers as the check assumes |
| `SqliteOpen.PathMeansWalk` | internal/store/store.go:570-582 | without links, a text, relative or absolute, names what walking it reaches, `..` being the parent, or the one missing entry it ends at |
| `SqliteOpen.WhatIsOpened` | internal/store/store.go:583-588 | a creating open of an accepted path opens that path, or nothing, or, if the first unresolved component is a link, whatever the link leads to |
| `SqliteOpen.OpensInsideExactly` | internal/store/store.go:555-560 | nothing outside the root is opened iff the first unresolved component is no link, or one that leads nowhere or below the root |
| `SqliteOpen.AcceptedPathIsReal` | internal/store/store.go:583-588 | with no link there, the accepted path resolves to itself and is what is opened |
| `SqliteDsn.DriverOpens` | internal/store/store.go:551-553 | the driver opens what the accepted path, cut at its first `?`, names |
| `SqliteDsn.SettingsAreTheTools` | internal/store/store.go:551-553 | the driver reads the tool's settings and no others iff no component of the path holds a `?` |
| `SqliteDsn.DriverStaysInsideExactly` | internal/store/store.go:551-560 | for every accepted path, nothing outside the root is opened iff: without a `?`, the condition of `OpensInsideExactly`; with one, what stands before it names an entry below the root that is no link (an empty or dot name climbs), or a link that leads nowhere or below the root |
| `SqliteDsn.OpenSQLite` | internal/conn/registry.go:214-228 | the check, the printed text and the open of the name read in it: a refused path opens nothing, an accepted one stays below the root iff that condition holds; without links the verdict is whether what the walk reaches is below what the directory's walk reaches |
| `SqliteDsn.QuestionMarkEscapes` | internal/store/store.go:551-595 | for all names: `/a/l?x` with a live link `/a/l` to a file outside is accepted, and that file is opened |
| `SqliteOpen.DanglingLinkEscapes` | internal/store/store.go:555-560 | a dangling link in the directory is accepted under its own name, and the open creates its target outside |

## Left out

- Text of the designer's DDL: statements are constructors; only names, literals and lists are printed and scanned (`Quoting`), and the grid's statements in full (`GridText`).
- Engine rules beyond names and column references: implicit NOT NULL of key columns, an index MySQL needs for a foreign key, generated columns and functional indexes over a renamed column, casts of existing data, MySQL's implicit commits inside a batch of the grid.
- Column order, which ALTER cannot change and the designer does not promise.
- `parseFK` and `parseCheck`: the described table gives their results.
- JavaScript sorts names by UTF-16 units and the model by characters; the key comparison only needs that both sides are sorted the same way.
- The designer on SQLite against a database: its list is related to the Postgres list instead.
- Commits on tables without a primary key, where the grid matches all columns (`GridCommit.WholeRowCondition`) and may hit several rows; the auto-commit path, which sends one statement at a time.
- Column defaults that differ per inserted row (sequences): a draft's missing cells take fixed defaults.
- Reloading the grid while changes are queued: the source assumes that it does not happen (internal/web/spa/src/components/tabs/GridTab.tsx:67-71).
- `parseMultiKeys` and `decodeKey`, AES-GCM, base64 and nonces: keys come decoded, the AEAD is a lawful pair.
- Registry.PoolRegistry: the credential callback and the pools' own behaviour are not modelled.
- Sessions.SqlConn.Query: that a timeout expires, and a text that leaves a transaction open (the connection pool, which is not part of the repository, does not hand such a connection out again), are not modelled.
- Sessions.SqlConn.ExecScript: statements of the script are taken not to change their transaction's mode; blank ones are recognised by a parameter; the timeout it sets for its session is not recorded, as every later query sets it again.
- Sessions.StatementsStartInTheirMode: the caller's statement is taken not to set query_only itself.
- SqlitePath.ResolveSQLitePath: Unix paths; it accepts a dangling link that leaves the directory, as the code does (`SqliteOpen.DanglingLinkEscapes`).
- SqliteDsn.OpenSQLite: the driver is not part of the repository; that it takes the text up to the first `?` for the file name is its documented reading. A file system that changes between the check and the open is outside the model; permissions and hard links are not modelled.
- ConfirmStatements.NothingIsMissed: literals end at the next quote (no backslash escapes, no dollar quotes) and block comments do not nest. Of MySQL's own syntax, `#` comments, `--` as an operator when no blank follows (`select 1--1; drop table t`) and statements in `/*! ... */` are not modelled; a destructive statement behind or in one of them is missed. Nor are EXPLAIN ANALYZE, data-changing statements inside the parentheses of WITH, and WITH names that are verbs themselves.
- Rotation.ChangeIsLostExactly: one concurrent change; the theorems beside it are about runs without one.
- HTTP handlers, sign-in, metrics, Redis and Mongo commands, introspection queries, rendering: no property of this kind, or foreign code.
