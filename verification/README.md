# A verified model of maniflex's algorithms

maniflex is a Go framework that turns annotated structs into a REST service. Most of it
is reflection and HTTP plumbing; this project models the parts that are algorithms, in
Dafny, and proves what the framework's documentation promises of them. Each module
follows one source file. Code that updates state step by step is modelled by classes and
methods with loops, each proved against a specification; pure code by functions and
lemmas; concurrent code by step machines over which every interleaving is quantified.

- **Cascading delete** (`CascadeModel`, `CascadeNative`, `CascadeLemmas`, `CascadeOutcome`,
  `Cascade`, `CascadeLimits`, `CascadeCollisions`, `CascadeConstraints`, `CascadeHistory`).
  The recursive walk of a possibly cyclic row graph that
  deletes and nulls rows while paging over them, over a database whose own foreign keys
  take, null and refuse further rows in the same statements. It ends on every database;
  when it succeeds, nothing outside the rows reachable from the root is gone, no
  constraint is broken, no row was deleted twice, every rollup that was right is right,
  and every versioned write has one history row; no row of a model that is versioned,
  soft-deletes or is counted by a rollup vanishes without a delete of its own. The reachable rows are gone exactly and
  nothing refers to them whenever the schema lets no constraint delete behind the walk's
  back, and `CascadeLimits` proves that this condition is the exact one.
- **Key rotation** (`Rotation`, `RotationTheorems`, `RotationDigests`). Preflight, then rewriting, resumable
  at a cursor. Cryptography is abstract, under its round-trip laws.
- **SQL rendering** (`SqlText`, `LikePattern`, `LikeDrivers`, `Filters`, `FilterBuild`,
  `SqlParser`, `FilterMeaning`, `FilterTheorems`, `FilterOperators`, `FilterDrivers`,
  `Scope`, `AggregateExpr`, `Aggregate`, `AggregateBuild`, `AggregateStatement`,
  `AggregateMeaning`, `AggregateTerms`, `AggregateSample`, `Placeholders`, `JsonNumber`; `SampleEngines` for concrete inputs).
  Text is a sequence of tokens with placeholders. `Resolve(text, args, 0)` is the statement with each
  placeholder replaced by the argument it names; an independent parser with operator
  precedence reads it back and an evaluator with three-valued logic gives it meaning.
- **Middleware chains** (`Chain`, `Registry`, `Pipeline`, `PipelineBodies`,
  `PipelineCache`, `PipelineSample`, `CacheRace`).
  Middleware are trees of calls to next, so the chain-of-chains theorem covers code that
  returns early, fails, or calls next any number of times.
- **Single flight** (`ProbeFlight`) and **worker pool** (`WorkerPool`), as step machines
  at the grain of one access to the mutex, the channel or the shared fields.
- **Migrations** (`Migrations`) under failures and crashes at any point, and the **cache**
  (`Cache`) against a map that never evicts.

`Ordering` and `Wrappers` hold shared definitions.

What an operator, a sign, a check or a registration stands for is stated twice: once by the
functions the code and its specification share, and once in plain terms that call none of
them (integers and reals compared, fields of the models, places in a list), together with
literal cases whose whole outcome is written out.

## Where the code does not keep its promise

The model keeps the code as it is. Each case below has a concrete failing input and the
exact condition under which the promise holds.

1. **A rotation interrupted during its preflight** returns the preflight's cursor although
   nothing was written (encryption.go:353-358), and the documentation says to resume from
   it (docs/src/advanced-topics/encryption.md:316-319). The rows before it then keep the
   old key while the resumed run answers `Complete`. `PreflightStopLosesTheRow` runs into
   this; `ResumeAfterPreflightStopIff` says when resuming is nevertheless complete:
   exactly when no row the preflight had passed holds the old key.
2. **A locale column** binds its key before the predicate is chosen (filter_sql.go:151,
   155), but BETWEEN writes the column twice and several operators drop it
   (filter_sql.go:247, 373, 376, 388-393). On SQLite, `AlignedIffAllFit`: over a whole
   list, each "?" takes the argument it was written for exactly when every filter writes
   its locale column once or has none. The counts alone can agree while the arguments are
   shifted, and the statement then runs: `RunsShifted` is such a list. On Postgres the
   column may be repeated but not dropped, `NamedIffNoneDropped`: every argument is named
   by some "$N" of the clause exactly when no locale filter has has, not_has, an unknown
   or column-comparing operator, an IN over no values, or a BETWEEN without two bounds.
   The request filter=name.en:has:x gets that far: `NamesNoKey` builds its clause, which
   is a constant, with the key bound and never named.
3. **not_has over a NULL JSON column** selects the row on SQLite and not on Postgres,
   although both drivers are meant to agree (filter_sql.go:266-276). `NotHasOverNull` is
   such a row and `NotHasAgreesIff` is exact.
4. **A scope filter in an OR group the caller also uses** stops scoping
   (action_scope.go:119-123): in `SharedGroupWidens` Bob's scoped request selects Alice's
   post. `WidensIff` says for any query, scope and selected row when the scope refuses the
   row; `ScopeIntersects` holds whenever the groups are apart, so for every ungrouped
   scope.
5. **A scope with two different values for one field** is accepted for stamping
   (filter.go:363-367) and then hides the row it stamped:
   `ContradictoryScopeHidesItsRows`. `StampedVisibleIff` is exact, and looks at the scope
   alone: every filter has to agree with what is stamped on its field.
6. **chainFor reads the frozen flag twice** (pipeline.go:178, 196). If a registration and
   the freeze fall between a call's composition and its store, a stale chain is cached:
   `OvertakenCallCachesAStaleChain`, `StoreIsStaleIff`. `StaysStaleIff` says when it stays
   for ever, through every later call. With each call atomic, as `PipelineCache` takes it,
   caches are never stale.
7. **Database-enforced cascades** are left to foreign keys (cascade.go:346), which also
   remove rows the walk never visits. `DeleteTheOrder` runs the delete on a shop where
   this leaves a versioned row naming a row that is gone. `NeverDanglesIff` is the exact
   condition on the schema, which a computation over its edges decides: no model that
   constraints reach from a model the walk reaches may have a framework edge onto it.
   `DanglesIff` is exact for every finished delete, and `DanglesIffLeftNaming` over the
   rows it starts from when no row the walk reaches is also taken by a constraint. On
   every offending schema there is a run: `DeleteTheRoot`, whose delete succeeds.
8. **like and ilike** take a raw pattern, which the drivers read differently: like is
   promised to be case-sensitive (filter.go:19) and SQLite's is not, and no ESCAPE is
   written for either (filter_sql.go:222-227). `RawPatternsApart` gives rows the drivers
   disagree on, and `RawPatternAgreesIff` the exact patterns on which they never do.
9. **A walk that meets a row a constraint already took** reports a missing record and the
   whole delete is undone (cascade.go:444-446, db/sqlcore/tx.go:531-533), although the
   record is there. `DeleteThePost` runs into this: two comments on a post, the second a
   reply that goes with the first by a constraint. With the ids the other way round the
   same delete succeeds. In general `DeleteRecord` states, over a database that answers: a
   delete that no restriction stands against succeeds unless one row the walk reaches
   takes another one along. When the walk has one edge to follow and its rows fit one
   page, it succeeds exactly when no child takes along the record or a child of greater
   id.
10. **contains, starts_with, ends_with and ilike** ignore case by each database's own rules
    (filter_sql.go:222-227, 258-264), which part outside ASCII: `AccentsApart`.
    `TextAgreesIff` says for any two foldings on which values a filter never parts the
    drivers: those whose characters both identify with the same others.
11. **A rotation that fails on rows and is then interrupted** reports a cursor past them
    (encryption.go:497-511). What is resumed there leaves them under the old key:
    `ReportedThenResumedIff`, complete exactly when the interrupted run reported no
    failure, and `ResumedToCompletionIff` over any number of runs.

## Model

| member | source | states |
|---|---|---|
| CascadeModel.CascadeKeyInjective | cascade.go:538-538 | the visited set tells any two rows apart, as long as model names carry no NUL |
| CascadeModel.PendingKeyInjective | cascade.go:228-240 | two rollup columns share a pending entry only if they are the same column of the same parent |
| CascadeModel.OneHistoryRowPerWrite | cascade.go:312-334 | in a bookkept log the versioned writes and the history rows, written or failed, are the same multiset |
| CascadeLemmas.HistoryRowsExact | cascade.go:281-334 | over the log of a finished delete, in the fields of the models: a child write is followed at once by its history row, or the record of its failure, exactly when its model is versioned and a history model is registered, whether or not it requires history; nothing else writes history; only models that tolerate it fail to |
| Ordering.SortIds | cascade.go:255-255 | lists exactly the elements of a set in ascending order |
| Ordering.ListingUnique | cascade.go:255-255 | that listing is the only one, so the recompute order is fixed |
| Ordering.LessIff | cascade.go:255-255 | the order is that of the first character in which two strings differ, a prefix first |
| CascadeLemmas.InvalidateAdds | cascade.go:228-241 | the pending columns grow by exactly the parent columns the pre-image names, each filed under its own key, and by none for a row that names no parent |
| Cascade.DefaultSteps.ChildCascadeEdges | cascade.go:43-56 | returns exactly the relations with an onDelete action against the parent |
| Cascade.DefaultSteps.CascadeHooksFor | cascade.go:281-294 | the child owes a history row exactly when it is versioned and a history model is registered for it (`HistoryRowsExact` says so of every write), and every rollup over it, and nothing else |
| Cascade.DefaultSteps.PreImage | cascade.go:299-306 | reads the live row exactly when some bookkeeping needs it |
| Cascade.DefaultSteps.AfterCascadeWrite | cascade.go:312-334 | the pending columns grow by those the pre-image names; the sweep stops exactly when a history row that was due failed and the model requires it |
| Cascade.DefaultSteps.CascadeChildren | cascade.go:341-354 | every framework edge onto the row is settled, the walk's invariant is kept whatever the database removes meanwhile, and the recursion ends on any database, cyclic ones included |
| Cascade.DefaultSteps.ApplyCascadeEdge | cascade.go:358-368 | settles one edge by its own action |
| Cascade.DefaultSteps.CascadeRestrict | cascade.go:381-401 | succeeds only if no live row references the parent, and a refusal is justified by a row that did, whatever total the adapter reports |
| Cascade.DefaultSteps.CascadeSetNull | cascade.go:408-421 | afterwards no live row references the parent through the edge |
| Cascade.DefaultSteps.CascadeDeleteRows | cascade.go:427-449 | afterwards every row that referenced the parent at the start has been visited, its own children first, or is gone by a constraint |
| Cascade.DefaultSteps.EachChild | cascade.go:473-490 | the walk's own page loop: whatever lay in front of the cursor is handed to the edge's action or is gone, although that action deletes and nulls rows the loop pages over |
| Cascade.Database.Delete | db/sqlcore/tx.go:517-534 | a soft delete hides one row; a DELETE takes every row that cascades from it through constraints, nulls the columns that name them, and is refused when a kept row restricts |
| Cascade.DefaultSteps.ChildIDPage | cascade.go:494-516 | one page in id order past the cursor, without rows that have no id |
| Cascade.DefaultSteps.EachChildID | cascade.go:473-490 | for any page size and any callback that deletes and nulls: hands out ascending ids, each once, each matching when its page was read, and every one that matched at the start and still matches at the end |
| Cascade.DefaultSteps.RunPendingRollups | cascade.go:254-266 | recomputes each disturbed column once, in key order, skipping parents the sweep deleted |
| Cascade.DefaultSteps.EnforceCascadeDelete | cascade.go:183-209 | success gives the whole sweep outcome; a restriction means a restrict edge, or a restricting constraint, named a row the delete reaches; a missing row means that one row the walk reaches takes another along |
| Cascade.DefaultSteps.DeleteRecord | steps.go:2070-2086 | on success only reachable rows are gone, visited rows and what constraints took, no constraint is broken, survivors are kept but for NULLs where they named removed rows, rollups are right; each child write is followed by its history row exactly when, in the fields of the models, it is versioned and has a history model; each row the walk visited has its own delete in the log; soft-deleted rows stay stored; reachable rows are gone exactly and nothing dangles unless constraints delete behind the walk; on failure nothing changed; over a database that answers, a delete of a live record that nothing restricts fails only if one reached row takes another along, and, with one edge and one page to walk, exactly if a child takes along the record or a later child |
| Cascade.DefaultSteps.HandPage | cascade.go:483-487 | hands out a page in order |
| Cascade.DefaultSteps.NullOne | cascade.go:410-420 | one child nulled, with its bookkeeping |
| Cascade.DefaultSteps.DeleteOne | cascade.go:429-448 | one child skipped if visited, else marked, settled and deleted, with its bookkeeping; refused if a constraint removed it meanwhile, which happens only if another row the walk reaches takes it along |
| Cascade.DefaultSteps.DeleteSettled | cascade.go:440-447 | the child's own delete once its children are dealt with: what dies besides it goes with it by a constraint |
| Cascade.DefaultSteps.DeletePage | cascade.go:483-487 | a page of children without children of their own: every one is found unless an earlier one of the page took it along, and exactly then |
| CascadeLemmas.Collided | db/sqlcore/tx.go:531-533 | a row the walk comes to delete is missing only if another row the walk reaches takes it along |
| CascadeNative.TakenFromOne | cascade.go:98-129 | whatever goes with a set of rows goes with one of them |
| CascadeLemmas.RanIntoNothing | cascade.go:427-449 | a finished sweep over one page found the record still there, so no child took along the record or a later child |
| CascadeCollisions.RunsIntoCollides | db/sqlcore/tx.go:531-533 | the exact condition for one edge is an instance of the general one |
| CascadeCollisions.DeleteThePost | cascade.go:427-449 | over a database that answers: a reply with the greater id makes the delete of the post report a missing record and change nothing, with the smaller id the delete succeeds |
| CascadeLemmas.KilledKeeps | cascade.go:427-449 | soft-deleting a visited row keeps the walk's invariant |
| CascadeLemmas.HardDeletedKeeps | cascade.go:73-78 | a DELETE of a visited row keeps it too, with everything its constraints take and null: what died went with a visited row, no cascade reference is lost, no constraint is left broken |
| CascadeLemmas.ConstraintsSpareRollupChildren | cascade.go:61-78 | constraints touch no row a rollup aggregates, so the totals the sweep answers for do not drift |
| CascadeNative.TakenLeast | cascade.go:98-129 | the rows a DELETE takes along are the least set closed under the constraints that cascade |
| CascadeLemmas.NulledKeeps | cascade.go:408-421 | nulling a set-null column keeps it, and no cascade reference is lost by it |
| CascadeLemmas.BooksAfterWrite | cascade.go:312-334 | one child write with its bookkeeping keeps the pending columns exactly those the log disturbed, and no row deleted twice |
| CascadeOutcome.RemovalExact | cascade.go:341-449 | whatever constraints do in between, unless they delete from a model a framework edge points at, the rows gone are the least set closed under both kinds of cascade, and no row names one of them |
| CascadeOutcome.RemovalWithin | cascade.go:341-449 | on any schema the rows gone lie within every set closed under both kinds of cascade |
| CascadeOutcome.GoneModels | cascade.go:343-348 | a row gone without being visited belongs to a model that constraints reach from a model the walk reaches |
| CascadeConstraints.OnlyDependantsGo | cascade.go:341-449 | the rows gone lie in every set that holds the record and is closed under foreign keys that cascade, by declaration or as a junction's default |
| CascadeConstraints.DependantsGo | cascade.go:341-449 | and unless constraints delete behind the walk, every row with an id that named a removed row in a foreign key declared to cascade is gone too |
| CascadeConstraints.ConstraintActs | cascade.go:98-129 | what a DELETE does through each relation left to the database: the row goes when it cascades, or when a junction declares nothing, the column is cleared, the delete is refused, or the column stays |
| CascadeConstraints.NoSilentRemoval | cascade.go:61-78 | a row gone from a model that soft-deletes, is versioned or is counted by a rollup has its own delete in the log: no constraint removed it |
| CascadeConstraints.RemovalsHaveHistory | cascade.go:61-78 | so over a database that answers every removed row of a versioned model with a history model, the record itself apart, has its history row |
| CascadeConstraints.WalkSettlesRoot | cascade.go:341-354 | no visible row names the deleted record any more through a declared relation the database could not enforce |
| CascadeConstraints.DeadRowsStored | db/sqlcore/tx.go:517-534 | rows of soft-deleting models stay stored with their data; of other models only visible rows are stored |
| CascadeHistory.DeleteTheAuthor | cascade.go:427-449 | over a database that answers: a soft-deleting author with one post, versioned without requiring it, and a site counting posts; the author is hidden, the post removed with its delete row in PostHistory, the count 0 |
| CascadeLemmas.RollupsCorrect | cascade.go:243-266 | every rollup column correct before the sweep, or touched by it, is correct after it |
| CascadeLemmas.DisturbedOnce | cascade.go:254-266 | every surviving disturbed parent is recomputed exactly once and no other |
| CascadeLemmas.SweepConcludes | cascade.go:183-209 | all of a successful sweep: what it visited is gone and settled, rollups right, recomputes after the last write, each disturbed column once |
| CascadeLemmas.RootDeleted | steps.go:2297-2299 | deleting the root with what its constraints take completes the delete: everything visited is gone and settled, rollups and history carry over, no row was deleted twice |
| CascadeLimits.DanglesIffLeftNaming | cascade.go:73-78 | over the rows alone, when no row the walk reaches is also taken by a constraint: the delete removes S and N, and nothing dangles exactly when no other row names a row of N through a framework edge |
| CascadeLimits.DanglesIff | cascade.go:73-78 | for every finished delete: nothing dangles exactly when no kept row named a row that went by a constraint |
| CascadeLimits.NeverDanglesIff | cascade.go:343-348 | no delete of a row of the model can leave anything dangling, on any database, exactly when no model that constraints reach from a model the walk reaches has a framework edge onto it |
| CascadeLimits.EveryRemovalDangles | cascade.go:343-348 | on the database built along an offending chain of edges every delete that succeeds leaves the last row naming a row that is gone |
| CascadeLimits.DetourIff | cascade.go:343-348 | the schemas on which a delete can leave something dangling are exactly those with an offending chain of edges |
| CascadeLimits.ChainUnforbidden | cascade.go:343-348 | nothing restricts the delete of a chain's root and no row the walk reaches takes another along |
| CascadeLimits.DeleteTheRoot | steps.go:2070-2086 | so over a database that answers that delete succeeds, and leaves the chain's last row naming a row that is gone |
| CascadeLimits.DeleteTheOrder | cascade.go:343-348 | run on a shop of orders, lines and versioned notes, the delete of an order succeeds if the database answers, and then leaves the note naming the removed line |
| Rotation.EncryptFields | encryption.go:70-114 | every written field decrypts to its plaintext under its key and carries the matching digest; an emptied unique field clears its digest |
| Rotation.DecryptFields | encryption.go:119-151 | plaintext replaces every envelope, legacy values and other columns are untouched, digests are removed |
| Rotation.WriteThenRead | encryption.go:70-151 | reading back what was written gives what was written |
| RotationDigests.WriteSeals | encryption.go:55-114 | a written value is an envelope of the field's key, beside a unique one its digest under the provider's index key, or the field's key when it has none |
| RotationDigests.TextSurvives | encryption.go:70-151 | text written and read back is that text, sealed under the model's key or "default" |
| Rotation.InspectField | encryption.go:423-487 | decides one field as the specification of a check says, which `CheckIs` spells out stage by stage, and reseals exactly the old-key fields when rewriting |
| RotationDigests.CheckIs | encryption.go:423-487 | in terms of what the columns hold: when a field fails to decode, to name its key, to open, or carries another digest than that of its text under the index key, and when it is to be resealed |
| RotationDigests.CleanIff | encryption.go:423-487 | a row stands in nobody's way exactly when every envelope decodes and names its key, those to be opened open, and every unique one carries the digest of its text under the index key |
| Rotation.ScanRow | encryption.go:417-488 | reports a failure for every field in the way, and otherwise the columns that rotate the row |
| Rotation.ScanStep | encryption.go:497-511 | one row rewritten when clean or reported when not, the cursor moved past it, the counters kept |
| Rotation.ScanPage | encryption.go:411-512 | one page of the scan: rotated up to the cursor it reports, polling before each row |
| Rotation.ScanEncryptionRotation | encryption.go:380-519 | rows passed are rotated or reported, rows not passed untouched, counters are the sizes of those sets, and a finished scan passed every row |
| Rotation.RotateEncryptionKey | encryption.go:278-378 | refusals, a dirty or stopped preflight writes nothing, a dirty one lists every field in the way at its stage and nothing else, a mutation only starts on a clean range, Complete means rotated, what an interrupted run has done, and that each row it failed on is visible, passed and holds an old-key envelope that cannot be resealed |
| Rotation.RotationKeepsPlaintexts | encryption.go:270-273 | plaintexts and digests survive rotation |
| Rotation.RotationLeavesNoOldKey | encryption.go:264-277 | a rotated row holds no old-key envelope |
| Rotation.UntouchedIsRotatedIff | encryption.go:275-277 | leaving a row alone rotates it exactly when it held no old-key envelope |
| Rotation.WrittenRowsPassPreflight | encryption.go:46-67 | rows written under a stable digest key are clean |
| RotationTheorems.CompleteMeansRotated | encryption.go:278-378 | Complete: no old-key envelope past the start, same plaintexts, same digests |
| RotationDigests.CompleteMeansDigests | encryption.go:457-481 | Complete: beside every unique sealed field of a visible row past the start stands the digest of its text under the provider's index key, before and after |
| RotationDigests.StaleDigestReported | encryption.go:457-481 | a row with any other digest makes a finished preflight Dirty, with that row and field at the blind-index stage |
| RotationDigests.RotateAddress | encryption.go:278-378 | on one literal row: with a digest made before the index key existed the rotation is refused, reports exactly that field and writes nothing; with the index key's digest it completes |
| RotationTheorems.InterruptedThenResumed | encryption.go:275-277 | a run stopped while writing that failed on no row, resumed from its cursor, equals one complete run |
| RotationTheorems.ResumedToCompletion | encryption.go:275-277 | the same for any number of such runs; `ResumedToCompletionIff` covers runs that failed on rows |
| RotationTheorems.FailedThenResumedIff | encryption.go:497-511 | after a run interrupted with failed rows, what is resumed from its cursor leaves exactly those rows as they were, and is complete exactly when none of them held an old-key envelope |
| RotationTheorems.ResumedToCompletionIff | encryption.go:275-277 | over any number of interrupted runs, failing or not: everything past the first cursor is rotated in the end exactly when no row an earlier run failed on held an old-key envelope |
| RotationTheorems.ReportedThenResumedIff | encryption.go:497-511 | with the failures the code reports: complete exactly when the interrupted run reported none |
| RotationTheorems.RotationsAgree | encryption.go:275-277 | two rotations of one table by whatever runs agree on every plaintext, key id and column |
| RotationTheorems.ResumeAfterPreflightStopIff | encryption.go:353-358 | resuming from a preflight's cursor is complete exactly when the rows it passed held no old key |
| RotationTheorems.PreflightStopLosesTheRow | encryption.go:353-358 | a one-row table whose row keeps the old key although the resumed run is Complete |
| SqlText.Binder.Add | aggregate.go:523-529 | the new placeholder stands for the new argument, whatever is appended later |
| SqlText.RendersConcat | aggregate.go:516-534 | texts rendered one after the other keep their arguments when joined |
| SqlText.RendersAgain | filter_sql.go:371-378 | text without "?" may be written again later, after more arguments, and still stands for the same |
| SqlText.QuoteLexes | filter_sql.go:447-449 | a quoted identifier lexes back to the identifier, for every string |
| SqlText.HolesAreTheQuestionMarks | filter_sql.go:447-449 | in text whose fixed fragments are plain, the "?" outside quotes are exactly the placeholders, whatever identifiers contain |
| SqlText.LinedConcat | aggregate.go:516-534 | texts written one after the other take their own arguments exactly when each of them does |
| SqlText.CoversConcat | aggregate.go:516-534 | of texts written one after the other every argument is named by some "$N" exactly when each names all its own |
| Placeholders.ClauseQuestionMarks | filter_sql.go:49-69 | in the clause as built, whatever the tables, columns and keys are called, SQLite sees one "?" for each argument when every filter fits, and Postgres sees none |
| Placeholders.StatementQuestionMarks | aggregate.go:91-239 | the same of the whole aggregate statement |
| LikePattern.SuccessiveIsSinglePass | filter.go:235-254 | the three replacements in turn equal a single-pass escape |
| LikePattern.PatternIsExact | filter.go:226-254 | a LIKE matcher with escape accepts the pattern exactly on strings with that substring, prefix or suffix |
| LikePattern.FoldPattern | filter_sql.go:258-264 | lower-casing a pattern gives the pattern of the lower-cased value |
| Filters.InPredicate | filter_sql.go:386-404 | renders the list with one placeholder a value; an empty list is a constant that drops the column |
| Filters.BetweenPredicate | filter_sql.go:371-378 | both bounds land in their own places; on SQLite exactly if the column has no "?", otherwise one placeholder too many, while on Postgres the column's "$N" may stand twice |
| Filters.SubstringPredicate | filter_sql.go:258-264 | the bound value is the escaped pattern, under an explicit ESCAPE |
| Filters.FilterPredicate | filter_sql.go:203-248 | every operator becomes its intended text, which `FilterOperators` gives its meaning; on SQLite each "?" is in line with its argument exactly when the column's "?" is written once, and the surplus of placeholders is the column's uses less one; on Postgres every argument is named by some "$N" exactly when the column is written at all |
| FilterBuild.FilterColumn | filter_sql.go:144-158 | a locale column binds its key once, other columns nothing |
| FilterTheorems.FieldCompareReads | filter_sql.go:194-200 | a column compared with a column reads back as that comparison, whatever follows it |
| FilterBuild.JsonArrayHasPredicate | filter_sql.go:304-315 | membership of the encoded value, or a refusal that binds nothing |
| FilterBuild.JsonObjectHasPredicate | filter_sql.go:325-344 | the key=value pair with its key bound inside the path, or a refusal that binds nothing |
| FilterBuild.JsonHasCond | filter_sql.go:277-296 | has and not_has over arrays and objects, malformed ones false either way |
| FilterBuild.FilterCond | filter_sql.go:121-141 | one filter becomes its intended text; exactly when it fits the driver each "?" is in line with its argument, or each argument named by some "$N" |
| FilterBuild.PartitionFilters | filter_sql.go:77-97 | splits off the ungrouped filters and the OR groups, nil entries dropped, groups ascending |
| FilterBuild.SortIntsSorts | filter_sql.go:95-95 | group ids come out ascending, exactly those seen |
| FilterBuild.SeenIffMembers | filter_sql.go:80-94 | a group is listed exactly when it is positive and has a member |
| FilterBuild.BuildGroup | filter_sql.go:56-67 | one parenthesised OR over the members, a lone member bare |
| FilterBuild.BuildFilterSQL | filter_sql.go:49-69 | with its arguments in place the text is the intended clause, on SQLite whenever every filter fits; each "?" takes the argument it was written for, or on Postgres each argument is named by some "$N", exactly when every filter fits the driver; on SQLite placeholders exceed arguments by exactly the total surplus; what the comparisons in it select is `BuiltComparisonsHold` |
| FilterTheorems.CondReads | filter_sql.go:121-141 | every rendered filter reads back as one predicate and offers no AND or OR to what it is joined with |
| FilterTheorems.CondMeans | filter_sql.go:121-141 | that predicate is true, false or NULL on a row exactly as the filter is, each operator with its own sign or shape |
| FilterTheorems.ClauseMeansFilters | filter_sql.go:43-69 | parsed and evaluated, the clause is true exactly when every ungrouped filter passes and some member of each group does |
| FilterTheorems.BuiltClauseMeansFilters | filter_sql.go:49-69 | the same of whatever BuildFilterSQL produced, with its own arguments |
| FilterOperators.ResolvesByColumnFirst | filter_normalize.go:21-26 | a name denotes the first field with that column, else the first with that JSON name, else none |
| FilterOperators.ListHolds | filter_sql.go:414-430 | a list is taken as written, anything else is its formatted text split by the CSV helper |
| FilterOperators.CutAtFirst | filter_sql.go:326-326 | a pair is cut at its first equals sign |
| FilterOperators.ComparisonSelects | filter_sql.go:203-216 | over integers a row passes eq, neq, gt, gte, lt, lte exactly when x = v, x != v, x > v, x >= v, x < v, x <= v |
| FilterOperators.FieldComparisonSelects | filter_sql.go:163-179 | the same of the six column comparisons, between the two columns |
| FilterOperators.MembershipSelects | filter_sql.go:387-403 | in and not_in over integers are membership and its negation, the empty list included |
| FilterOperators.RangeSelects | filter_sql.go:371-378 | between is both bounds inclusive, and false without exactly two |
| FilterOperators.NullSelects | filter_sql.go:217-220 | is_null and not_null |
| FilterOperators.TextSelects | filter_sql.go:258-264 | contains, starts_with and ends_with find the folded text somewhere, at the start, at the end |
| FilterOperators.RemoteSelects | filter_sql.go:144-158 | a comparison on a related column or a translation reads that column or that key |
| FilterOperators.ArrayHasSelects | filter_sql.go:304-315 | has over an array is membership of the encoded value |
| FilterOperators.ObjectHasSelects | filter_sql.go:325-344 | has over an object is the key holding the value |
| FilterOperators.BuiltComparisonsHold | filter_sql.go:49-69 | the clause as built, with its own arguments, read back: true exactly when every integer comparison of the list holds |
| FilterOperators.BuildSampleClause | filter_sql.go:49-69 | three literal filters, two in a group: every token of the clause, on either driver |
| FilterDrivers.DriversAgree | filter_sql.go:250-256 | both drivers' clauses select the same rows, for filters portable on the row, over engines that store the same text and documents and fold case each in its own way |
| FilterDrivers.BuiltClausesAgree | filter_sql.go:49-69 | so do the texts as built, each with its own arguments |
| FilterDrivers.HasAgrees | filter_sql.go:304-346 | over a value that is not NULL the drivers answer a has alike, given that their JSON functions find the same elements and pairs (`SameDocuments`, `SamePairs`); over NULL one answers NULL and the other false |
| FilterDrivers.NotHasAgreesIff | filter_sql.go:277-296 | for a well-formed not_has the drivers agree on a row exactly when its column is not NULL |
| FilterDrivers.NotHasOverNull | filter_sql.go:277-296 | a task without tags: not_has selects it on SQLite and not on Postgres |
| FilterDrivers.TextAgreesIff | filter_sql.go:222-264 | for any two foldings of case, a like, ilike, contains, starts_with or ends_with selects the same rows on both drivers, whatever they hold, exactly when both identify the same characters with each of its text, which for the first two has no backslash |
| FilterDrivers.AccentsApart | filter_sql.go:258-264 | contains of an accented capital over its small letter: Postgres selects the row and SQLite does not |
| FilterDrivers.RawPatternAgreesIff | filter_sql.go:222-227 | read for a Postgres LIKE that tells cases apart, and one fold for ilike: a raw pattern selects the same rows on both drivers exactly when it has no backslash and, for like, no letter whose case SQLite folds |
| FilterDrivers.RawPatternsApart | filter.go:19-20 | one row SQLite alone selects by like, one Postgres alone selects by ilike |
| LikeDrivers.RawAgreesIff | filter.go:19-20 | the same of patterns and texts, for any two foldings |
| LikeDrivers.LikeAgreesIff | filter.go:19-20 | for a LIKE that folds nothing next to one that folds: no backslash and no letter whose case is folded |
| LikeDrivers.ILikeAgreesIff | filter.go:19-20 | for two that fold alike: no backslash |
| LikeDrivers.ShapedAgreesIff | filter_sql.go:258-264 | two folded substring, prefix or suffix tests accept the same texts exactly when the foldings identify the same characters with each of the value's |
| FilterDrivers.BrokenFilterSelectsNothing | filter_sql.go:233-247 | an unresolvable or malformed ungrouped filter, negated ones included, leaves a clause true of no row; on SQLite in a list whose filters all fit, which excludes a malformed filter on a locale column |
| FilterDrivers.CountsAgreeIffFits | filter_sql.go:144-158 | on SQLite placeholders and arguments of a filter alone agree in number exactly when it writes its locale column once or has none |
| FilterDrivers.AlignedIffAllFit | filter_sql.go:49-69 | of a whole list on SQLite: the k-th "?" takes the k-th argument, the one it was written for, for every k and with none left over, exactly when every filter fits |
| FilterDrivers.RunsShifted | filter_sql.go:371-393 | a BETWEEN and an empty IN over a translated column: as many "?" as arguments, and one takes an argument written for another |
| FilterDrivers.LocaleBetweenMisaligns | filter_sql.go:371-378 | BETWEEN over a locale column has one "?" too many on SQLite; on Postgres, which names the key twice, it fits |
| FilterDrivers.LocaleKeyOrphaned | filter_sql.go:121-125 | a locale filter's key is bound and never named, on either driver, exactly when its predicate drops the column: the operators that do are listed |
| FilterDrivers.NamedIffNoneDropped | filter_sql.go:49-69 | of a whole list on Postgres: every argument is named by some "$N" of the text exactly when no locale filter drops its column |
| FilterDrivers.NamesNoKey | filter_sql.go:144-151 | filter=name.en:has:x built for Postgres: the clause is a constant, and the key is bound to an argument no "$N" names |
| Scope.ServerContext.ScopedQuery | action_scope.go:111-124 | a new query with the scope appended and the caller's untouched, or the caller's own when unscoped |
| Scope.ServerContext.Injectable | action_scope.go:72-85 | the columns to stamp, or the first filter that names no value |
| Scope.ScopeColumns | filter.go:358-370 | accepts exactly all-equality ungrouped plain scopes (`AcceptedScopes`), later values overwriting earlier ones (`LastFilterStamps`) |
| Scope.AcceptedScopes | filter.go:358-370 | accepted exactly when every filter is an ungrouped equality on a plain column |
| Scope.FirstIsReported | filter.go:358-370 | else the first that is not one is reported |
| Scope.LastFilterStamps | filter.go:358-370 | a column several filters name is stamped with the last value |
| Scope.ScopeIntersects | action_scope.go:47-51 | a scoped query selects exactly the rows the query selects and the scope admits |
| Scope.ScopedClauseIntersects | action_scope.go:107-124 | the same of the SQL clauses |
| Scope.WidensIff | action_scope.go:119-123 | for any query and scope, a selected row is refused by the scope exactly when some OR group of the scope has no passing member of its own and a passing one among the caller's filters |
| Scope.SharedGroupWidens | action_scope.go:119-123 | a literal post, query and scope in one OR group: the scoped query selects a row the scope refuses |
| Scope.StampedRowsAreVisible | action_scope.go:66-71 | if some row satisfies an accepted scope, the rows that do are exactly those carrying the stamped columns |
| Scope.StampedVisibleIff | action_scope.go:66-71 | of any accepted scope: a row that carries the stamps is visible under it exactly when every filter's normalised value is not NULL and equals what was stamped on its field |
| Scope.ContradictoryScopeHidesItsRows | filter.go:358-370 | a literal scope with two values for one field: accepted, stamped with the later, and the stamped row hidden |
| AggregateExpr.WalkMeasures | aggregate_expr.go:185-222 | despite the early return the walk measures the whole tree or reports it too deep |
| AggregateExpr.CompileAcceptsExactly | aggregate_expr.go:152-181 | accepts exactly complete trees of height at most 8 and at most 32 nodes over numeric columns, under a free name |
| AggregateTerms.CompiledInTerms | aggregate_expr.go:152-222 | the same with no function of the check: every name in the tree denotes a field holding numbers |
| AggregateExpr.VisitsBounded | aggregate_expr.go:207-211 | whatever the tree, validation looks at no more than 511 nodes |
| AggregateExpr.RenderAggExpr | aggregate_expr.go:259-289 | succeeds exactly when every column resolves, and binds each literal to its own placeholder; what the text computes is `OperationsCompute` |
| AggregateExpr.ExprReadsBack | aggregate_expr.go:259-289 | the text parses back to the tree, whatever follows it |
| AggregateExpr.TextDeterminesTree | aggregate_expr.go:259-289 | equal texts come from equal trees |
| AggregateExpr.TextComputesMeaning | aggregate_expr.go:56-64 | the text computes the tree's value, each operation by its own arithmetic, a division by zero being NULL, and never faults on either driver |
| AggregateExpr.OperationsCompute | aggregate_expr.go:48-64 | over a machine that computes reals the text of Add, Sub, Mul and Div has the value x + y, x - y, x * y, x / y, and NULL for a zero divisor |
| AggregateExpr.LeavesCompute | aggregate_expr.go:41-45 | a column has the row's value and a literal its own |
| AggregateExpr.NullSpreads | aggregate_expr.go:259-289 | an operation on a NULL is NULL |
| AggregateExpr.RenderMargin | aggregate_expr.go:259-289 | price less cost: the text, and 6 on a row with 10 and 4 |
| Aggregate.ModelMeta.RegisterAggregateExpr | aggregate_expr.go:293-304 | installs a compiled expression under a free name and keeps every installed one valid |
| Aggregate.AcceptedIffWellFormed | aggregate.go:114-224 | a query is refused exactly when it is not well formed |
| AggregateTerms.AcceptedInTerms | aggregate.go:114-224 | what well formed is, in the fields of the model and the query: known operators and operands, distinct aliases, columns to group by, own plain filters, the six comparisons on selected aliases, asc, desc or no direction |
| AggregateTerms.AliasInTerms | aggregate.go:414-444 | the default alias of each operator over a column |
| AggregateBuild.AggregateOperand | aggregate.go:450-463 | a registered expression before a column of the same name |
| AggregateBuild.AggregateSelectSQL | aggregate.go:262-292 | one aggregate, its alias, or its first error |
| AggregateBuild.SelectParts | aggregate.go:124-139 | the SELECT list with its literals bound in order and a map from each alias to its field |
| AggregateBuild.HavingParts | aggregate.go:175-199 | each condition re-renders its aggregate, so each occurrence has placeholders and arguments of its own |
| AggregateStatement.CheckFilters | aggregate.go:149-162 | the first error of three passes in order: nil, unknown column, nested |
| AggregateStatement.WhereClause | aggregate.go:501-512 | no WHERE for no filters, else the filters' clause |
| AggregateStatement.GroupByParts | aggregate.go:139-144 | every group column, or the first the model lacks |
| AggregateStatement.OrderByParts | aggregate.go:201-225 | an alias before a group column, ascending by default, anything else refused |
| AggregateStatement.BuildAggregate | aggregate.go:91-239 | refused with its first error or, with its arguments in place, the intended statement; on SQLite each "?" takes its own argument, and on Postgres every argument is named by some "$N", exactly when every filter fits the driver; on SQLite the count of placeholders is off by exactly the filters' surplus |
| AggregateMeaning.StatementReadsBack | aggregate.go:228-239 | the whole statement parses back to exactly the query: items with their expression trees and aliases, the filters' predicate, groups, conditions on the very aggregates they name with the comparison each sign stands for, order with its direction, and the limit as a number |
| AggregateMeaning.BuiltStatementMeansQuery | aggregate.go:91-239 | the same of the built text with its own arguments, whose WHERE is true exactly of the rows the filters and the scope select |
| AggregateTerms.HavingCompares | aggregate.go:473-489 | each condition read back compares the aggregate its alias selects with its own value, two numbers as its operator says |
| AggregateTerms.OrderFollows | aggregate.go:548-556 | each sort key read back: an alias before a group column, descending exactly when asked for |
| AggregateSample.BuildTotals | aggregate.go:91-239 | one literal query with every operator and every clause: the whole statement token by token, on either driver |
| SqlText.ItoaReads | aggregate.go:526-526 | a number is written in decimal digits that stand for it, with no zero in front |
| SqlText.PlaceholderShown | aggregate.go:523-529 | a placeholder is shown as "?", or as "$" and the number of its argument |
| JsonNumber.IsJSONNumber | aggregate.go:362-404 | accepts exactly the byte strings derived from the number grammar of section 6 of RFC 8259, reading in bounds |
| JsonNumber.ReadsIffDerives | aggregate.go:354-361 | the deterministic reading and the grammar agree |
| JsonNumber.NumberSamples | aggregate.go:354-361 | signs, fractions and exponents in either spelling are numbers |
| JsonNumber.RefusedSamples | aggregate.go:354-361 | a blank, a leading zero, plus or point, and a point or exponent without digits are not |
| JsonNumber.NormalizeAggregateNumbers | aggregate.go:332-353 | rewrites in place exactly the numeric texts of numeric columns |
| Chain.RunIsFlat | middleware.go:440-513 | running a chain of chains equals running its flattening: request, error and trace, for any middleware |
| Chain.FlatConcat | middleware.go:502-513 | a chain is its front with its back as next |
| Chain.TracedAround | middleware.go:440-500 | a traced middleware is logged before and after whatever comes behind it |
| Registry.DerivedReadsAreCovered | middleware.go:233-270 | naming a base read covers the reads derived from it, and never the reverse |
| Registry.AppliesIff | middleware.go:215-270 | a registration applies when its models and operations are unrestricted or name the request's, a list naming its export too, a read its attachment and history reads |
| Registry.ComposedCounts | middleware.go:386-416 | a step's chain holds each applicable registration once, but for scope providers and every Replace save the last; with `ComposedCarries` these are counts of the registered functions |
| Registry.ComposedInOrder | middleware.go:383-416 | Before registrations in the order they were made, then the core, then After registrations in theirs |
| Registry.ComposedCarries | middleware.go:386-416 | what a step's chain runs under the tag of a registration is that registration's own function and name, under the default's tag the built-in handler |
| Registry.StepRegistry.Register | middleware.go:339-352 | appends in order, or panics once frozen and changes nothing |
| Registry.StepRegistry.Compose | middleware.go:386-416 | before, the core, after, each in registration order, each with the function it was registered with |
| Registry.StepRegistry.Build | middleware.go:368-381 | always a fresh composition's answer; existing entries never change |
| Registry.StepRegistry.ScopeMiddlewares | middleware.go:423-434 | the applicable scope providers of a step the operation does not skip |
| Pipeline.PipelineIsFlat | pipeline.go:168-200 | the whole pipeline runs as one flat chain of nine segments |
| Pipeline.EveryRegistrationOnce | pipeline.go:176-200 | each applicable registration occurs exactly once in it, scope providers in the hoisted segment, all but the last Replace left out; with `PipelineRunsWhatWasRegistered` each occurrence runs the registered function |
| PipelineBodies.PipelineRunsWhatWasRegistered | pipeline.go:168-200 | the same of the whole pipeline, scope providers included |
| PipelineBodies.SegmentsInOrder | pipeline.go:168-200 | the nine segments in their order |
| PipelineSample.RunSamplePipeline | pipeline.go:168-200 | with literal registrations on three steps: what the request goes through, in order |
| Pipeline.ActionIsFlat | pipeline.go:99-122 | an action's chain runs as one flat chain too |
| Pipeline.TrimmedRegistrations | pipeline.go:99-163 | in a trimmed pipeline a registration runs exactly once if its step is executed and never if it is skipped |
| PipelineBodies.ActionRunsWhatWasRegistered | pipeline.go:99-122 | and of an action's chain, whose own middleware runs as given |
| PipelineBodies.FailedHandlerEnds | pipeline.go:105-110 | a handler that fails ends the action: nothing behind it runs |
| PipelineSample.RunSampleAction | pipeline.go:99-122 | with the same registrations: Auth, scope, its own middleware, the handler, its response middleware, Response, and nothing of the skipped steps |
| PipelineCache.RequestPipeline.Freeze | pipeline.go:62-68 | freezes every step and the whole, changing no chain |
| PipelineCache.RequestPipeline.Register | middleware.go:339-352 | the registration joins its own step and no other, or panics once frozen |
| PipelineCache.RequestPipeline.ScopeChainFor | pipeline.go:255-264 | every scope provider of every step the operation runs, in step order |
| PipelineCache.RequestPipeline.BuildStep | middleware.go:368-381 | one step's chain as composing it at this moment gives |
| PipelineCache.RequestPipeline.ChainFor | pipeline.go:176-200 | the answer is the composition of the registrations at this moment, and the cache gains only that |
| PipelineCache.RequestPipeline.ActionChainFor | pipeline.go:99-122 | an action's chain is assembled from the registrations at this moment |
| PipelineCache.RunCalls | pipeline.go:173-200 | over every sequence of Register, build, chainFor and freeze calls, each answer is what composing then and there gives |
| PipelineCache.FrozenAnswersAreFinal | middleware.go:281-289 | once frozen, the answer for a model and operation never changes |
| CacheRace.UndisturbedIsFresh | pipeline.go:176-200 | no entry is ever stale if no registration overtakes a call in flight |
| CacheRace.StoreIsStaleIff | pipeline.go:196-198 | what a call stores is stale exactly when something was registered after it composed |
| CacheRace.StaleForEver | pipeline.go:178-182 | over every continuation of arriving, stepping and returning calls a stale entry stays stale and every call not yet under way is answered with a stale chain, unless a fresh one was in flight |
| CacheRace.StaysStaleIff | pipeline.go:178-198 | after the freeze a stale entry is never replaced by a fresh one exactly when no call is composing or holds a fresh chain |
| CacheRace.EntryAnswersForEver | pipeline.go:178-182 | with no call under way the entry itself stays and every later chainFor returns it |
| CacheRace.OvertakenCallCachesAStaleChain | pipeline.go:176-200 | a run that ends with a stale entry |
| ProbeFlight.RunKeepsInv | probes.go:212-243 | what holds at every moment of every interleaving |
| ProbeFlight.FlightsAreShared | probes.go:193-245 | at most one flight is open, its work runs once, and everybody returns its outcome, a panic included |
| ProbeFlight.ParticipantsAgree | probes.go:207-211 | two requests that returned from one flight returned the same |
| ProbeFlight.NoLateJoinNoStrayRelease | probes.go:225-232 | nobody joins a released flight, and a release clears only its own, after its work |
| ProbeFlight.MayArrive | probes.go:212-220 | a request may look for a flight exactly when nobody else holds the mutex |
| ProbeFlight.LookingDecides | probes.go:212-223 | who looks while a flight is open joins it and starts no work; who looks while none is opens its own |
| ProbeFlight.LookersShare | probes.go:193-223 | over every continuation, a request that looked while a flight was open returns, when it does, from that flight with the outcome of its single run of the work |
| ProbeFlight.OutcomeWasProduced | probes.go:241-242 | a flight's outcome is what its opener's work produced |
| ProbeFlight.NeverStuck | probes.go:212-243 | while a request has not returned, some request can step |
| ProbeFlight.RunsFinish | probes.go:212-243 | no run exceeds nine steps a request, and one that can go no further has answered everybody |
| WorkerPool.ComputeRow | computed.go:403-413 | the row after every field in order, failing fields left out |
| WorkerPool.OnlyComputedColumnsChange | computed.go:400-445 | a field whose call fails or panics costs only itself |
| WorkerPool.ColumnIsItsCallback | computed.go:400-445 | a column holds what the callback of the last field with its name returned, the record callback when there is one; after an error or a panic what the row held before |
| WorkerPool.ComputedColumn | computed.go:446-457 | so in every row of a whole pass, each callback given the record of its own row |
| WorkerPool.StepKeepsInv | computed.go:375-397 | no step of any schedule breaks the invariant |
| WorkerPool.FinishedIsSequential | computed.go:375-397 | a finished pool handed out every index once and left the rows of a sequential pass |
| WorkerPool.AtMostEight | computed.go:373-382 | as many workers as rows but no more than eight, so many rows at most under way, no row under two workers |
| WorkerPool.NeverStuck | computed.go:375-397 | until the pool has finished some step can be taken |
| WorkerPool.StepProgresses | computed.go:375-397 | every step uses up some of a bounded measure |
| WorkerPool.ApplyPerRowComputed | computed.go:375-397 | under an arbitrary schedule the call ends with the rows of a sequential pass; a single row skips the pool |
| Migrations.ValidateMigrations | migrate.go:125-140 | accepts exactly non-empty distinct versions with an Up, and reports the first offence |
| Migrations.SortSorts | migrate.go:94-96 | the same migrations, strictly ascending by version |
| Migrations.SortUnique | migrate.go:17-18 | the order of registration does not matter |
| Migrations.Database.ApplyMigration | migrate.go:184-217 | in a transaction, applied and recorded or neither, however it ends; outside one, an effect can go unrecorded only between Up and record |
| Migrations.RunMigrations | migrate.go:89-123 | refuses invalid lists untouched; otherwise records a prefix of the pending migrations, all of them when it is done |
| Migrations.Resumes | migrate.go:111-114 | what is pending after a stopped run is the rest of what was pending before it |
| Migrations.RunUntilDone | migrate.go:56-61 | any runs, then one that completes, leave the state and versions of a single uninterrupted run in sorted order; however they end, each newly recorded step took effect exactly once and nothing else did |
| Migrations.EffectsAreRecorded | migrate.go:17-28 | a step took effect as often as it is recorded, plus once for each interruption between Up and record |
| Cache.MemoryCache.Get | cache.go:79-91 | answers as a map that never evicts, dropping exactly an expired entry |
| Cache.MemoryCache.Set | cache.go:94-105 | remembers the value until its time to live has passed; entries stay within the last sweep's survivors plus 128 |
| Cache.MemoryCache.Delete | cache.go:108-112 | forgets exactly that key |
| Cache.MemoryCache.PruneLocked | cache.go:115-122 | removes exactly the expired entries |
| Cache.Run | cache.go:79-122 | every run of calls under a clock that never goes back answers as if nothing were evicted |
| Cache.AnswersLastSet | cache.go:14-21 | a key answers with its last Set unless it was deleted or has expired |

## Left out

- HTTP serving, routing, logging, file streaming, OpenAPI generation and configuration: I/O or wrappers.
- Reflection and struct tags: a model is a datatype naming its table, columns, kinds and relations.
- The databases: their reads and writes are methods with the contracts stated in `Cascade`, `Rotation` and `Migrations`; a failure is a nondeterministic choice.
- The SQL engines: comparison, case folding and JSON functions are parameters of the evaluator under the laws of `Engine.Lawful`, `SameText` (equality and order of text, not case), `SameDocuments` and `SamePairs`. That an engine refuses a statement with an argument nothing names is not part of this model.
- Cryptography, base64, JSON encoding and number formatting: functions under their round-trip laws.
- Deadlines and wall-clock time: an interruption is a count of polls, the cache's clock a non-decreasing integer.
- Rows with an empty id: `childIDPage` drops them (cascade.go:510-513), so reachability is over rows with an id, and a rotation's table is taken to have none.
- Rollups of rollups: an aggregate reads the child's columns other than rollup totals, and no two rollups maintain one column.
- Foreign keys of the database: a DELETE takes its cascades along, nulls and refuses as one step, refusing only for a row that stays; the order in which a database fires them is not modelled, nor is which models are junctions (a flag of the model).
- Cascade.DefaultSteps.DeleteRecord: beyond one edge and one page the condition under which a walk meets a row a constraint took is necessary, not sufficient; which of two such rows comes first then depends on the whole walk and on which page they share.
- Cascade.DefaultSteps.CascadeRestrict: the message and the reported count are not modelled.
- Concurrent writers during a cascade or a rotation: each runs in its own transaction or, for a rotation, on a quiescent table.
- FilterDrivers.DriversAgree: for text operators and not_has it covers the filters and rows on which the drivers' own rules agree; `TextAgreesIff` and `NotHasAgreesIff` say which those are.
- FilterDrivers.BuiltClausesAgree: as `DriversAgree`, and for texts that stand for the intended clauses, which on SQLite needs every filter to fit.
- FilterDrivers.HasAgrees: that the two engines find the same elements and pairs in a document is a hypothesis on their JSON functions.
- FilterDrivers.BrokenFilterSelectsNothing: for lists that fit their driver; on SQLite a list that does not has its arguments out of line (`AlignedIffAllFit`), and what it then selects is not determined.
- Cross-table OR groups, the URL parser of filters and value normalisation: a filter arrives resolved and its normalised value is a function of the column.
- AggregateStatement.BuildAggregate: the letters of the statement between tokens, and the trimming of a direction, are not modelled; running the statement is not.
- Which aliases of an aggregate are numeric (aggregate.go:303-318): a parameter of `NormalizeAggregateNumbers`.
- Middleware that panics, never returns, or starts goroutines; trace timings, the abort-site log attributes, and the log entry for a registration that does not apply (middleware.go:443-450).
- PipelineCache.RequestPipeline.ChainFor: each call is atomic with respect to Register and freeze; `CacheRace` models what happens when it is not. The OpenAPI sub-pipeline is not part of this model.
- ProbeFlight.FlightsAreShared: work that ends its goroutine without returning or panicking is not modelled.
- WorkerPool.ComputeRow: a callback that itself writes to the row it is given, and batch callbacks, are not modelled.
- Migrations.RunUntilDone: covers transactional migrations; a NoTransaction step whose Up fails half-way leaves an arbitrary state. The code passes such an Up no transaction at all, where its documentation speaks of a shim (migrate.go:39-42, 187-192).
- Two processes migrating at once: the version table's primary key is not modelled.
