# MongrelDB kit: a verified model of its relational rules

The kit puts relational rules on a multi-version storage engine that it does not own. This
project models, in Dafny, what the kit's own code does around that engine, and proves what the
code promises:

* **Guards** (`Rules`, `Guards`, `Operations`, `Keeping`, `RowOps`, `DeleteOps`, `Renulls`,
  `Deletes`, `FastPaths`, `Accepting`, `Outcomes`, `DeleteMeaning`, `Commit`, `Protocol`,
  `Transaction`, `Batch`). Unique
  constraints and foreign keys are kept by rows of two guard tables. Transactions read a
  snapshot, stage rows and guard rows, and the first committer wins on each key written. The
  main theorem, `Protocol.NoOrphansNoDuplicates`, is about every interleaving of begins,
  operations, commits and rollbacks, on whichever path the code takes for each operation: no
  reachable committed state has an invalid row, a row whose foreign-key values are no row's
  primary key, or two rows that agree on a primary key or a unique constraint. `Transaction` is the object itself, refined against the functions of
  `Operations`; `Batch` is `insert_many` against a fold of `insert`; `Accepting`
  and `Outcomes` say in terms of rows exactly when a write is accepted and what it leaves, and
  `DeleteMeaning` does for deletes, in terms of chains of referencing rows.
* **Lookups** (`Lookups`, `Children`). Rows are looked up, and children found, by values; the
  protocol speaks of encoded keys. These modules say exactly when the two agree.
* **Limits** (`Limits`, `DeleteLimits`). The paths on which the promise is false, each with
  the exact condition under which it holds.
* **Queries** (`Values`, `Query`, `Pushdown`, `Overlay`, `Exec`, `Meaning`, `Join`, `JoinUnion`,
  `JoinMeaning`, `JoinLimits`). A select with conditions pushed to native indexes, and a join with its filter
  split by alias and its right side fetched by an index probe, return the row sequence of
  "scan everything, evaluate everything". Staged writes are laid over the snapshot first.
  `Meaning` and `JoinMeaning` say what a filter, a select and a join mean without naming the
  evaluator: which rows, in which order, how often.
  `JoinUnion` puts the pushed and the plain join side by side, for joins of any number and
  kind, and `JoinLimits` says exactly when they are the same.
* **Delete planning** (`Planner`, `PlanApply`). The depth-first planner with its path stack,
  its memo and its truncation answers exactly what the deletion graph says, and an
  unrestricted plan, applied, leaves no dangling reference.
* **Codecs and arithmetic** (`Bytes`, `Keys`, `Json`, `Migrations`, `TypeScriptContent`,
  `Check`, `CheckSpelling`, `CheckMeaning`, `Tsv`, `Calendar`). Key encoding, migration checksum
  input, the check-expression language, TSV and civil-from-days: round trips, injectivity, the
  same text in both kits, every spelling of a check and its two-valued meaning, and the
  Gregorian calendar.
* **Migrations of data and sequences** (`Backfill`, `Sequence`).

`Strings`, `Lists`, `Schema` and `Values` hold what the other modules share. Each file is one
module.

## What the model assumes of the engine

The engine is not part of this model. The theorems take it as follows.

* A transaction has a snapshot; a commit is refused exactly when a key the transaction writes
  (a row, a unique guard, a row guard) was committed after that snapshot; otherwise its
  deletes and then its puts are applied at once.
* A delete names the row version of the snapshot by its row id, so a put of the same key
  stands whichever was staged first. A truncate counts as a delete of every row of the table
  in the snapshot.
* For a list of conditions the engine returns rows in scan order: every row that meets all of
  them, and no row that fails one it resolves exactly (`Exec.EngineSound`). Substring and null
  conditions may return more. A bitmap condition on a column without a bitmap returns nothing,
  as the source's own comments say. This is true of lookups as well: a composite primary key
  is looked up by a bitmap condition for each of its columns (`pushdown.rs:343-367`), and
  bitmaps exist only for declared indexes and unique constraints (`schema.rs:108-124`). In a
  table with a one-column key, with bitmaps on all key columns, or with operations staged in
  the transaction, lookups are answered (`Operations.Answered`); otherwise they find nothing.
* The fast paths of update and delete ask the index for the row id as it is at that moment,
  not at the snapshot (`txn.rs:350-367`, `txn.rs:493`): the id is found if the row is in the
  committed store, and leads to a version in the snapshot if nobody has committed the row
  since the transaction began.
* The engine's own upsert goes by the primary key of the row it is given: it inserts the row,
  or finds the snapshot's version and leaves it or puts the patched row in its place.

## Scope of the protocol theorems

`Rules.InScope` states it for schemas: table names and guarded constraint names are free of
colons, the latter distinct across tables, so that guards and planner visits, which the code
knows by text, stand for one row or key each (`Rules.RowsKnownByText`); no foreign key
references its own table; key columns are not nullable; validation, which is a parameter
(`valid`), lets only rows through whose key cells hold values of their columns' types and
whose primary key is whole (`validation.rs:50-100`).

`Protocol.OpInScope` states it for operations. Each row is written by one operation at most
per transaction, and an update keeps the primary key. A composite primary key is supplied by
the caller, and an assigned primary key is not in use. What an update on the fast path stores
is valid, and makes no reference that is unchecked or untouched. What a DO UPDATE stores is
valid and has the keys and references of what it has checked, and an upsert does not meet a
row its lookup misses. A plan is clean (`Deletes.CleanPlan`): a planned row of another table
is not nulled as well and, if the table is referenced, has its guard written; another planned
row of the target's own table is nulled; and a nulled row, as its last update leaves it,
references no row that goes and has each key an earlier update has reserved. An operation that
fails may leave what it had staged before; the theorems cover a later commit of that, too. For
most of these conditions the next section names the lemma that proves them necessary as well
as sufficient.

## Where the code does less than its documentation says

The model follows the code. For each difference a lemma says exactly when the code keeps its
promise all the same.

* `txn.rs:6-24` calls the unsafe interleavings impossible. That holds
  - of an update on the fast path, which checks no foreign key and puts without deleting,
    under the condition of `FastPaths.FastUpdateIsSafeExactly` and
    `FastPaths.FastMoveExactly`;
  - of a DO UPDATE, whose guards follow another row than the engine stores, under that of
    `Limits.UpsertIsSoundExactly` and `Limits.UpsertedKeepsExactly`, and of an upsert that
    misses the stored row, under that of `Limits.UnfoundUpsertExactly`;
  - of an update that changes the primary key, which nothing checks to be free, under that of
    `Limits.MoveIsSoundExactly` and `Limits.MoveIsSafeExactly`;
  - of a delete, which skips planned rows of the target's table and touches no guard but the
    target's, if and only if its plan is clean (`DeleteLimits.DeleteKeepsExactly`).
    `DeleteLimits.SurvivesExactly` says which planned rows survive,
    `DeleteLimits.LastNullWins` and `Renulls.LastsAreEnough` what becomes of a row nulled
    twice, and `DeleteLimits.CascadeRace` when a concurrent insert that references a cascaded
    row is caught.
* Update, delete and foreign keys (`txn.rs:1209-1228`, `txn.rs:1559-1577`) do not find a row
  whose composite key has a column without a bitmap, unless the transaction has written to the
  table (`Lookups.VisibleRowFoundExactly`).
* `txn.rs:1738-1766` decodes the key of every planned row with the table of the deleted row.
  Below the first level, children of a row whose key has another number of columns, and at any
  level of a row with a boolean key column, are not found (`Children.ScanFindsExactly`).
* `txn.rs:1577-1608` takes a second look at the staged rows, which does not take an update's
  old key away: a row staged under a key and moved to another one still counts under the
  first, so that a child may reference it and no row may take it, until an operation settles
  the key (`Overlay.MovedRowCountsExactly`, `Accepting.MovedKeyCounts`).
* `txn.rs:1725-1726` forgets touched guards by a prefix of the guard's key, which is not the
  table's name: of the tables named without a colon it forgets none, or all if the table is
  `rg` (`Operations.ForgetsAllOrNone`).
* `query.rs:434-441` says the index probe leaves the join's result identical. It loses pairs
  of null keys, and `has_declared_bitmap_index` accepts an index of any kind although only a
  bitmap answers the probe (`JoinLimits.ProbedStepExactly`, `JoinLimits.ProbedJoinsExactly`).
* `query.rs:696-733` applies a filter on the right of a left join below the join: a left row
  whose matches all fail the filter comes back padded, and a padded row is not filtered again
  (`JoinLimits.LeftFilterExactly`, and for joins of any number
  `JoinLimits.QualifiedJoinExactly`).
* `query.rs:537-539` says conjuncts with subqueries stay for after the join. A conjunct of
  subqueries alone is filed under an alias of its own and never evaluated
  (`JoinLimits.LostConjunctsExactly`, `JoinLimits.BareExistsExactly`).
* `query.rs:170-174` says the pushed select only shrinks the scan. That fails for order
  comparisons with the column on the right or at the ends of the 64-bit range or with a
  literal of the wrong type (`Pushdown.OrderPushdownExactly`), for equalities and membership
  tests with a literal of another type whose index key some value of the column has
  (`Pushdown.AliasExactly`, `Pushdown.EqPushdownExactly`, `Pushdown.InPushdownExactly`, and
  for whole selects `Exec.AliasedEqExactly`, `Exec.AliasedInExactly`), for prefix tests on
  columns that do not hold text (`Pushdown.PrefixPushdownExactly`), for membership tests and
  equalities on primary-key columns without bitmaps (`Exec.InOnKeyColumnExactly`,
  `Exec.EqOnKeyColumnExactly`), for prefix tests over staged rows (`Exec.StagedPrefixExactly`)
  and for a CTE that shadows a table (`Exec.ShadowingCteExactly`).
* `txn.rs:136-143` says a batch insert passes the same checks as single inserts. A key that
  was assigned inside the batch, or that a staged row has left, is not seen by a later
  explicit row (`Batch.BatchIsInsertsExactly`).
* The TSV format loses empty texts, and nulls in a table of one column
  (`Tsv.DocumentReadsExactly`); unique keys of constraints with colons in their names can
  coincide (`Keys.UniqueKeysCollideExactly`).

## Model

| member | source | states |
|---|---|---|
| `Keys.SplitComponents` | crates/mongreldb-kit-core/src/keys.rs:93-122 | the stateful splitting loop yields the tokens of the recursive reading of the text |
| `Keys.UnescapeEscape` | crates/mongreldb-kit-core/src/keys.rs:49-57 | two naive replacement passes undo two naive replacement passes, on every text |
| `Keys.DecodeEncodePk` | crates/mongreldb-kit-core/src/keys.rs:125-166 | decoding an encoded primary key gives back its components, for every list of any texts, any 64-bit integers and nulls, the empty list included |
| `Keys.EncodePkInjective` | crates/mongreldb-kit-core/src/keys.rs:148-166 | different component lists have different encoded keys |
| `Keys.UniqueKeyInjective` | crates/mongreldb-kit-core/src/keys.rs:169-183 | a unique key determines its version, its colon-free constraint name and its components |
| `Keys.RowGuardKeyInjective` | crates/mongreldb-kit-core/src/keys.rs:186-190 | a row-guard key determines its colon-free table and its primary key |
| `Keys.UniqueKeysCollideExactly` | crates/mongreldb-kit-core/src/keys.rs:169-183 | whatever the names are, two unique keys of at least one component are one text exactly when the versions agree and one name is the other followed by leading components of its key |
| `Keys.ComponentFormat` | crates/mongreldb-kit-core/src/keys.rs:7-22 | each component carries its kind in front, and colons and backslashes, and nothing else, are escaped |
| `Keys.GuardKeyFormat` | crates/mongreldb-kit-core/src/keys.rs:141-188 | unique and row-guard keys read as the documentation shows them |
| `Planner.VisitKeyInjective` | crates/mongreldb-kit-core/src/planner.rs:90-99 | for tables named without a colon the visit key stands for the row, so path and memo may be taken as rows |
| `Planner.DeletePlanner.PlanRow` | crates/mongreldb-kit-core/src/planner.rs:78-112 | the depth-first step with path, memo and truncation computes the functional search |
| `Planner.DeletePlanner.PlanReferences` | crates/mongreldb-kit-core/src/planner.rs:114-153 | the loop over referencing tables and keys computes the functional sweep of all edges |
| `Planner.DeletePlanner.PlanChildren` | crates/mongreldb-kit-core/src/planner.rs:120-153 | the loop over the children of one foreign key continues the sweep |
| `Planner.DeletePlanner.PlanReference` | crates/mongreldb-kit-core/src/planner.rs:121-151 | one reference restricts, is nulled or is followed, by its delete action |
| `Planner.PlanDelete` | crates/mongreldb-kit-core/src/planner.rs:52-172 | a circular delete is reported exactly for a reachable cycle; an unrestricted plan lists every cascade-reachable row once, children first, root last, and exactly the set-null edges out of those rows; a restricted plan is empty and names exactly the restricting constraints |
| `Planner.VisitSound` | crates/mongreldb-kit-core/src/planner.rs:78-172 | visiting a row keeps the memo sound although truncation never rolls it back |
| `Planner.SweepSound` | crates/mongreldb-kit-core/src/planner.rs:114-153 | sweeping edges grows plan and memo by exactly the rows reached, or is blocked |
| `Planner.PlanFromVisit` | crates/mongreldb-kit-core/src/planner.rs:52-75 | the visit of the root gives a plan with the stated meaning |
| `Planner.PlanIsExact` | crates/mongreldb-kit-core/src/planner.rs:52-75 | each refusal and each restriction occurs exactly when the deletion graph calls for it |
| `Planner.EachRowOnce` | crates/mongreldb-kit-core/src/planner.rs:145-171 | in a plan no row is repeated and each stands after the rows that cascade from it |
| `PlanApply.PlanLeavesNoOrphans` | crates/mongreldb-kit-core/src/planner.rs:114-171 | an unrestricted plan applied to a database with referential integrity leaves no row pointing at a deleted one, at any cascade depth and with self-references |
| `PlanApply.ReferenceGoes` | crates/mongreldb-kit-core/src/planner.rs:114-160 | every reference into a deleted row is nulled or its row is deleted too |
| `PlanApply.RestrictedPlanIsEmpty` | crates/mongreldb-kit-core/src/planner.rs:62-74 | a restricted plan, applied, changes nothing |
| `Calendar.CountFollowsCalendar` | crates/mongreldb-kit/src/internal.rs:202-226 | the reference day count steps by one from a date to its calendar successor |
| `Calendar.CountIsMonotone` | crates/mongreldb-kit/src/internal.rs:202-226 | different dates have different day counts, in calendar order |
| `Calendar.CivilIsExact` | crates/mongreldb-kit/src/internal.rs:209-226 | the truncating formula returns a valid Gregorian date whose day count is the input, for every integer day |
| `Calendar.CountInvertsCivil` | crates/mongreldb-kit/src/internal.rs:209-226 | it inverts the day count on every valid date |
| `Calendar.CivilIsGregorian` | crates/mongreldb-kit/src/internal.rs:202-226 | day 0 is 1970-01-01 and each next day is the calendar successor |
| `Calendar.TimestampIsExact` | crates/mongreldb-kit/src/internal.rs:193-200 | the day and second split loses nothing, before the epoch too |
| `Calendar.NoOverflow` | crates/mongreldb-kit/src/internal.rs:209-226 | no intermediate value overflows 64 bits on any day a 64-bit second count reaches |
| `Json.PrintReads` | crates/mongreldb-kit-core/src/migrations.rs:117-125 | a compact JSON value is read back up to its own end: values are prefix-free |
| `Json.PrintInjective` | crates/mongreldb-kit-core/src/migrations.rs:117-125 | different JSON values have different compact texts |
| `Migrations.OpIsJson` | crates/mongreldb-kit-core/src/migrations.rs:127-254 | the hand-formatted text of an operation is the compact JSON of one object |
| `Migrations.ContentIsJson` | crates/mongreldb-kit-core/src/migrations.rs:257-272 | the canonical content is the compact JSON of one object |
| `Migrations.OpJsonReads` | crates/mongreldb-kit-core/src/migrations.rs:127-254 | an operation's object determines the operation, up to the name inside a view |
| `Migrations.ContentReads` | crates/mongreldb-kit-core/src/migrations.rs:257-272 | two migrations have the same canonical content if and only if version, name and operations agree, up to the name inside a view: an edit, reorder, insertion or removal changes it |
| `Migrations.ViewNameIsNotCovered` | crates/mongreldb-kit-core/src/migrations.rs:233-242 | two migrations that differ only in the name inside a view have the same content |
| `TypeScriptContent.SameOp` | packages/kit/src/migrate.ts:366-427 | the TypeScript kit's template for each operation, with JSON.stringify, writes the same text as the Rust formatter |
| `TypeScriptContent.SameContent` | packages/kit/src/migrate.ts:429-437 | so both kits hash the same content, whatever the migration |
| `Check.ReadQuoted` | crates/mongreldb-kit-core/src/check.rs:116-135 | the quoted-literal loop reads what the recursive scan reads |
| `Check.ReadSymbol` | crates/mongreldb-kit-core/src/check.rs:104-157 | operators and brackets, one or two characters long, are recognised as specified |
| `Check.ReadLiteral` | crates/mongreldb-kit-core/src/check.rs:116-191 | quoted texts, numbers and words are read as specified |
| `Check.Tokenize` | crates/mongreldb-kit-core/src/check.rs:97-195 | the index loop produces the tokens of the recursive lexer, or none |
| `Check.Parser.Or` | crates/mongreldb-kit-core/src/check.rs:215-223 | the method over `pos` parses what the grammar function parses, and terminates |
| `Check.Parser.And` | crates/mongreldb-kit-core/src/check.rs:225-233 | the same for conjunctions |
| `Check.Parser.Not` | crates/mongreldb-kit-core/src/check.rs:235-241 | the same for negations |
| `Check.Parser.Atom` | crates/mongreldb-kit-core/src/check.rs:243-257 | the same for brackets and comparisons |
| `Check.Parser.Comparison` | crates/mongreldb-kit-core/src/check.rs:259-285 | the same for a comparison of two operands |
| `Check.Parser.ReadOperand` | crates/mongreldb-kit-core/src/check.rs:287-306 | the same for an operand |
| `Check.Parse` | crates/mongreldb-kit-core/src/check.rs:70-95 | parsing accepts exactly the texts whose tokens the grammar consumes entirely |
| `Check.ParseShow` | crates/mongreldb-kit-core/src/check.rs:215-306 | the tokens of an expression, with the brackets precedence asks for, parse to the expression |
| `CheckSpelling.QuotedReads` | crates/mongreldb-kit-core/src/check.rs:116-135 | between quotes of either kind any character may follow a backslash, and any but the quote and the backslash stand for itself |
| `CheckSpelling.DecimalReads` | crates/mongreldb-kit-core/src/check.rs:159-176 | a decimal, with or without sign and fraction, is read as its digits over the power of ten |
| `CheckSpelling.SpellingReads` | crates/mongreldb-kit-core/src/check.rs:97-195 | every spelling of a token is read as it: = and ==, != and <>, && and AND in any case, || and OR, ! and NOT, both kinds of quotes, decimals, keywords in any case |
| `CheckSpelling.LexSpelled` | crates/mongreldb-kit-core/src/check.rs:97-195 | a text made of spelled tokens and any spaces is lexed to the tokens |
| `CheckSpelling.SpellingsParse` | crates/mongreldb-kit-core/src/check.rs:70-306 | however the tokens of an expression are spelled and spaced, the text parses to the expression |
| `CheckSpelling.OperatorNames` | crates/mongreldb-kit-core/src/check.rs:259-285 | which spellings name which comparison, and no others name any |
| `CheckSpelling.LexText` | crates/mongreldb-kit-core/src/check.rs:97-195 | the printed text of a token list is lexed back to it, string escapes included |
| `CheckSpelling.ParsePrint` | crates/mongreldb-kit-core/src/check.rs:70-306 | printing an expression and parsing the text gives the expression back and consumes all of it |
| `Check.DefiniteAnswersStay` | crates/mongreldb-kit-core/src/check.rs:309-385 | three-valued evaluation is monotone: filling in a null never reverses a definite answer |
| `CheckMeaning.NumbersCompare` | crates/mongreldb-kit-core/src/check.rs:309-385 | numbers compare as reals, under each operator |
| `CheckMeaning.TextsCompare` | crates/mongreldb-kit-core/src/check.rs:309-385 | texts compare by their first difference, under each operator |
| `CheckMeaning.FlagsCompare` | crates/mongreldb-kit-core/src/check.rs:309-385 | booleans compare with false before true |
| `CheckMeaning.OneKindLaws` | crates/mongreldb-kit-core/src/check.rs:309-385 | on values of one kind exactly one of less, equal and greater holds, <= is < or =, >= the negation of <, and every comparison is definite |
| `CheckMeaning.MixedLaws` | crates/mongreldb-kit-core/src/check.rs:309-385 | values of different kinds are unequal, and no order comparison of them holds |
| `CheckMeaning.MissingIsUnknown` | crates/mongreldb-kit-core/src/check.rs:309-385 | a null or absent operand leaves every comparison unknown |
| `CheckMeaning.EvalIsClassical` | crates/mongreldb-kit-core/src/check.rs:309-385 | an answer is definite if and only if it is the two-valued answer of AND, OR and NOT however the unknown comparisons come out |
| `CheckMeaning.RejectedExactly` | crates/mongreldb-kit-core/src/check.rs:309-385 | a row is rejected if and only if the expression is false however the unknown comparisons come out |
| `Pushdown.CollectConditions` | crates/mongreldb-kit/src/pushdown.rs:77-133 | the accumulating loop appends exactly the conditions of the expression, and reports full translation exactly when every conjunct is exact |
| `Pushdown.TranslatePredicate` | crates/mongreldb-kit/src/pushdown.rs:63-75 | there is a plan exactly when some condition was collected |
| `Pushdown.EqIsExact` | crates/mongreldb-kit/src/pushdown.rs:179-203 | a translated equality holds of a row if and only if the engine's condition does |
| `Pushdown.CmpIsExact` | crates/mongreldb-kit/src/pushdown.rs:205-242 | a translated order comparison holds exactly when the range condition does, within the safe bounds |
| `Pushdown.InIsExact` | crates/mongreldb-kit/src/pushdown.rs:316-337 | a translated membership test holds exactly when the bitmap condition does |
| `Pushdown.LikeContainsRuns` | crates/mongreldb-kit/src/pushdown.rs:257-277 | a LIKE match contains every literal run of the pattern as a substring |
| `Pushdown.TestIsSound` | crates/mongreldb-kit/src/pushdown.rs:137-148 | a row that passes LIKE, contains, prefix or a null test meets the condition built for it |
| `Pushdown.PrefixIsExact` | crates/mongreldb-kit/src/pushdown.rs:301-314 | a safe prefix test holds of a row if and only if the engine's condition does |
| `Pushdown.ConjunctIsRight` | crates/mongreldb-kit/src/pushdown.rs:77-133 | every conjunct's condition is implied by it, and conversely when it counts as translated |
| `Pushdown.OrderPushdownExactly` | crates/mongreldb-kit/src/pushdown.rs:205-242 | for a literal of any type the pushed range decides an order comparison on every typed row if and only if the column is an integer column on the left, the literal an integer and away from the saturating bounds, or no boolean can pass |
| `Pushdown.OrderCounterexample` | crates/mongreldb-kit/src/pushdown.rs:205-242 | otherwise there is a typed row on which they differ |
| `Pushdown.AliasExactly` | crates/mongreldb-kit/src/pushdown.rs:441-457 | a value of the column's type has the index key of a literal of another type if and only if it is that literal's alias, which is computed from the literal: eight bytes of UTF-8 read as an integer, one byte as a boolean, an integer's bytes as a text if they are UTF-8 |
| `Pushdown.EqPushdownExactly` | crates/mongreldb-kit/src/pushdown.rs:179-203 | for a literal of any type the condition decides an equality on every typed row, in the engine and among staged rows, if and only if the literal has no alias, and the condition is answered or nothing can be equal |
| `Pushdown.InPushdownExactly` | crates/mongreldb-kit/src/pushdown.rs:316-337 | the same of a membership test: if and only if each alias is listed itself, and the condition is answered or nothing can be a member |
| `Pushdown.PrefixPushdownExactly` | crates/mongreldb-kit/src/pushdown.rs:301-314 | the same of a prefix test: on a text column if and only if it has a bitmap, on another if and only if it has none or no key in it can start with the prefix |
| `Pushdown.ConjunctExactly` | crates/mongreldb-kit/src/pushdown.rs:77-133 | a conjunct that counts as fully translated is decided by its condition on every typed row if and only if it is safe |
| `Pushdown.TranslatedExactly` | crates/mongreldb-kit/src/pushdown.rs:77-133 | which expressions have a condition, and which of these conditions stand for the whole expression |
| `Pushdown.CollectExactly` | crates/mongreldb-kit/src/pushdown.rs:77-133 | nested ANDs are translated conjunct by conjunct, in order, and count as fully translated if and only if every conjunct does |
| `Bytes.DecodeUtf8Exactly` | crates/mongreldb-kit/src/pushdown.rs:455-456 | the decoder that computes aliases reads exactly the byte strings that encode a text |
| `Overlay.ReplayStagedRows` | crates/mongreldb-kit/src/txn.rs:1662-1698 | the loop that edits the row vector replays the staged operations in order |
| `Overlay.Retain` | crates/mongreldb-kit/src/txn.rs:1667-1691 | retain drops exactly the rows of the given primary keys |
| `Overlay.ReplayRefines` | crates/mongreldb-kit/src/txn.rs:1662-1698 | replaying keeps primary keys distinct and stands for inserts, updates, deletes and truncates applied in order to the table as a map |
| `Overlay.StagedIsVisible` | crates/mongreldb-kit/src/txn.rs:1582-1608 | when updates keep primary keys the second look at the staged rows finds nothing the overlay does not show |
| `Overlay.MovedRowCountsExactly` | crates/mongreldb-kit/src/txn.rs:1582-1608 | the second look finds a row that is gone if and only if a row staged under this key was moved to another one by an update, and no later operation has staged, deleted or truncated the key |
| `Exec.RunSelect` | crates/mongreldb-kit/src/query.rs:167-199 | the select with pushed conditions and residual loop computes the recursive meaning of pushed evaluation |
| `Meaning.ComparisonMeans` | crates/mongreldb-kit/src/query.rs:894-912 | a comparison of a query holds if and only if the values are equal, or of one kind and in that order: integers by size, texts by first difference, false before true |
| `Meaning.LikeIsPieces` | crates/mongreldb-kit/src/query.rs:1007-1046 | LIKE matches if and only if the text is made of one piece per pattern character: any text without line feeds for a percent sign, one character but a line feed for an underscore, itself for another |
| `Meaning.PlainLike` | crates/mongreldb-kit/src/query.rs:1007-1046 | without wildcards LIKE is equality |
| `Meaning.SubstringLike` | crates/mongreldb-kit/src/query.rs:1007-1046 | between two percent signs a text is matched wherever it occurs, in texts without line feeds |
| `Meaning.EvalMeans` | crates/mongreldb-kit/src/query.rs:775-915 | the evaluator answers exactly whether the filter is satisfied, stated by cases over all parts and all rows of subqueries |
| `Meaning.RunMeans` | crates/mongreldb-kit/src/query.rs:167-199 | a plain select returns, in order, the rows of its table that satisfy its filter |
| `Meaning.SelectMeans` | crates/mongreldb-kit/src/query.rs:167-199 | so does the select with pushed conditions |
| `Meaning.SelectedExactly` | crates/mongreldb-kit/src/query.rs:167-262 | in a transaction a row is returned if and only if the staged operations leave it in the table and it satisfies the filter |
| `Meaning.OrIsUnion` | crates/mongreldb-kit/src/query.rs:787-794 | a row is returned for a disjunction if and only if it is for one part, and for a conjunction if and only if it is for both |
| `Meaning.DeMorgan` | crates/mongreldb-kit/src/query.rs:779-797 | De Morgan's laws, for filters that cannot fail |
| `Meaning.Complements` | crates/mongreldb-kit/src/query.rs:797-845 | !=, NOT IN, IS NOT NULL and NOT EXISTS are the complements of =, IN, IS NULL and EXISTS, also where they fail |
| `Exec.Residual` | crates/mongreldb-kit/src/query.rs:190-199 | the residual loop keeps the rows that pass, in order, and stops at the first error |
| `Exec.CollectRight` | crates/mongreldb-kit/src/pushdown.rs:77-133 | a row that passes a safe predicate meets every collected condition, and conversely when fully translated, for trees of any shape |
| `Exec.FetchedRows` | crates/mongreldb-kit/src/txn.rs:1191-1207 | the rows fetched for a plan are the visible rows thinned by a test every passing row passes |
| `Exec.EvalAgrees` | crates/mongreldb-kit/src/query.rs:775-846 | a predicate evaluates the same with pushed and with plain subqueries |
| `Exec.RunAgrees` | crates/mongreldb-kit/src/query.rs:167-199 | wherever the plain scan succeeds the pushed select returns the same rows in the same order, in nested subqueries too |
| `Exec.SelectReadsOwnWrites` | crates/mongreldb-kit/src/query.rs:167-199 | inside a transaction a select returns exactly the rows that pass the filter in the snapshot with the staged operations applied |
| `Exec.ShadowingCteExactly` | crates/mongreldb-kit/src/query.rs:74-79 | a CTE named like a table is returned unfiltered when the filter counts as fully translated, which is right exactly when all of its rows pass |
| `Exec.OneConjunctExactly` | crates/mongreldb-kit/src/query.rs:167-199 | a select whose filter is one conjunct that counts as fully translated gives the plain answer if and only if its condition keeps just the visible rows that pass |
| `Exec.AliasedEqExactly` | crates/mongreldb-kit/src/query.rs:167-199 | an equality that is answered gives the plain answer, whatever the type of its literal, if and only if no visible row holds the literal's alias |
| `Exec.AliasedInExactly` | crates/mongreldb-kit/src/query.rs:167-199 | a membership test does if and only if no visible row is mistaken for a member |
| `Exec.UnindexedExactly` | crates/mongreldb-kit/src/pushdown.rs:371-389 | a condition built for a column without a bitmap, in a table without staged rows, returns nothing, which is right exactly when no visible row passes |
| `Exec.InOnKeyColumnExactly` | crates/mongreldb-kit/src/pushdown.rs:316-389 | a membership test on a primary-key column without a bitmap of its own gives the plain answer exactly when no visible row passes or, with staged rows, when none is mistaken for a member |
| `Exec.EqOnKeyColumnExactly` | crates/mongreldb-kit/src/pushdown.rs:179-203 | so does an equality on one column of a composite key without a bitmap |
| `Exec.StagedPrefixExactly` | crates/mongreldb-kit/src/txn.rs:2121-2212 | with staged rows a translated prefix test keeps every visible row, which is right exactly when every visible row passes |
| `Join.SplitJoinFilter` | crates/mongreldb-kit/src/query.rs:606-623 | the loop files each conjunct under its one alias, stripped of it, or leaves it for after the join |
| `Join.StripKeeps` | crates/mongreldb-kit/src/query.rs:551-600 | a conjunct whose columns all name one alias means the same on that alias's row alone |
| `Join.FilterSplits` | crates/mongreldb-kit/src/query.rs:606-623 | a joined row passes the whole filter if and only if it passes the conjuncts of its sides and the residual ones |
| `Join.SideConditionsRight` | crates/mongreldb-kit/src/query.rs:628-638 | a row that passes the conjuncts of a side meets every condition pushed for them |
| `Join.SideKeeps` | crates/mongreldb-kit/src/query.rs:663-677 | the rows of a side are the table's rows that pass its conjuncts, less some that fail the probe |
| `Join.CollectProbeKeys` | crates/mongreldb-kit/src/query.rs:464-478 | the loop collects each distinct non-null key of the accumulated rows once |
| `Join.FkJoinCondition` | crates/mongreldb-kit/src/query.rs:442-487 | the probe is built exactly for an equality of a declared-index column of the joined alias with a qualified column, and holds the accumulated keys |
| `Join.ProbeFindsMatch` | crates/mongreldb-kit/src/query.rs:442-487 | a right row that matches an accumulated row survives the probe |
| `JoinUnion.LoopIsFetched` | crates/mongreldb-kit/src/query.rs:708-733 | the loop over the fetched right rows and the loop over all of them both thin out one sequence, for joins of any kind |
| `JoinUnion.SideRowsAre` | crates/mongreldb-kit/src/query.rs:663-677 | the rows of a side are exactly those that pass its conjuncts and meet the probe |
| `JoinUnion.JoinsAreThinned` | crates/mongreldb-kit/src/query.rs:679-734 | so do the pushed and the plain form of any sequence of joins |
| `JoinUnion.PushedJoinExactly` | crates/mongreldb-kit/src/query.rs:653-747 | for joins of any number and kind and any filter that cannot fail: the code returns, in order, the candidates whose parts are all fetched and which pass the residual, the plain join those padded only where nothing matches which pass the filter; the two are equal if and only if they are for every candidate |
| `JoinLimits.QualifiedJoinExactly` | crates/mongreldb-kit/src/query.rs:606-747 | with conjuncts on any alias, right sides of left joins included, they are equal if and only if of the candidates that pass sides and residual the probes find exactly those that are padded only where nothing matches and pass the conjuncts on their missing sides |
| `JoinLimits.LeftFilterExactly` | crates/mongreldb-kit/src/query.rs:696-733 | a filter on the right of a left join, applied below it, gives the plain answer if and only if every base row that could be padded has a match that passes the filter, or has no match and passes it when padded |
| `JoinLimits.LeftOutExactly` | crates/mongreldb-kit/src/query.rs:708-733 | leaving right rows out of a nested loop of any kind leaves its result alone exactly when none of them matches an accumulated row |
| `JoinLimits.ProbedStepExactly` | crates/mongreldb-kit/src/query.rs:442-487 | a probed join step gives the rows of the plain one exactly when the right row of every matching pair has a non-null key in a column with a real bitmap, or in a table with staged rows |
| `JoinLimits.ProbedJoinsExactly` | crates/mongreldb-kit/src/pushdown.rs:391-408 | any number of inner and cross joins under any filter: the pushed join equals the plain one if and only if, in every row of the plain answer, the probes find each part |
| `Join.MatchRows` | crates/mongreldb-kit/src/query.rs:711-725 | the inner loop keeps the combined rows that satisfy the join condition, in order |
| `Join.JoinRows` | crates/mongreldb-kit/src/query.rs:708-733 | the outer loop keeps an unmatched left row of a left join with a missing right side |
| `Join.JoinOne` | crates/mongreldb-kit/src/query.rs:679-733 | one join clause fetches its side under the pushed conditions and the probe and runs the nested loop |
| `Join.JoinAll` | crates/mongreldb-kit/src/query.rs:679-734 | the loop over the clauses joins them one after the other |
| `Join.RunJoinQuery` | crates/mongreldb-kit/src/query.rs:653-747 | the method computes the recursive meaning of the pushed join |
| `JoinMeaning.PlainJoinMeans` | crates/mongreldb-kit/src/query.rs:653-747 | the join answers, in the order of their row positions and once for each, the combinations whose parts meet their clauses and which satisfy the filter |
| `JoinMeaning.RunJoinMeans` | crates/mongreldb-kit/src/query.rs:653-747 | the same of the join with its filter split, its sides pushed and its right sides probed |
| `JoinMeaning.JoinedExactly` | crates/mongreldb-kit/src/query.rs:708-733 | a joined row is answered if and only if each part is a row of its table, ON holds for each inner or left clause that has one, a part is missing only on the right of a left join none of whose rows satisfies ON, and the filter holds |
| `JoinMeaning.RunJoinedExactly` | crates/mongreldb-kit/src/query.rs:653-747 | the same of the pushed join |
| `JoinMeaning.CrossCount` | crates/mongreldb-kit/src/query.rs:713-716 | a cross join of m and n rows has m times n rows |
| `Join.LoopFiltered` | crates/mongreldb-kit/src/query.rs:708-733 | a nested loop over filtered sides yields the filtered result of the plain nested loop, in the same order, for inner, left and cross joins |
| `Join.JoinStep` | crates/mongreldb-kit/src/query.rs:679-733 | one pushed join of filtered rows is the filtered plain join |
| `Join.JoinsAgree` | crates/mongreldb-kit/src/query.rs:679-734 | so is any sequence of joins |
| `Join.JoinIsPlain` | crates/mongreldb-kit/src/query.rs:653-747 | the join with filter splitting, side pushdown and index probe returns the row sequence of the plain nested loop over full tables followed by the whole filter |
| `JoinLimits.LostConjunctsExactly` | crates/mongreldb-kit/src/query.rs:500-549 | conjuncts made of subqueries alone are never evaluated, and the pushed join equals the plain one exactly when every row that passes the others passes them too |
| `JoinLimits.BareExistsExactly` | crates/mongreldb-kit/src/query.rs:537-549 | with a bare EXISTS for a filter the pushed join equals the plain one exactly when the subquery's verdict is true or the unfiltered join is empty |
| `Rules.KitRulesWellFormed` | crates/mongreldb-kit/src/txn.rs:1954-2045 | the code's key builders never give two constraints one key, derive the composite guard from the primary key alone, and lose keys and references when columns are nulled |
| `Rules.RowsKnownByText` | crates/mongreldb-kit/src/txn.rs:1612-1651 | row guards and planner visits, known by text, stand for one row each in a schema in scope |
| `Rules.PkMatchesIsSameKey` | crates/mongreldb-kit/src/txn.rs:1932-1944 | rows found by comparing primary-key values are the rows with the same encoded key |
| `Lookups.LookupFindsByKey` | crates/mongreldb-kit/src/txn.rs:1209-1228 | lookup and parent lookup, with their conditions, find the row of the encoded key exactly when the table has staged operations, the key has one column, or every key column has a real bitmap |
| `Lookups.LookupRefines` | crates/mongreldb-kit/src/pushdown.rs:343-367 | so `Operations.Lookup` on encoded keys is what the lookup by values does in a transaction |
| `Lookups.VisibleRowFoundExactly` | crates/mongreldb-kit/src/schema.rs:108-124 | a visible row is found by its own key exactly under that condition; otherwise update and delete miss it |
| `Lookups.ParentLookupRefines` | crates/mongreldb-kit/src/txn.rs:1559-1577 | the parent of a foreign key is looked up by value and found exactly when the lookup by encoded key finds it |
| `Children.FindChildren` | crates/mongreldb-kit/src/txn.rs:1739-1764 | the loop over the scanned rows collects the keys of the children in order |
| `Children.ChildFoundExactly` | crates/mongreldb-kit/src/txn.rs:2070-2105 | a row is found as a child of a key exactly when it references that key and the key can be decoded with the deleted row's own table: as many columns, none of them boolean |
| `Children.ScanFindsExactly` | crates/mongreldb-kit/src/txn.rs:1738-1766 | at any depth the scan finds exactly the references to a visible row, if and only if its key can be decoded with the deleted row's table or nothing references it |
| `Children.ScanIsClosed` | crates/mongreldb-kit/src/txn.rs:1731-1768 | planning over scans never leaves the visible rows |
| `Children.ScanPlanIsPlanned` | crates/mongreldb-kit/src/txn.rs:1731-1768 | a plan made over scans is the plan the protocol theorems ask for, as long as the keys of its referenced rows can be decoded |
| `Guards.NoDuplicates` | crates/mongreldb-kit/src/txn.rs:9-11 | where rows own their guards no two rows of a table have the same key under a constraint |
| `Guards.WriteKeepsLocal` | crates/mongreldb-kit/src/txn.rs:1310-1331 | a row write that reserves the keys it gains, releases those it loses, keeps its references and touches the new parents keeps the transaction sound |
| `Guards.WriteKeepsFaithful` | crates/mongreldb-kit/src/txn.rs:1662-1698 | what the transaction reads stays what its commit would leave, as far as keys, references and validity go |
| `Commit.PutRowHasParent` | crates/mongreldb-kit/src/txn.rs:1543-1557 | a committed row finds its parent in the store although the store has moved on since its snapshot |
| `Commit.OldRowHasParent` | crates/mongreldb-kit/src/txn.rs:461-463 | a commit deletes no row that another transaction has meanwhile referenced |
| `Commit.CommitKeepsSound` | crates/mongreldb-kit/src/txn.rs:1126-1149 | a commit without a write conflict keeps rows keyed, references intact and guards exact |
| `Commit.CommitKeepsTracked` | crates/mongreldb-kit/src/txn.rs:1126-1149 | it leaves enough committed guard keys behind for every other open transaction |
| `Keeping.ReadIsView` | crates/mongreldb-kit/src/txn.rs:1209-1228 | replaying the staged operations finds what the commit would leave, up to the columns no key, reference or check depends on |
| `Keeping.ExistsIsView` | crates/mongreldb-kit/src/txn.rs:1559-1608 | where lookups are answered a parent or key lookup, with its second look, finds exactly the visible rows |
| `Keeping.ExistsExactly` | crates/mongreldb-kit/src/txn.rs:1559-1608 | in any transaction a row counts as there if and only if its lookup finds it or a staged row has left that key and nothing has settled it since |
| `Keeping.ReserveEffect` | crates/mongreldb-kit/src/txn.rs:1310-1373 | reserving changes the unique guards by exactly the keys gained and lost |
| `Keeping.TouchEffect` | crates/mongreldb-kit/src/txn.rs:1543-1651 | touching writes the guard of every referenced parent and nothing else |
| `Keeping.ChangeKeepsKeys` | crates/mongreldb-kit/src/txn.rs:1239-1331 | gained keys nobody holds, reserved, and lost keys, released, keep the guards exact |
| `Keeping.CheckedReferences` | crates/mongreldb-kit/src/txn.rs:1497-1557 | references that passed the check exist and are touched |
| `Keeping.PutKeepsLocal` | crates/mongreldb-kit/src/txn.rs:219-231 | a checked put with its guards keeps the transaction sound and changes exactly its row |
| `Accepting.KeyFreeExactly` | crates/mongreldb-kit/src/txn.rs:1275-1306 | guards and reserved keys refuse a key exactly when another row holds it in the snapshot or in the transaction's view |
| `Accepting.TakenExactly` | crates/mongreldb-kit/src/txn.rs:1239-1306 | the unique check passes exactly when no gained key is held by another row |
| `Accepting.OrphanedExactly` | crates/mongreldb-kit/src/txn.rs:1497-1541 | the foreign-key check passes exactly when every referenced row is visible and its lookup answered |
| `Accepting.MovedKeyCounts` | crates/mongreldb-kit/src/txn.rs:1497-1541 | so a foreign key to a key that a staged row has left passes, and an explicit key that one has left is refused, exactly then |
| `Accepting.PkTakenExactly` | crates/mongreldb-kit/src/txn.rs:1412-1476 | a primary key counts as taken exactly when a row with it is visible |
| `Accepting.InsertAcceptedExactly` | crates/mongreldb-kit/src/txn.rs:185-236 | an insert is accepted exactly when the row is valid, its primary key free, its unique keys unheld and its parents findable |
| `Accepting.UpdateAcceptedExactly` | crates/mongreldb-kit/src/txn.rs:239-286 | an update is accepted exactly when its row is found, and off the fast path is valid, gains no held key and references findable rows |
| `Outcomes.UpsertAcceptedExactly` | crates/mongreldb-kit/src/txn.rs:549-631 | an upsert is accepted exactly when the row is valid and, if it can be found, DO UPDATE's merged row, else the row itself, is valid, gains no held key and references findable rows |
| `Outcomes.UpsertLeaves` | crates/mongreldb-kit/src/txn.rs:549-631 | a new row is there as given, DO NOTHING leaves a row that is there as it was, DO UPDATE patches the row under the merged row's key, and every other row stays |
| `Outcomes.TruncateAcceptedExactly` | crates/mongreldb-kit/src/txn.rs:516-547 | a truncate is accepted exactly when only truncates are staged for the table and no other table has a foreign key to it |
| `Outcomes.TruncateLeaves` | crates/mongreldb-kit/src/txn.rs:516-547 | after it the table has no visible row and no key, and every other table has what it had |
| `DeleteMeaning.GraphIsRows` | crates/mongreldb-kit/src/txn.rs:1731-1768 | when all references are found, the planner's graph reaches, loops and is blocked exactly as chains of referencing rows do |
| `DeleteMeaning.NullsAreLost` | crates/mongreldb-kit-core/src/planner.rs:121-151 | the plan nulls exactly the references with SET NULL into the rows the delete falls on |
| `DeleteMeaning.DeletedAcceptedExactly` | crates/mongreldb-kit/src/txn.rs:416-439 | a planned delete is accepted if and only if its row can be found, no reference into a row it falls on restricts, and every reference it sets null has nullable columns and leaves a valid row |
| `DeleteMeaning.DeleteAcceptedExactly` | crates/mongreldb-kit/src/txn.rs:416-512 | a delete that is planned first is accepted if and only if, besides, the rows it falls on do not run in a circle |
| `DeleteMeaning.DeletedRowsExactly` | crates/mongreldb-kit/src/txn.rs:440-512 | after it exactly the rows it falls on are gone, of the target's table the target alone, unless they are nulled as well; a row that lost a parent has the columns of one such reference nulled, and every other row is as it was |
| `DeleteMeaning.CleanDeleteLeaves` | crates/mongreldb-kit/src/txn.rs:440-512 | with a clean plan the rows afterwards are the rows before without those to go |
| `DeleteMeaning.ScanIsCompleteExactly` | crates/mongreldb-kit/src/txn.rs:1731-1768 | the scan finds all references if and only if the key of every row the delete falls on can be decoded with the target's table, or nothing references that row |
| `RowOps.InsertIsFresh` | crates/mongreldb-kit/src/txn.rs:1412-1476 | an accepted insert never replaces a visible row, by a lookup or by the composite key's guard |
| `RowOps.AcceptedInsert` | crates/mongreldb-kit/src/txn.rs:185-236 | an accepted insert adds exactly its row and keeps the transaction sound |
| `RowOps.AcceptedUpdate` | crates/mongreldb-kit/src/txn.rs:264-301 | an accepted update replaces exactly its row and keeps the transaction sound |
| `RowOps.UpsertKeeps` | crates/mongreldb-kit/src/txn.rs:549-631 | an upsert keeps the transaction sound on all three of its paths, DO UPDATE as long as the stored row and the merged row have the same keys and references |
| `RowOps.TruncateKeeps` | crates/mongreldb-kit/src/txn.rs:516-547 | a truncate keeps the transaction sound |
| `DeleteOps.SetNullKeeps` | crates/mongreldb-kit/src/txn.rs:1770-1813 | a set-null changes exactly its row and keeps the transaction sound, re-reserving the keys that remain |
| `DeleteOps.NullsKeep` | crates/mongreldb-kit/src/txn.rs:431-436 | so do all set-null updates of a plan, up to the first refusal |
| `DeleteOps.CascadesKeep` | crates/mongreldb-kit/src/txn.rs:437-457 | the cascade deletes remove exactly the planned rows of other tables |
| `Renulls.NullRowsAre` | crates/mongreldb-kit/src/txn.rs:429-436 | after any list of set-null updates each updated row is as it was planned with the columns of its last update nulled |
| `Renulls.NullKeysAre` | crates/mongreldb-kit/src/txn.rs:1770-1813 | the unique guards put are those of the keys any of the updates leaves its row, and those released the row's own |
| `Renulls.LastsAreEnough` | crates/mongreldb-kit/src/txn.rs:429-436 | where no last update takes a key an earlier one has reserved, the list does what the last updates of each row do alone |
| `Deletes.PlanCovers` | crates/mongreldb-kit/src/txn.rs:416-436 | each reference into the target is nulled or cascaded by an unrestricted plan |
| `Deletes.CleanPlanGoesInOrder` | crates/mongreldb-kit/src/txn.rs:437-457 | in a clean plan a row that references one that goes is cascaded before it, nulled rows included |
| `Deletes.DeletedKeeps` | crates/mongreldb-kit/src/txn.rs:416-510 | a delete with a clean plan keeps the transaction sound, also when it fails half-way |
| `FastPaths.FastUpdateIsSafeExactly` | crates/mongreldb-kit/src/txn.rs:250-372 | the fast update path keeps a transaction sound if and only if the new row keeps its primary key, is valid, and every reference of it has its parent and was there before, or points at a guard the transaction has written |
| `FastPaths.FastMoveExactly` | crates/mongreldb-kit/src/txn.rs:350-407 | a fast update replaces exactly its row if and only if the primary key stays, otherwise the old row remains; what it commits is sound if and only if the new row is valid and its references have their parents |
| `FastPaths.UpdatedByKeeps` | crates/mongreldb-kit/src/txn.rs:239-301 | an update keeps its transaction sound on whichever path it takes |
| `FastPaths.FastDeleteKeeps` | crates/mongreldb-kit/src/txn.rs:476-498 | the fast delete path always does, and drops exactly its row |
| `Protocol.OpKeepsLocal` | crates/mongreldb-kit/src/txn.rs:121-631 | every operation in scope, on the path the code takes for it, keeps its transaction sound |
| `Protocol.NextKeepsInv` | crates/mongreldb-kit/src/txn.rs:6-31 | every step of any transaction keeps the store sound and every open transaction tracked |
| `Protocol.ReachableIsSound` | crates/mongreldb-kit/src/txn.rs:6-31 | in every state reachable from the empty database by any interleaving, every reference has its parent, every row owns its guards and every guard has its row |
| `Protocol.OpenIsLocal` | crates/mongreldb-kit/src/txn.rs:6-31 | every open transaction of such a run is sound by itself, which the statements about single operations ask for |
| `Protocol.NoOrphansNoDuplicates` | crates/mongreldb-kit/src/txn.rs:6-24 | the same said of the schema's columns: every committed row is valid, a row without null in a foreign key has a parent with those values in its primary key, and no two rows of a table agree on their primary key or, without nulls, on a unique constraint |
| `Limits.UpsertKeepsExactly` | crates/mongreldb-kit/src/txn.rs:567-607 | DO UPDATE keeps a transaction sound, what it reads and touches included, if and only if the stored row is valid and the merged row has its keys and references |
| `Limits.UpsertedKeepsExactly` | crates/mongreldb-kit/src/txn.rs:549-607 | the same of the whole operation: a DO UPDATE of a row that is found keeps its transaction sound if and only if the merged row keeps the primary key and the stored one is valid and has its keys and references |
| `Limits.UpsertIsSoundExactly` | crates/mongreldb-kit/src/txn.rs:567-607 | its outcome is sound and its references touched if and only if the stored row is valid, has the unique keys of the merged row, and each of its references is in view and touched |
| `Limits.UnfoundUpsertExactly` | crates/mongreldb-kit/src/txn.rs:608-631 | an upsert of a visible row that the lookup misses keeps the transaction sound if and only if the engine's own merge takes over the stored row's keys and references |
| `Limits.MoveIsSoundExactly` | crates/mongreldb-kit/src/txn.rs:264-301 | an accepted update leaves a sound view if and only if it keeps the primary key, or every unique key of the new row is new, the keys of a row it overwrites are taken over, no composite key guard is left behind and nothing references the old key; it leaves every other row alone if and only if the key stays, is free, or holds the same row |
| `Limits.MoveIsSafeExactly` | crates/mongreldb-kit/src/txn.rs:264-301 | such an update is safe from concurrent references if and only if it keeps the primary key, nothing can reference its table, or the old key's guard has been written |
| `DeleteLimits.DeleteKeepsExactly` | crates/mongreldb-kit/src/txn.rs:416-510 | a delete keeps its transaction sound if and only if its plan is clean: planned rows of referenced tables have their guards written, planned rows of other tables are not nulled as well, those of the target's own table are nulled, and every nulled row, as its last update leaves it, references no row that goes and has each key an earlier update reserved |
| `DeleteLimits.CascadeRace` | crates/mongreldb-kit/src/txn.rs:437-463 | for a whole planned delete and a concurrent insert that references a cascaded row: the delete commits, and the insert conflicts if and only if it references the target too; otherwise both commit and leave an orphan |
| `DeleteLimits.SurvivesExactly` | crates/mongreldb-kit/src/txn.rs:429-457 | a planned row is still there after the delete if and only if the plan nulls it too, or it is another row of the target's table |
| `DeleteLimits.LastNullWins` | crates/mongreldb-kit/src/txn.rs:429-436 | a row nulled more than once ends up with the columns of its last update nulled and no others |
| `DeleteLimits.NulledReferenceGoesExactly` | crates/mongreldb-kit/src/txn.rs:1770-1813 | of its references exactly those are gone that share a column with the last update |
| `Transaction.Transaction.constructor` | crates/mongreldb-kit/src/txn.rs:106-118 | a new transaction has staged nothing over its snapshot |
| `Transaction.Transaction.GetByPk` | crates/mongreldb-kit/src/txn.rs:1209-1228 | reads the staged operations replayed over the snapshot, when the lookup is answered |
| `Transaction.Transaction.StagedExists` | crates/mongreldb-kit/src/txn.rs:1582-1608 | the replay loop over the staged operations of one table |
| `Transaction.Transaction.AssertKeyFree` | crates/mongreldb-kit/src/txn.rs:1275-1306 | true exactly when committed and reserved guards of the key are the row's own |
| `Transaction.Transaction.CheckUniqueConstraints` | crates/mongreldb-kit/src/txn.rs:1239-1273 | the first constraint whose gained key is taken |
| `Transaction.Transaction.CheckPk` | crates/mongreldb-kit/src/txn.rs:1412-1476 | whether an explicit primary key is taken |
| `Transaction.Transaction.CheckForeignKeys` | crates/mongreldb-kit/src/txn.rs:1497-1541 | the first foreign key whose parent does not exist |
| `Transaction.Transaction.PutUniqueGuard` | crates/mongreldb-kit/src/txn.rs:1333-1359 | puts the guard row and remembers the reserved key |
| `Transaction.Transaction.DeleteUniqueGuard` | crates/mongreldb-kit/src/txn.rs:1361-1373 | deletes the committed guard and forgets reservations of the key |
| `Transaction.Transaction.DeleteUniqueGuardsForOwner` | crates/mongreldb-kit/src/txn.rs:1375-1401 | deletes the committed guards the row owns under the table's constraints and forgets its reservations |
| `Transaction.Transaction.ReserveUniqueGuards` | crates/mongreldb-kit/src/txn.rs:1310-1331 | reserves each gained key and releases each lost one, constraint by constraint |
| `Transaction.Transaction.ReservePkGuard` | crates/mongreldb-kit/src/txn.rs:1478-1493 | reserves the guard of an explicit composite primary key |
| `Transaction.Transaction.TouchRowGuard` | crates/mongreldb-kit/src/txn.rs:1612-1651 | rewrites the guard with the next version, once per transaction |
| `Transaction.Transaction.TouchForeignKeyGuards` | crates/mongreldb-kit/src/txn.rs:1543-1557 | touches the guard of every referenced parent |
| `Transaction.Transaction.InsertInto` | crates/mongreldb-kit/src/txn.rs:185-236 | checks, then guards, then the row; an error leaves the transaction unchanged |
| `Transaction.Transaction.UpdateRowBy` | crates/mongreldb-kit/src/txn.rs:239-301 | the update, on the fast path or the full one as the table asks |
| `Transaction.Transaction.UpdateFast` | crates/mongreldb-kit/src/txn.rs:306-407 | the fast path: the engine's version of the row merged and put, with no check |
| `Transaction.Transaction.Replace` | crates/mongreldb-kit/src/txn.rs:264-301 | the full path: checks, guards, then the row |
| `Transaction.Transaction.CoreUpsert` | crates/mongreldb-kit/src/txn.rs:608-631 | the engine's own upsert of a row the lookup did not find |
| `Transaction.Transaction.DeleteFast` | crates/mongreldb-kit/src/txn.rs:476-498 | the fast delete by row id |
| `Transaction.Transaction.Upsert` | crates/mongreldb-kit/src/txn.rs:549-631 | insert, DO NOTHING or DO UPDATE, with guards after the merged row and the engine's own merge |
| `Transaction.Transaction.ApplySetNull` | crates/mongreldb-kit/src/txn.rs:1770-1813 | nulls the columns of the planned row, refusing non-nullable columns |
| `Transaction.Transaction.ApplyPlan` | crates/mongreldb-kit/src/txn.rs:416-469 | set-null updates, cascades of other tables, then the target with its guard touched |
| `Transaction.Transaction.DeleteByPk` | crates/mongreldb-kit/src/txn.rs:472-510 | takes the fast path, or finds, plans with the given search for children and applies; there is no plan, and nothing changes, if and only if the row is not found or the cascade runs in a circle; and if the search finds all references, the delete is accepted if and only if it does not, nothing restricts and every lost reference can be nulled |
| `Transaction.Transaction.TruncateAll` | crates/mongreldb-kit/src/txn.rs:516-547 | refuses after writes and on referenced tables, else deletes every guard and row the snapshot has; of the touched guards it forgets only what the prefix test matches |
| `Operations.ForgetsAllOrNone` | crates/mongreldb-kit/src/txn.rs:1717-1727 | of the names without a colon the prefix test of a truncate forgets every touched guard for `rg` and none for any other |
| `Batch.InsertMany` | crates/mongreldb-kit/src/txn.rs:144-178 | the loop with preloaded keys and cached parents computes the batch of the cache-free checks, for explicit and assigned keys |
| `Batch.InsertCached` | crates/mongreldb-kit/src/txn.rs:185-236 | one row of the batch with its cached lookups, which stay fresh |
| `Batch.CheckSeen` | crates/mongreldb-kit/src/txn.rs:1412-1452 | the preloaded set answers the primary-key check exactly |
| `Batch.CheckCached` | crates/mongreldb-kit/src/txn.rs:1497-1541 | cached parent lookups answer the foreign-key check exactly |
| `Batch.BatchIsInsertsExactly` | crates/mongreldb-kit/src/txn.rs:144-178 | in any transaction the batch does what inserting its rows one by one does, with the same operations, guards, rows and first error, if and only if no explicit row it gets to repeats a key assigned earlier in it, or one that a staged row has left |
| `Batch.NoMovedKeys` | crates/mongreldb-kit/src/txn.rs:1582-1608 | where updates keep the primary key no staged row has left one |
| `Batch.BatchExactly` | crates/mongreldb-kit/src/txn.rs:1412-1452 | the same from any point of a batch, with any preloaded and assigned keys |
| `Batch.NoRepeatNoCollision` | crates/mongreldb-kit/src/txn.rs:1424-1452 | a batch whose explicit keys differ from its earlier assigned ones, seen from the batch alone, never collides |
| `Backfill.CollectKeys` | crates/mongreldb-kit/src/migrate.rs:477-500 | the loop finds a clash exactly when two rows with different primary keys share a key |
| `Backfill.BackfillUnique` | crates/mongreldb-kit/src/migrate.rs:453-528 | refuses exactly when two rows clash, else puts the owned guard of each key not guarded yet |
| `Backfill.BackfillTwice` | crates/mongreldb-kit/src/migrate.rs:502-511 | a second backfill puts nothing |
| `Backfill.BackfillMakesSound` | crates/mongreldb-kit/src/migrate.rs:448-528 | on a sound store the backfill makes the new constraint's guards exact as well |
| `Backfill.ClashCannotBeSound` | crates/mongreldb-kit/src/migrate.rs:487-495 | when it refuses, no guards could make the rows satisfy the constraint |
| `Backfill.BackfillForeignKey` | crates/mongreldb-kit/src/migrate.rs:551-624 | refuses exactly when a row is an orphan, else touches each referenced parent once |
| `Sequence.RangesTile` | crates/mongreldb-kit/src/db.rs:971-1021 | over any interleaving the granted ranges of a name do not overlap and cover exactly the values from one up to the stored next value |
| `Sequence.AllocateSequence` | crates/mongreldb-kit/src/db.rs:971-1021 | the retry loop gives up if and only if between the read and the commit of every attempt another call is granted a range of the sequence; otherwise the first attempt for which this is not so is granted the value it read |
| `Sequence.AttemptsAreRun` | crates/mongreldb-kit/src/db.rs:971-1021 | the attempts of a call and the steps of the others between them are a run of the protocol, so its ranges are among those that tile |
| `Sequence.OvertakenExactly` | crates/mongreldb-kit/src/db.rs:1009-1018 | an attempt is overtaken exactly when, since its read, somebody was granted a range of the same name |
| `Tsv.Escape` | crates/mongreldb-kit/src/tsv.rs:16-28 | the escaping loop computes the character-wise escape |
| `Tsv.Unescape` | crates/mongreldb-kit/src/tsv.rs:30-51 | the unescaping loop computes the recursive reading |
| `Tsv.RowsToTsv` | crates/mongreldb-kit/src/tsv.rs:64-78 | the export loop builds header and lines |
| `Tsv.TsvToRows` | crates/mongreldb-kit/src/tsv.rs:120-154 | the import loop parses the lines that are not empty |
| `Tsv.FieldsSay` | crates/mongreldb-kit/src/tsv.rs:140-150 | for any header and any line: a column of the table that the header names has the field at that position, by its application type; a column it does not name, a name that is no column and a surplus field set nothing |
| `Tsv.ImportSays` | crates/mongreldb-kit/src/tsv.rs:120-154 | so of every line of a document that is not blank, in order, and a document with a blank first line has no rows |
| `Tsv.EveryTextIsDocument` | crates/mongreldb-kit/src/tsv.rs:120-154 | every text is such a document |
| `Tsv.CellReadsExactly` | crates/mongreldb-kit/src/tsv.rs:53-117 | of the values of a column's type exactly the empty text does not come back |
| `Tsv.DocumentReads` | crates/mongreldb-kit/src/tsv.rs:64-154 | every list of rows comes back less those that have no line; over two or more columns unchanged |
| `Tsv.DocumentReadsExactly` | crates/mongreldb-kit/src/tsv.rs:64-154 | rows of the columns' types come back unchanged if and only if no cell is an empty text and, in a table of one column, no cell is null |
| `Tsv.AnyOrderReads` | crates/mongreldb-kit/src/tsv.rs:64-154 | a document exported with the columns in another order is read back just as well |

## Left out

- Floating point: `RangeF64`, float index keys, float sums and averages, and the rounding of numbers in check expressions, which are exact reals here.
- Unicode tables: which non-ASCII characters are letters or spaces is a parameter (`Check.Unicode`), and `chars` are scalar values.
- JSON objects, arrays and embeddings as cell values; the JSON of procedures and triggers has integers only.
- ORDER BY, LIMIT, DISTINCT, projection and aggregates: rows are compared before sorting.
- Regular expressions: LIKE is modelled by its meaning, not by the pattern it compiles to.
- Errors are compared only where the plain query succeeds; the text of an error message is not modelled.
- Exec.RunAgrees: stated where the plain scan succeeds, because the pushed form evaluates fewer rows and so may succeed where the plain one meets an error.
- Join.JoinIsPlain: stated for expressions that cannot fail, because splitting the filter also evaluates conjuncts that short-circuiting would have skipped; conjuncts on the right of a left join, which it excludes, are the subject of `JoinLimits.QualifiedJoinExactly`.
- Keys.UniqueKeysCollideExactly: stated for keys of at least one component, which is every unique key the code builds.
- `update_where` and `delete_where`: each row passes the checks of the single-row operation, but the engine writes are batched at the end, so a failure half-way leaves guards without rows; they are not part of the runs.
- A row written by two operations of one transaction is outside the runs: whether the second write meets the guards of the first depends on the engine's staging, which is hidden.
- Row ids: a row is known by its table and encoded primary key; the id carried by a staged update is not used.
- Row guards are known by table and primary key, which `Rules.RowsKnownByText` justifies for the schemas in scope; creation timestamps are not modelled.
- Transaction.Transaction.DeleteUniqueGuardsForOwner: the scan over the committed guard rows is one set comprehension, because the order of the scan does not matter.
- Sequence.AllocateSequence: the in-process lock around the loop is not modelled, because it only removes interleavings; counts are positive and do not overflow.
- Overlay.ReplayRefines: engine row ids play no part in the table it stands for.
- Defaults (`apply_defaults`, generated timestamps, UUIDs, sequence defaults) arrive as part of the row.
- SHA-256: only the text that is hashed is shown to be injective, and the same in both kits; the JSON of procedures and triggers is taken to be the same there.
- The TypeScript kit but for the text its migration checksum covers, the command line, bindings, encryption, file I/O and the wrappers around hidden engine code.
