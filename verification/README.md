# Verification of zero-cache

A Dafny model of the logic at the heart of a sync server that replicates PostgreSQL to
clients, with proofs of what that logic promises. There are five components.

1. **Query rewriting.** A client's query is a tree of conditions, correlated subqueries and
   related queries (`QueryAst`), with a meaning over a database (`QuerySemantics`). Row
   permissions are written into it (`ReadAuthorizer`, `SimplifyExact`, `PolicyMeaning`), the
   caller's claims are bound (`AuthBinding`, `BindingMeaning`, `QueryShape`), it is normalized
   for hashing (`Comparing`, `ComparisonExact`, `ConditionOrder`, `LibrarySort`, `Normalizing`,
   `NormalizedMeaning`, `QueryParts`, `FlattenExact`, `ResultExact`, `NormalizeExact`,
   `NormalizeTwice`, `NormalizedOrder`), its tables are collected (`ReferencedTables`) and it
   travels as JSON (`AstJson`, `AstJsonExact`).
2. **Mutation ingestion.** Many connections run transactions against one store, each of
   which may conflict, fail, or land although it reports an error (`MutationStore`). A
   retry loop runs among them (`MutationRetry`).
3. **Replication.** Wire messages are decoded (`WireFormat`, `WireReader`, `WireProofs`,
   `WireEncoding`, `WireExact`), snapshots of the published schema are diffed into changes
   (`KeyedMaps`, `SchemaDiff`, `SchemaDiffLoops`, `DiffContents`) which a replica applies
   (`SchemaApply`, `ColumnDiff`, `SchemaCorrect`, `SchemaExact`), driven by a tracker of DDL
   events (`DdlTracker`, `DdlReading`). Dates and array texts are read (`Calendar`,
   `ArrayText`, `ArrayExact`).
4. **Rate limiting.** Two windows with weighted carry-over (`Limiter`, `LimiterExact`,
   `LimiterWeight`).
5. **Push batching.** Queued pushes are drained, combined per connection and forwarded
   (`PushBatch`, `PushWorkers`, `PushCollisions`).

Functions are specifications; the methods beside them have the loops and the updates of
the source and are proved to compute them. Code that cannot be seen is a parameter:
the meaning of a comparison and of a correlation, the order and limit of a result, the
effect of a statement, UTF-8 and JSON parsing, the type mapping of columns, number
formatting, the arrival of messages and the sending of pushes. Every theorem holds for all
of them.

`dafny verify dfyconfig.toml` checks the whole project.

## Where code and documentation differ

The model follows the code.

- The limiter is documented to allow at most the maximum of calls per trailing window
  (`crates/zero-cache-mutagen/src/sliding_window_limiter.rs:39-40`). Every positive maximum
  is exceeded by some run (`LimitIsKeptExactly`); `PeakIsExact` gives the most there can be,
  which is twice the maximum where that is below the window size.
- A window is documented as half-open, and a call as counted in the period that holds it
  (`crates/zero-cache-mutagen/src/sliding_window_limiter.rs:22-23` and `:32`). A call that
  comes exactly two windows after the next one began is counted at the closed right end
  of a period (`CountedInItsPeriodExactly`, `CountedAfterItsPeriod`).
- A run of the push worker is described as failing only on a bug elsewhere
  (`crates/zero-cache-mutagen/src/pusher_service.rs:129-131`). Two connections whose
  colon-joined keys coincide also make it fail, if they are drained together
  (`KeysCollide`); this can happen exactly to connections with a colon in a field
  (`NeverFailsAnotherExactly`).
- A normalized query is documented as canonical
  (`crates/zero-cache-protocol/src/ast.rs:305-306`). Normalizing it again can give another form:
  one pass merges one level of nesting (`DeepQueryIsNotFinal`), and a subquery and a junction
  each compare as less than the other, so that the sort exchanges them every time
  (`ExistsBesideOrNeverSettles`). `FormIsFinalExactly` says for which queries neither happens.

## Model

| member | source | states |
|---|---|---|
| `ReadAuthorizer.TransformedQuerySeesVisible` | crates/zero-cache-auth/src/read_authorizer.rs:272-366 | Running the transformed query on all data gives what the original query gives on the rows whose select policy passes: root rows, related rows, EXISTS and NOT EXISTS, for every query, policy set, database and parent row |
| `ReadAuthorizer.AddedRulesHold` | crates/zero-cache-auth/src/read_authorizer.rs:316-325 | The rules added to a `where` accept a row exactly when the `where` and the select policy both do; no policy or an empty one denies |
| `ReadAuthorizer.SimplifyPreservesMeaning` | crates/zero-cache-auth/src/read_authorizer.rs:368-407 | Simplifying any condition keeps which rows it accepts, on every database |
| `ReadAuthorizer.SimplifyIsTidy` | crates/zero-cache-auth/src/read_authorizer.rs:376-423 | The simplified condition never nests And in And or Or in Or and has a constant only at its root |
| `ReadAuthorizer.Simplify` | crates/zero-cache-auth/src/read_authorizer.rs:368-374 | The recursive simplification computes the condition the theorems speak about |
| `ReadAuthorizer.SimplifyChildren` | crates/zero-cache-auth/src/read_authorizer.rs:376-407 | The loop that collects flattened children computes the same condition as splicing all simplified children and then testing for the absorbing constant |
| `ReadAuthorizer.SplicePreservesMeaning` | crates/zero-cache-auth/src/read_authorizer.rs:381-390 | Replacing children of the junction's own type by their children keeps the junction's meaning |
| `ReadAuthorizer.RejoinPreservesMeaning` | crates/zero-cache-auth/src/read_authorizer.rs:391-406 | Collapsing a junction that holds the absorbing constant keeps its meaning |
| `SimplifyExact.FixedExactly` | crates/zero-cache-auth/src/read_authorizer.rs:368-407 | A condition is left as it is if and only if it has no junction with one child and no child that is empty or of its junction's own type |
| `SimplifyExact.ConstantExactly` | crates/zero-cache-auth/src/read_authorizer.rs:376-423 | A condition simplifies to a constant if and only if it has that value whatever its comparisons and subqueries say |
| `SimplifyExact.SimplifyIsIdempotentExactly` | crates/zero-cache-auth/src/read_authorizer.rs:376-406 | A second simplification changes nothing if and only if no junction of several children is left with a single part once constants are dropped and nested junctions merged |
| `SimplifyExact.SecondPassIsNeeded` | crates/zero-cache-auth/src/read_authorizer.rs:376-406 | And[And[], x] simplifies to And[x] and only then to x |
| `SimplifyExact.NonEmptyIsSteady` | crates/zero-cache-auth/src/read_authorizer.rs:376-406 | One pass is enough for every condition without empty junctions |
| `SimplifyExact.TwoPassesAreEnough` | crates/zero-cache-auth/src/read_authorizer.rs:376-423 | For every condition, a third simplification changes nothing |
| `QueryParts.SimplifyKeepsAtoms` | crates/zero-cache-auth/src/read_authorizer.rs:376-407 | Without empty junctions, simplification keeps every comparison and subquery, in order |
| `QueryParts.RulesFollowTheWhere` | crates/zero-cache-auth/src/read_authorizer.rs:316-325 | Without empty junctions, the simplified condition of a query with rules holds its own comparisons and subqueries and then those of the rules, in order |
| `QueryShape.TrueRuleAddsNothing` | crates/zero-cache-auth/src/read_authorizer.rs:316-325 | A policy whose only rule always holds leaves the simplified `where` of the query |
| `QueryShape.TransformKeepsBareQuery` | crates/zero-cache-auth/src/read_authorizer.rs:272-301 | The transform keeps everything of a query but its conditions: tables, aliases, order, limit, start, correlations and flags, at any depth |
| `QueryShape.TransformKeepsBareCondition` | crates/zero-cache-auth/src/read_authorizer.rs:329-366 | Of a condition it keeps everything but the conditions inside its subqueries, among it operator, `flip`, `scalar` and plan id |
| `PolicyMeaning.VisibleExactly` | crates/zero-cache-auth/src/read_authorizer.rs:303-325 | The database the theorem on transformed queries speaks about has every table, with exactly the rows for which some select rule holds, in order |
| `AuthBinding.ReadClaimPath` | crates/zero-cache-auth/src/read_authorizer.rs:236-259 | The path loop reads a claim path exactly when the field is a string or an array of strings |
| `AuthBinding.ResolveParameter` | crates/zero-cache-auth/src/read_authorizer.rs:236-269 | A parameter resolves to the value its path reaches in the claims, and to null when anchor, field, path or claim is missing |
| `AuthBinding.ReferenceFindsItsClaim` | crates/zero-cache-auth/src/read_authorizer.rs:236-269 | A reference to a path of any depth finds exactly the claim nested at its end, and null when the path goes on past the claims |
| `AuthBinding.LiteralFromJson` | crates/zero-cache-auth/src/read_authorizer.rs:198-224 | A claim becomes a literal exactly as specified, with arrays converted element by element |
| `AuthBinding.LiteralsAreFlat` | crates/zero-cache-auth/src/read_authorizer.rs:198-224 | Bound literals never hold an array inside an array |
| `BindingMeaning.LiteralReadsBack` | crates/zero-cache-auth/src/read_authorizer.rs:198-224 | A claim that is a scalar or an array of scalars is bound to just that value: reading back a literal written as JSON gives the literal |
| `BindingMeaning.OtherClaims` | crates/zero-cache-auth/src/read_authorizer.rs:198-224 | A big integer becomes its number, an object null, an array with an array inside null, and any other array the literals of its items, in order |
| `BindingMeaning.ArraysExactly` | crates/zero-cache-auth/src/read_authorizer.rs:209-219 | A claim becomes an array exactly if it is one and none of its items becomes an array |
| `AuthBinding.BindCommutesWithSimplify` | crates/zero-cache-auth/src/read_authorizer.rs:149-187 | Binding a simplified condition gives, as syntax, the simplified bound condition |
| `AuthBinding.BindCommutesWithTransform` | crates/zero-cache-auth/src/read_authorizer.rs:52-196 | Binding after transforming gives, as syntax, the transform of the bound query under the bound permissions |
| `AuthBinding.BindingBindsQuery` | crates/zero-cache-auth/src/read_authorizer.rs:129-196 | A bound query holds no static parameter anywhere in `where` or `related`, at any depth |
| `BindingMeaning.BoundQueryMeans` | crates/zero-cache-auth/src/read_authorizer.rs:129-196 | For every query, claims and database, the bound query returns what the query returns when each static reference is looked up in the claims where it stands, at any depth |
| `BindingMeaning.BoundQueryStays` | crates/zero-cache-auth/src/read_authorizer.rs:129-196 | A query without static references is bound to itself |
| `BindingMeaning.FirstBindingWins` | crates/zero-cache-auth/src/read_authorizer.rs:129-196 | Binding a bound query again, to whatever claims, changes nothing |
| `QueryShape.BindingKeepsOutline` | crates/zero-cache-auth/src/read_authorizer.rs:129-187 | Binding keeps everything of a query but the sides of its comparisons, at any depth |
| `PolicyMeaning.BindingBindsPermissions` | crates/zero-cache-auth/src/read_authorizer.rs:75-127 | Bound permissions hold no static parameter in any policy |
| `PolicyMeaning.BoundPermissionsStay` | crates/zero-cache-auth/src/read_authorizer.rs:75-127 | Permissions without static parameters are bound to themselves |
| `PolicyMeaning.BoundRulesHold` | crates/zero-cache-auth/src/read_authorizer.rs:75-127 | Under bound permissions a row may be seen exactly if some rule holds for it with the references looked up in the claims |
| `PolicyMeaning.OtherReferences` | crates/zero-cache-auth/src/read_authorizer.rs:236-269 | A reference to anything but the authentication data, or with a field that is no name and no list of names, is null; one name is a path of one |
| `ReferencedTables.CollectQuery` | crates/zero-cache-protocol/src/ast.rs:266-282 | The collecting recursion adds exactly the tables of the query to the set it is given |
| `ReferencedTables.CollectCondition` | crates/zero-cache-protocol/src/ast.rs:284-297 | The same for a condition and its correlated subqueries |
| `ReferencedTables.UntouchedQueryKeepsItsResult` | crates/zero-cache-protocol/src/ast.rs:266-297 | Two databases that agree on the referenced tables give the same result, at any nesting |
| `ReferencedTables.ReferencedExactly` | crates/zero-cache-protocol/src/ast.rs:266-297 | A table is in the collected set if and only if renaming it, everywhere a query can name a table, changes the query |
| `Comparing.ComparisonReversesUnlessClash` | crates/zero-cache-protocol/src/ast.rs:424-503 | Comparing the other way round gives the reverse result exactly when no junction meets a subquery on the compared path |
| `ComparisonExact.CmpStringExactly` | crates/zero-cache-protocol/src/ast.rs:424-523 | Texts are ordered by the first position in which they differ, a prefix before what it is a prefix of |
| `ComparisonExact.RanksAreWords` | crates/zero-cache-protocol/src/ast.rs:487-523 | The ranks of positions, of EXISTS and of junctions are the alphabetical order of the words the source compares |
| `ComparisonExact.SimpleOrder` | crates/zero-cache-protocol/src/ast.rs:424-441 | One comparison is less than another exactly if its left side is, or with equal left sides its operator, or with equal operators its right side |
| `ComparisonExact.PositionBelowExactly` | crates/zero-cache-protocol/src/ast.rs:505-523 | One side of a comparison is less than another exactly if its kind is, or its text |
| `ComparisonExact.LiteralsAreRendered` | crates/zero-cache-protocol/src/ast.rs:525-545 | Literals are compared by their text, arrays by the texts of their items joined by commas |
| `ComparisonExact.SubqueryOrder` | crates/zero-cache-protocol/src/ast.rs:445-465 | One subquery is less than another exactly by alias, then EXISTS before NOT EXISTS, then `flip`, then `scalar`, absent before false before true |
| `ComparisonExact.ChildrenOrder` | crates/zero-cache-protocol/src/ast.rs:478-484 | Children of junctions are ordered by the first that decides, fewer before more |
| `ComparisonExact.KindsInOrder` | crates/zero-cache-protocol/src/ast.rs:424-485 | Comparisons come before everything else, And before Or; a subquery and a junction are each less than the other |
| `ConditionOrder.EqualMeansIdentical` | crates/zero-cache-protocol/src/ast.rs:424-545 | On subquery-free conditions over columns and literals whose rendering tells them apart, Equal means identical |
| `ConditionOrder.StringsAreDistinguished` | crates/zero-cache-protocol/src/ast.rs:525-545 | String literals are told apart by their rendering, whatever the number format |
| `ConditionOrder.ComparisonIsTotalOrder` | crates/zero-cache-protocol/src/ast.rs:424-545 | On those conditions the comparison is total, antisymmetric and transitive |
| `ConditionOrder.SortPermutes` | crates/zero-cache-protocol/src/ast.rs:338-372 | Sorting conditions permutes them |
| `ConditionOrder.SortSorts` | crates/zero-cache-protocol/src/ast.rs:338-372 | Sorting leaves every condition no greater than those after it |
| `ConditionOrder.SortForgetsOrder` | crates/zero-cache-protocol/src/ast.rs:338-372 | Two orders of the same conditions sort to the same list |
| `Normalizing.FlattenInto` | crates/zero-cache-protocol/src/ast.rs:374-413 | The loop that fills the flat list computes the flattened condition, stripping one level of the same type |
| `Normalizing.FlattenEach` | crates/zero-cache-protocol/src/ast.rs:374-398 | The same for the children taken over from a nested junction |
| `Normalizing.FlattenShrinks` | crates/zero-cache-protocol/src/ast.rs:374-413 | Flattening never grows a condition |
| `Normalizing.ComparisonSortPermutes` | crates/zero-cache-protocol/src/ast.rs:310-372 | The sorts used by normalization are permutations |
| `NormalizedMeaning.FlattenReadsNeutrally` | crates/zero-cache-protocol/src/ast.rs:374-413 | For every condition and every truth value of its comparisons and subqueries, flattening evaluates to what remains when each junction that flattens to nothing is left out |
| `NormalizedMeaning.FlattenPreservesMeaning` | crates/zero-cache-protocol/src/ast.rs:374-413 | Flattening keeps the meaning when every dropped junction is neutral where it stands |
| `FlattenExact.FlatteningKeepsMeaningExactly` | crates/zero-cache-protocol/src/ast.rs:374-413 | Where no comparison or subquery occurs twice, flattening keeps the value whatever they say if and only if every dropped junction is neutral where it stands |
| `FlattenExact.UnbalancedDiffers` | crates/zero-cache-protocol/src/ast.rs:374-413 | Otherwise some values of the comparisons and subqueries tell the flattened condition from the original |
| `FlattenExact.FlatteningChangesRows` | crates/zero-cache-protocol/src/ast.rs:374-413 | Without subqueries, some meaning of the comparisons makes the flattened condition accept other rows |
| `FlattenExact.RepeatedComparisonHides` | crates/zero-cache-protocol/src/ast.rs:374-413 | With a repeated comparison, a junction dropped wrongly can make no difference |
| `NormalizedMeaning.NormalizationKeepsResult` | crates/zero-cache-protocol/src/ast.rs:310-413 | For any permuting sort, a query whose dropped junctions are neutral, in subqueries too, keeps its whole result |
| `ResultExact.NormalizationKeepsResultExactly` | crates/zero-cache-protocol/src/ast.rs:310-413 | Without subqueries and repeated comparisons, the result is kept on every database and for every meaning if and only if every dropped junction, in related queries too, is neutral where it stands |
| `NormalizedMeaning.NonEmptyIsBalanced` | crates/zero-cache-protocol/src/ast.rs:374-413 | A condition without empty junctions is never dropped and meets that condition |
| `NormalizedMeaning.NonEmptyKeepsResult` | crates/zero-cache-protocol/src/ast.rs:310-413 | A query with no empty junction, in subqueries and related queries too, keeps its whole result |
| `NormalizedMeaning.DeniedNormalizesToUnrestricted` | crates/zero-cache-protocol/src/ast.rs:404-405 | The condition is needed: a denied query normalizes to the unrestricted one |
| `QueryParts.NormalizationKeepsParts` | crates/zero-cache-protocol/src/ast.rs:310-413 | For any permuting sort, normalization keeps every comparison and subquery with all it carries, at its place in the tree of subqueries and related queries, and changes only junctions and order |
| `QueryParts.FlattenKeepsAtoms` | crates/zero-cache-protocol/src/ast.rs:374-413 | Flattening keeps every comparison and subquery, in order, whatever junctions it drops |
| `NormalizeExact.FlattenIsIdempotentExactly` | crates/zero-cache-protocol/src/ast.rs:374-413 | Flattening twice gives what flattening once gives if and only if no part that remains has its junction's own type on top |
| `NormalizeExact.SecondFlattenIsNeeded` | crates/zero-cache-protocol/src/ast.rs:385-413 | Three levels of And take two passes of flattening |
| `LibrarySort.ConsistentIsTotal` | crates/zero-cache-protocol/src/ast.rs:432-481 | Among conditions of which no two clash, with no static reference, the comparison is a total order with ties, as a library sort asks for |
| `LibrarySort.TestSortIsStableSort` | crates/zero-cache-protocol/src/ast.rs:359-368 | There, exchanging a later element with an earlier one whenever it compares as less is the stable sort |
| `LibrarySort.ClashingPairIsExchanged` | crates/zero-cache-protocol/src/ast.rs:453-470 | Any two conditions that clash change places every time they are sorted by that test |
| `NormalizeTwice.FormIsFinalExactly` | crates/zero-cache-protocol/src/ast.rs:305-413 | Every form a bound query can be normalized to, the sort being free where comparisons are inconsistent, stays as it is when normalized again, if and only if every where in the query is shallow and no two conditions to be ordered clash |
| `NormalizeTwice.NormalizeIsIdempotentExactly` | crates/zero-cache-protocol/src/ast.rs:305-413 | With any sort that is stable where comparisons are consistent, normalizing a query in which no two conditions to be ordered clash is idempotent if and only if every where in it is shallow |
| `NormalizeTwice.OnlyOutcomeOfQuery` | crates/zero-cache-protocol/src/ast.rs:305-413 | A query in which no two conditions to be ordered clash has one normal form, whatever the sort |
| `NormalizeTwice.PlainQueryIsOrderly` | crates/zero-cache-protocol/src/ast.rs:453-470 | No two conditions clash in a query whose conditions hold no subquery and no static reference |
| `NormalizeTwice.DeepQueryIsNotFinal` | crates/zero-cache-protocol/src/ast.rs:385-413 | With any sort, a query with three levels of And is normalized to another form the second time |
| `NormalizeTwice.ClashingPairNeverSettles` | crates/zero-cache-protocol/src/ast.rs:359-368 | A query whose two conditions clash alternates between two forms under the test of the library sort |
| `NormalizeTwice.ExistsBesideOrNeverSettles` | crates/zero-cache-protocol/src/ast.rs:453-470 | So does an EXISTS beside an Or, although every where in the query is shallow |
| `NormalizedOrder.OrderIsForgotten` | crates/zero-cache-protocol/src/ast.rs:310-413 | Conditions that differ only in the order of junction children, at any depth, have the same normal form |
| `NormalizedOrder.HashIgnoresOrder` | crates/zero-cache-protocol/src/query_hash.rs:22-26 | So the normalized query, the only input of the hash, is the same |
| `NormalizedOrder.PairForgetsOrderUnlessTied` | crates/zero-cache-protocol/src/ast.rs:338-372 | Two different comparisons lose their order exactly when they do not compare as equal |
| `NormalizedOrder.BoundQuerySortsSafely` | crates/zero-cache-protocol/src/ast.rs:505-523 | Normalizing a query without static parameters compares only conditions that the comparison accepts |
| `NormalizedOrder.TransformedQueryHashesSafely` | crates/zero-cache-auth/src/read_authorizer.rs:52-73 | Hashing a transformed and bound query never reaches the unresolved-parameter panic, for every query, permission set and claims |
| `AstJson.QueryRoundTrip` | crates/zero-cache-protocol/src/ast_json.rs:39-430 | A query decodes to itself after encoding if and only if all compound keys are non-empty, no condition has a plan id and every static parameter is tagged as static |
| `AstJson.ConditionRoundTrip` | crates/zero-cache-protocol/src/ast_json.rs:168-368 | The same equivalence for a condition |
| `AstJson.HopRoundTrip` | crates/zero-cache-protocol/src/ast_json.rs:88-383 | The same equivalence for a correlated subquery |
| `AstJson.PositionRoundTrip` | crates/zero-cache-protocol/src/ast_json.rs:154-325 | The same equivalence for one side of a comparison |
| `AstJson.EncodingIsInjective` | crates/zero-cache-protocol/src/ast_json.rs:39-214 | Two such queries with the same JSON are the same query |
| `AstJsonExact.QueryDecodesExactly` | crates/zero-cache-protocol/src/ast_json.rs:411-430 | A JSON value decodes to a query if and only if it stands for it, field by field, at any depth, so that every other value is refused |
| `AstJsonExact.ConditionDecodesExactly` | crates/zero-cache-protocol/src/ast_json.rs:332-368 | The same equivalence for a condition |
| `AstJsonExact.HopDecodesExactly` | crates/zero-cache-protocol/src/ast_json.rs:370-383 | The same equivalence for a correlated subquery |
| `AstJsonExact.FieldOrderDoesNotMatter` | crates/zero-cache-protocol/src/ast_json.rs:216-430 | Two values with the same lookups decode alike, to a query, a condition or a correlated subquery |
| `AstJsonExact.RearrangedLooksUpTheSame` | crates/zero-cache-protocol/src/ast_json.rs:216-229 | Rearranging the fields of an object with distinct names changes no lookup |
| `AstJsonExact.QueryFieldsInOrder` | crates/zero-cache-protocol/src/ast_json.rs:39-86 | An encoded query names the fields it has, in one order |
| `AstJsonExact.HopFieldsInOrder` | crates/zero-cache-protocol/src/ast_json.rs:88-132 | An encoded correlated subquery names the fields it has, in one order |
| `AstJsonExact.ConditionFieldsInOrder` | crates/zero-cache-protocol/src/ast_json.rs:168-214 | An encoded condition names the fields it has, in one order |
| `MutationStore.Upstream.ApplyCrudMutation` | crates/zero-cache-mutagen/src/apply_mutation.rs:69-131 | One transaction, with its id check, its statements and every outcome of the commit, leaves the store and reports as specified |
| `MutationStore.ReportExactly` | crates/zero-cache-mutagen/src/apply_mutation.rs:69-131 | The report of a transaction, case by case: a conflict exactly on a conflict, a database error exactly for a failed statement or connection, otherwise the right check of the id and the counter after it |
| `MutationStore.AfterExactly` | crates/zero-cache-mutagen/src/apply_mutation.rs:69-131 | A transaction leaves the counter at the id and the data as all its statements make it, or else nothing at all |
| `MutationStore.StatementsRunInOrder` | crates/zero-cache-mutagen/src/apply_mutation.rs:122-124 | Statements run in order, each on what the one before it left, up to the first error |
| `MutationStore.StaleOrSkippedChangesNothing` | crates/zero-cache-mutagen/src/last_mutation_id.rs:60-87 | An id that is not the next one leaves the store unchanged, and is reported as already processed exactly when it is not beyond the counter |
| `MutationStore.BlockedMutationOnlyCounts` | crates/zero-cache-mutagen/src/orchestration.rs:30-50 | An unauthorized mutation, or one in error mode, moves its client's counter and nothing else |
| `MutationStore.RunIsGapFree` | crates/zero-cache-mutagen/src/apply_mutation.rs:69-131 | Over every interleaving, each client's committed ids are exactly those from its old counter to its new one, in order, and the data is what the committed statements make of it |
| `MutationStore.CommitsComeFromAttempts` | crates/zero-cache-mutagen/src/apply_mutation.rs:69-131 | Every commit is of an attempt of the run, with the statements that attempt planned |
| `MutationStore.CommittedAtMostOnce` | crates/zero-cache-mutagen/src/last_mutation_id.rs:60-104 | No mutation id of a client is committed twice |
| `MutationRetry.ApplyCrudMutationWithRetry` | crates/zero-cache-mutagen/src/apply_mutation.rs:195-258 | The retry loop, with other connections running between its transactions, ends with the verdict and the store of its specification |
| `MutationRetry.VerdictFollowsReports` | crates/zero-cache-mutagen/src/apply_mutation.rs:195-258 | The verdict follows from the reports alone: conflicts are tried again, the first error once more in error mode, anything else ends the loop |
| `MutationRetry.CalmLoop` | crates/zero-cache-mutagen/src/apply_mutation.rs:195-258 | Without interference, the next mutation of a client is applied, or on an application error confirmed without its statements, and the store is exactly that |
| `MutationRetry.CalmConfirmation` | crates/zero-cache-mutagen/src/apply_mutation.rs:195-258 | The second pass, in error mode, confirms the id in one transaction |
| `MutationRetry.CalmRefusal` | crates/zero-cache-mutagen/src/apply_mutation.rs:195-258 | Without interference, an id that was processed is passed over, one beyond the next is refused, and nothing changes |
| `MutationRetry.LoopIsBounded` | crates/zero-cache-mutagen/src/apply_mutation.rs:195-258 | At most MAX_SERIALIZATION_ATTEMPTS + 1 transactions; giving up means exactly MAX_SERIALIZATION_ATTEMPTS serialization failures, and conversely |
| `MutationRetry.LoopIsTruthful` | crates/zero-cache-mutagen/src/apply_mutation.rs:136-258 | Each verdict is true of the database at the end of the loop, whatever ran before and meanwhile; confirmed means committed exactly once, already processed means committed exactly once since the start or counted before it, given up means committed at most once |
| `MutationRetry.ReachedMeansCommitted` | crates/zero-cache-mutagen/src/apply_mutation.rs:136-165 | An id that a client's counter has come to since the start was committed exactly once on the way |
| `MutationRetry.OwnCommits` | crates/zero-cache-mutagen/src/apply_mutation.rs:136-258 | Of the loop's own transactions exactly one takes effect if it confirms, none on a protocol error, and otherwise none unless the reply to a commit was lost |
| `MutationRetry.CommitIsForGood` | crates/zero-cache-mutagen/src/apply_mutation.rs:136-165 | A mutation id committed exactly once stays so, with the same statements, through every later run |
| `MutationRetry.RetryLoopKeepsItsPromise` | crates/zero-cache-mutagen/src/apply_mutation.rs:136-258 | An application error means confirmed exactly once and never applied, a success means applied exactly once, a failure means nothing committed unless a reply was lost, and never twice, after everything that follows |
| `KeyedMaps.Ascending` | crates/zero-cache-change-source/src/pg_to_change.rs:436-446 | An ordered map is iterated over exactly its keys, in strictly ascending order |
| `SchemaDiffLoops.TableDiff` | crates/zero-cache-change-source/src/pg_to_change.rs:537-630 | The loops over the columns of one table give the specified changes or the first reason to resync |
| `SchemaDiffLoops.AddColumns` | crates/zero-cache-change-source/src/pg_to_change.rs:600-627 | The first new column that needs a backfill stops the diff |
| `SchemaDiffLoops.ListIndexes` | crates/zero-cache-change-source/src/pg_to_change.rs:449-464 | The indexes to drop and to create, structurally changed ones in both |
| `SchemaDiffLoops.MakeSchemaChanges` | crates/zero-cache-change-source/src/pg_to_change.rs:426-532 | The loops over indexes and tables give the specified changes in their order, or the reason to resync |
| `SchemaDiffLoops.DiffIsEmptyWhenSame` | crates/zero-cache-change-source/src/pg_to_change.rs:426-630 | The diff is empty if and only if everything it compares agrees |
| `SchemaDiffLoops.DiffResyncsExactly` | crates/zero-cache-change-source/src/pg_to_change.rs:489-627 | The diff asks for a resync if and only if some new column needs a backfill or a table enters without a CREATE statement |
| `DiffContents.DiffListsExactly` | crates/zero-cache-change-source/src/pg_to_change.rs:426-630 | A change is in the diff if and only if it belongs there, with all that it carries: names, types, defaults, columns and keys |
| `DiffContents.ResyncNamesItsReason` | crates/zero-cache-change-source/src/pg_to_change.rs:489-627 | A resync names the first column that needs a backfill, in the order of tables and columns, or else the first new table |
| `SchemaDiffLoops.UnknownStatementNeverBackfills` | crates/zero-cache-change-source/src/pg_to_change.rs:499-627 | Under an unknown statement the diff gives changes if and only if no table and no column is new |
| `ColumnDiff.ColumnDiffIsExact` | crates/zero-cache-change-source/src/pg_to_change.rs:562-630 | A table's column changes applied in order are defined at every step and give the next columns if and only if no kept column takes a name a later one still has |
| `SchemaExact.DiffIsExactlyRight` | crates/zero-cache-change-source/src/pg_to_change.rs:426-630 | The whole list applied in order is defined at every step and gives the next catalog if and only if no rename runs into a name still in use and no index the diff leaves alone has moved to another table, column or name |
| `SchemaExact.SwappedColumnsClash` | crates/zero-cache-change-source/src/pg_to_change.rs:426-630 | Whenever two columns swap names, the changes do not lead to the next schema |
| `SchemaExact.SwapCannotBeApplied` | crates/zero-cache-change-source/src/pg_to_change.rs:426-630 | Renaming a to b and b to a at once gives changes that cannot be applied |
| `SchemaCorrect.DiffIsExact` | crates/zero-cache-change-source/src/pg_to_change.rs:426-630 | When no such index has moved, the list gives the next catalog without a name clash and fails with one |
| `SchemaExact.FollowApplyAll` | crates/zero-cache-change-source/src/pg_to_change.rs:466-532 | Following one index through the changes tells whether and how it ends up in the catalog |
| `SchemaExact.MiddleNeedsNoClash` | crates/zero-cache-change-source/src/pg_to_change.rs:477-523 | If the table changes apply at all, with any indexes, no two names clash |
| `SchemaCorrect.AltersApply` | crates/zero-cache-change-source/src/pg_to_change.rs:489-497 | The alterations of the kept tables succeed exactly without such a clash |
| `SchemaCorrect.IndexListsHaveNoRepeats` | crates/zero-cache-change-source/src/pg_to_change.rs:449-464 | Each index is dropped or created at most once, and exactly those that are not kept |
| `DdlTracker.RelationTracker.constructor` | crates/zero-cache-change-source/src/pg_to_change.rs:306-308 | A new tracker has no prefix and no last event |
| `DdlTracker.RelationTracker.SetDdlPrefix` | crates/zero-cache-change-source/src/pg_to_change.rs:315-317 | The prefix becomes app, shard and `ddl`; the last event stays |
| `DdlTracker.RelationTracker.TakeDdl` | crates/zero-cache-change-source/src/pg_to_change.rs:331-366 | A message has the outcome of its reading; only an event with a schema replaces the last event |
| `DdlTracker.RelationTracker.TakeEvent` | crates/zero-cache-change-source/src/pg_to_change.rs:367-418 | An event is diffed against its own previous schema or else the last event's, under the tag of an enclosing ddlStart |
| `DdlTracker.DiffPublished` | crates/zero-cache-change-source/src/pg_to_change.rs:426-434 | Unreadable schemas ask for a resync, the previous one first |
| `DdlReading.EventReadsBack` | crates/zero-cache-change-source/src/pg_to_change.rs:367-391 | An event written with its type, schema, tag and previous schema reads back as just that, for the three known types; other types are unknown, a missing schema is malformed, and a previous schema of null is none |
| `DdlReading.EventWithoutTag` | crates/zero-cache-change-source/src/pg_to_change.rs:381-391 | The same without a tag, which then is UNKNOWN |
| `DdlReading.MessageIsRead` | crates/zero-cache-change-source/src/pg_to_change.rs:331-365 | Only messages with the tracker's prefix are read; there, content that is no UTF-8 or no JSON is malformed |
| `DdlReading.EventsBelongToStatements` | crates/zero-cache-change-source/src/pg_to_change.rs:393-399 | After a ddlStart an event is diffed under that statement's tag, otherwise a ddlUpdate under its own and any other under none |
| `DdlReading.OwnPreviousSchemaWins` | crates/zero-cache-change-source/src/pg_to_change.rs:385-412 | A previous schema that comes with an event takes the place of the last event's; with neither there is nothing to diff |
| `DdlReading.StatementFromTheWire` | crates/zero-cache-change-source/src/pg_to_change.rs:331-419 | A written ddlStart and then a written ddlUpdate are diffed under the statement's tag, and the same update again under its own |
| `DdlTracker.OtherMessagesChangeNothing` | crates/zero-cache-change-source/src/pg_to_change.rs:335-380 | Foreign, malformed and unknown messages anywhere in a run change neither the tracker nor what is emitted |
| `DdlTracker.EventIsExact` | crates/zero-cache-change-source/src/pg_to_change.rs:331-419 | The changes of an event that carries on from the last one, both schemas good and no resync asked for, lead from the last event's replica to its own if and only if no names clash and no index moves |
| `DdlTracker.RunIsExact` | crates/zero-cache-change-source/src/pg_to_change.rs:331-419 | In a run of such events that moves no index, folding all changes over the last event's schema gives the final event's schema if no names clash, and fails otherwise |
| `DdlTracker.FreshRunIsExact` | crates/zero-cache-change-source/src/pg_to_change.rs:331-419 | The same from a fresh tracker, starting from the first event's schema |
| `DdlTracker.RunStaysInStepExactly` | crates/zero-cache-change-source/src/pg_to_change.rs:331-419 | The replica is that of the last event's schema after every message of such a run if and only if no event clashes or moves an index |
| `DdlTracker.FreshRunStaysInStepExactly` | crates/zero-cache-change-source/src/pg_to_change.rs:331-419 | The same from a fresh tracker, for a replica made at the first event |
| `DdlTracker.SnapshotsNeverBackfill` | crates/zero-cache-change-source/src/pg_to_change.rs:384-418 | A schema snapshot outside a statement gives changes if and only if it introduces nothing; otherwise it asks for a resync |
| `WireReader.Reader.constructor` | crates/zero-cache-change-source/src/pgoutput.rs:166-168 | A reader starts at the first byte |
| `WireReader.Reader.ReadU8` | crates/zero-cache-change-source/src/pgoutput.rs:170-174 | Reads one byte and advances, or is too short |
| `WireReader.Reader.ReadTake` | crates/zero-cache-change-source/src/pgoutput.rs:192-199 | Takes bytes and advances, or is too short |
| `WireReader.Reader.ReadSigned` | crates/zero-cache-change-source/src/pgoutput.rs:176-186 | Reads a big-endian two's complement integer |
| `WireReader.Reader.ReadU64` | crates/zero-cache-change-source/src/pgoutput.rs:188-190 | Reads a big-endian unsigned integer |
| `WireReader.Reader.ReadCStr` | crates/zero-cache-change-source/src/pgoutput.rs:202-211 | Reads up to the first zero byte, too short without one and refused if not UTF-8 |
| `WireReader.Reader.ReadOneColumn` | crates/zero-cache-change-source/src/pgoutput.rs:217-236 | Reads one tuple column by its kind byte |
| `WireReader.Reader.ReadColumnList` | crates/zero-cache-change-source/src/pgoutput.rs:213-240 | The counted loop reads as many columns as repeated reading does |
| `WireReader.Reader.ReadRelationColumnList` | crates/zero-cache-change-source/src/pgoutput.rs:290-303 | The same for the columns of a relation |
| `WireReader.Reader.ReadIdList` | crates/zero-cache-change-source/src/pgoutput.rs:363-369 | The same for the relations of a truncate |
| `WireReader.Reader.RelationBody` | crates/zero-cache-change-source/src/pgoutput.rs:278-311 | Reads a Relation body |
| `WireReader.Reader.UpdateBody` | crates/zero-cache-change-source/src/pgoutput.rs:318-336 | Reads an Update body with or without an old row |
| `WireReader.Reader.Body` | crates/zero-cache-change-source/src/pgoutput.rs:255-397 | Reads the body that belongs to a kind byte; unknown kinds have none |
| `WireReader.DecodeWithLen` | crates/zero-cache-change-source/src/pgoutput.rs:253-399 | Decodes one message and its length |
| `WireReader.DecodeMessages` | crates/zero-cache-change-source/src/pgoutput.rs:404-413 | The offset loop decodes all messages of a buffer or fails with the first that fails |
| `WireProofs.DecodeReadsExactly` | crates/zero-cache-change-source/src/pgoutput.rs:253-399 | Whatever decodes, decodes the same whatever follows, and every strict prefix of what it read is TooShort |
| `WireProofs.DecodeFollows` | crates/zero-cache-change-source/src/pgoutput.rs:165-399 | A decode depends only on the bytes it reads |
| `WireEncoding.BytesRoundTrip` | crates/zero-cache-change-source/src/pgoutput.rs:176-190 | Big-endian bytes read back as the number written |
| `WireEncoding.RoundTrip` | crates/zero-cache-change-source/src/pgoutput.rs:253-399 | Decoding an encoded message followed by any bytes returns that message and its exact length |
| `WireEncoding.PrefixesAreTooShort` | crates/zero-cache-change-source/src/pgoutput.rs:170-240 | Every strict prefix of an encoded message gives TooShort |
| `WireEncoding.RoundTripAll` | crates/zero-cache-change-source/src/pgoutput.rs:404-413 | Decoding the concatenation of encoded messages returns the list of them |
| `WireEncoding.PartialTailIsRefused` | crates/zero-cache-change-source/src/pgoutput.rs:401-413 | A trailing partial message makes the whole buffer TooShort |
| `WireExact.DecodesExactly` | crates/zero-cache-change-source/src/pgoutput.rs:253-399 | Bytes decode to a message of a length if and only if they are that message's, with the bytes and flags that are not looked at left free, so that all others are refused |
| `WireExact.ColumnFails` | crates/zero-cache-change-source/src/pgoutput.rs:217-236 | A column fails with its kind byte if that is none of the four, on text that is not UTF-8, or for want of bytes; a negative length panics |
| `WireExact.PiecesFail` | crates/zero-cache-change-source/src/pgoutput.rs:202-289 | An unknown replica identity is named, a string without an end is too short, one that is not UTF-8 is refused |
| `WireExact.ListFailsAtFirst` | crates/zero-cache-change-source/src/pgoutput.rs:213-240 | A list fails as its first item that fails |
| `Limiter.SlidingWindowLimiter.constructor` | crates/zero-cache-mutagen/src/sliding_window_limiter.rs:56-63 | A new limiter has no windows yet |
| `Limiter.SlidingWindowLimiter.CanDo` | crates/zero-cache-mutagen/src/sliding_window_limiter.rs:67-102 | A call refreshes or rotates the windows, is judged by the weighted total and counted only if allowed |
| `LimiterWeight.FractionIsShareCovered` | crates/zero-cache-mutagen/src/sliding_window_limiter.rs:122-135 | Once its window has passed, a call weighs the share of the milliseconds of its window that the sliding window still covers, counted one by one |
| `LimiterWeight.TotalIsWeightedCount` | crates/zero-cache-mutagen/src/sliding_window_limiter.rs:112-135 | The total is the calls of the next window and of each prior call that share, and nothing before the first call |
| `LimiterWeight.CallsAtOneInstant` | crates/zero-cache-mutagen/src/sliding_window_limiter.rs:67-102 | Of any number of calls at one instant exactly as many are allowed as the total leaves room for below the maximum, and those are counted in the window of that instant |
| `LimiterWeight.HalfAWindowLater` | crates/zero-cache-mutagen/src/sliding_window_limiter.rs:122-135 | Halfway into the next window the calls of a full one count by the half that is still covered |
| `LimiterWeight.RunAllThenMore` | crates/zero-cache-mutagen/src/sliding_window_limiter.rs:67-102 | A run goes on from where it stands |
| `Limiter.StepKeepsSound` | crates/zero-cache-mutagen/src/sliding_window_limiter.rs:67-102 | On any clock, the windows stay adjacent and neither exceeds the maximum |
| `Limiter.DenialChangesNothing` | crates/zero-cache-mutagen/src/sliding_window_limiter.rs:90-101 | With a positive maximum, a denied call leaves the limiter exactly as it was, on any clock |
| `Limiter.DenialsChangeNothing` | crates/zero-cache-mutagen/src/sliding_window_limiter.rs:90-101 | The same for any number of denied calls |
| `Limiter.MaxZeroDeniesAll` | crates/zero-cache-mutagen/src/sliding_window_limiter.rs:52-53 | A maximum of zero denies every call |
| `Limiter.AtMostTwiceTheMaximum` | crates/zero-cache-mutagen/src/sliding_window_limiter.rs:67-149 | For every non-decreasing sequence of calls, any window of consecutive milliseconds holds at most twice the maximum of allowed calls |
| `LimiterExact.TwiceTheMaximumIsAttained` | crates/zero-cache-mutagen/src/sliding_window_limiter.rs:122-135 | Twice the maximum is never passed, and is reached if and only if the maximum is below the window size or one |
| `LimiterExact.PeakIsExact` | crates/zero-cache-mutagen/src/sliding_window_limiter.rs:67-149 | The least bound on the allowed calls of a trailing window over all runs is 2 max - max / size, and max + 1 for windows of one millisecond |
| `LimiterExact.LimitIsKeptExactly` | crates/zero-cache-mutagen/src/sliding_window_limiter.rs:39-40 | The documented maximum per trailing window is kept by every run if and only if it is zero |
| `LimiterExact.CountedInItsPeriodExactly` | crates/zero-cache-mutagen/src/sliding_window_limiter.rs:67-102 | On any clock, a call is counted at the closed end of a period if and only if it comes exactly two windows after the next one began, and outside its half-open period only then or behind both windows |
| `LimiterExact.CountedAfterItsPeriod` | crates/zero-cache-mutagen/src/sliding_window_limiter.rs:31-33 | For every window size, calls at 0 and at three windows: the second is counted in the period that has just ended |
| `Limiter.RunTotalBelow` | crates/zero-cache-mutagen/src/sliding_window_limiter.rs:112-135 | The weighted total stays below the maximum plus one at every time from the last call on |
| `Limiter.AllowedAWindowAfterDenial` | crates/zero-cache-mutagen/src/sliding_window_limiter.rs:67-102 | On a non-decreasing clock, a call at least one window after a denial, with only denials since, is allowed |
| `Limiter.PreparedKeepsInv` | crates/zero-cache-mutagen/src/sliding_window_limiter.rs:73-85 | Refreshing and rotating keep every booked call in an aligned window that reaches it, right end included |
| `PushBatch.Incompatible` | crates/zero-cache-mutagen/src/pusher_batch.rs:83-151 | No field differs exactly when the two contexts are equal |
| `PushBatch.FirstDifferenceIsNamed` | crates/zero-cache-mutagen/src/pusher_batch.rs:96-150 | The field named is the first of the ten in which the two contexts differ |
| `PushBatch.CollectGroups` | crates/zero-cache-mutagen/src/pusher_batch.rs:166-188 | The loop collects the entries before the first stop, by key, in first-seen order |
| `PushBatch.MergeEntries` | crates/zero-cache-mutagen/src/pusher_batch.rs:191-203 | The loop over a group merges it or finds the first incompatible entry |
| `PushBatch.CombinePushes` | crates/zero-cache-mutagen/src/pusher_batch.rs:163-206 | The loops compute the combined pushes and whether a stop was met |
| `PushBatch.CombiningKeepsConnections` | crates/zero-cache-mutagen/src/pusher_batch.rs:153-206 | For every connection, combining keeps exactly its mutations, in order, each under its own entry's context |
| `PushBatch.CombiningFailsOnDisagreement` | crates/zero-cache-mutagen/src/pusher_batch.rs:190-203 | Combining fails if and only if two entries before the stop share a key but not their context |
| `PushBatch.FailureNamesFirstDisagreement` | crates/zero-cache-mutagen/src/pusher_batch.rs:190-203 | A failure is that of the first key, in the order of first sight, whose entries disagree, at its first entry that disagrees |
| `PushBatch.KeysBySight` | crates/zero-cache-mutagen/src/pusher_batch.rs:166-188 | A key stands before another exactly if its first entry comes first |
| `PushBatch.OnePushPerKey` | crates/zero-cache-mutagen/src/pusher_batch.rs:160-203 | One push per key, in the order the keys are first seen |
| `PushWorkers.PushWorker.constructor` | crates/zero-cache-mutagen/src/pusher_service.rs:80-85 | A new worker has an empty queue and no clients |
| `PushWorkers.PushWorker.InitConnection` | crates/zero-cache-mutagen/src/pusher_service.rs:88-105 | A second initialization of the same socket is refused, a new socket replaces the old one, and nothing else changes |
| `PushWorkers.PushWorker.EnqueuePush` | crates/zero-cache-mutagen/src/pusher_service.rs:108-111 | A push goes to the end of the queue |
| `PushWorkers.PushWorker.StopWorker` | crates/zero-cache-mutagen/src/pusher_service.rs:117-119 | A stop goes to the end of the queue |
| `PushWorkers.PushWorker.Run` | crates/zero-cache-mutagen/src/pusher_service.rs:132-158 | The drain loop forwards what its specification forwards, in order, and threads the sender's state and results through every push |
| `PushWorkers.RunForwardsExactly` | crates/zero-cache-mutagen/src/pusher_service.rs:132-158 | However the queue is cut into batches, a run that does not fail forwards for every connection exactly the mutations queued before the first stop, once, in order, each under its own context |
| `PushWorkers.CutsDoNotMatter` | crates/zero-cache-mutagen/src/pusher_service.rs:132-158 | Two runs over the same queue, cut differently, forward the same to every connection |
| `PushWorkers.RunFailsOnDisagreement` | crates/zero-cache-mutagen/src/pusher_service.rs:132-158 | A run fails if and only if some drained batch holds two entries that share a key but not their context |
| `PushWorkers.FailedRunForwardsEarlierBatches` | crates/zero-cache-mutagen/src/pusher_service.rs:132-158 | A run that fails has forwarded all of the batches before the one that fails and nothing of that one |
| `PushWorkers.AgreedStreamNeverFails` | crates/zero-cache-mutagen/src/pusher_service.rs:132-158 | If all entries with one key share one context, no cut makes the run fail |
| `PushWorkers.NoCutFailsExactly` | crates/zero-cache-mutagen/src/pusher_service.rs:132-158 | No cut of a stream makes the run fail if and only if all entries with one key share one context |
| `PushCollisions.KeysCollide` | crates/zero-cache-mutagen/src/pusher_batch.rs:178-203 | Connections (a:b, c, r) and (a, b:c, r) share a key: their pushes fail if drained together and succeed if drained apart |
| `PushCollisions.CollisionsFailTogether` | crates/zero-cache-mutagen/src/pusher_batch.rs:178-203 | Any two entries with one key and different contexts fail in one batch and succeed in two |
| `PushCollisions.OwnKeyExactly` | crates/zero-cache-mutagen/src/pusher_batch.rs:178-181 | A connection shares its key with no other if and only if none of its three fields holds a colon |
| `PushCollisions.NeverFailsAnotherExactly` | crates/zero-cache-mutagen/src/pusher_batch.rs:178-203 | An entry can be drained with any entry of any other connection if and only if none of its three fields holds a colon |
| `Calendar.NextDayIsOneMore` | crates/zero-cache-change-source/src/pg_to_change.rs:123-131 | Consecutive dates have consecutive counts, in every year |
| `Calendar.CountsDayByDay` | crates/zero-cache-change-source/src/pg_to_change.rs:123-131 | The date reached by counting any number of days forward or back has that count |
| `Calendar.ClosedFormIsDayByDay` | crates/zero-cache-change-source/src/pg_to_change.rs:123-131 | Counting as many days as the closed form says reaches the date itself, for every valid date, negative years included |
| `Calendar.EraRoundsDown` | crates/zero-cache-change-source/src/pg_to_change.rs:125 | The truncating division with its correction rounds down, for negative years too |
| `ArrayText.ScanQuoted` | crates/zero-cache-change-source/src/pg_to_change.rs:198-213 | The inner loop reads a quoted element or finds it unterminated |
| `ArrayText.ScanBare` | crates/zero-cache-change-source/src/pg_to_change.rs:214-219 | The inner loop reads up to the next comma |
| `ArrayText.ParseInner` | crates/zero-cache-change-source/src/pg_to_change.rs:193-229 | The index loop reads the elements or refuses the text |
| `ArrayText.ParsePgArray` | crates/zero-cache-change-source/src/pg_to_change.rs:184-230 | An array text is read as specified, refused without its braces |
| `ArrayText.ArrayReadsBack` | crates/zero-cache-change-source/src/pg_to_change.rs:184-230 | Every list of optional strings reads back from every legal choice of quotes and escapes |
| `ArrayExact.ArrayExactly` | crates/zero-cache-change-source/src/pg_to_change.rs:184-230 | A text is read as a list of elements if and only if it lists them between braces, so that every other text is refused |
| `ArrayText.PrintingIsInjective` | crates/zero-cache-change-source/src/pg_to_change.rs:184-230 | So a quoted NULL is never read as a null |
| `ArrayText.BareArrayReadsBackExactly` | crates/zero-cache-change-source/src/pg_to_change.rs:214-220 | Without quotes, exactly the non-empty texts without a comma, without a leading quote and other than NULL read back as themselves |

## Left out

- FlattenExact.FlatteningKeepsMeaningExactly: asks that no comparison or subquery occurs twice, since a repeated one can hide a junction dropped wrongly (`RepeatedComparisonHides`).
- FlattenExact.UnbalancedDiffers: the same.
- FlattenExact.FlatteningChangesRows: asks for conditions without subqueries, which take their truth from the rows of other tables.
- PushWorkers.PushWorker.Run: a rejected dequeue, which nothing puts into the worker's own queue.
- WireReader.Reader.UpdateBody: the debug assertion that the marker before the new row is `N` (`crates/zero-cache-change-source/src/pgoutput.rs:328`), which release builds skip; any marker is accepted.
- ConditionOrder.ComparisonIsTotalOrder: asks for conditions without subqueries and for literals whose rendering differs, since the comparison ties or contradicts itself beyond those.
- WireFormat: a negative count or length on the wire is the outcome `Panic`; what the process then does depends on the build.
- PushBatch: versions are exact reals, so a version that is not a number, which would not equal itself, is not covered.
- Limiter: rounding of the fraction to a machine float, and overflow of times and counters.
- AstJson: the texts of decoding errors; a failure is one value.
- SchemaDiff: of a column's specification the fields that are compared, carried along or needed for a default; tables, columns and indexes are held by object id, attribute number and dotted name from the start, so a created table lists its columns by attribute number.
- ResultExact.NormalizationKeepsResultExactly: asks for queries without subqueries and without repeated comparisons, like the theorem on one condition.
- Normalizing: where comparisons are inconsistent the library sort may also panic; only the forms it can return are modelled. `ByComparison` is the stable sort, which the source's is bound to be only on consistent comparisons.
- SchemaApply: the SQLite statements behind a change; a change is its effect on a catalog of names, and fails where its target is missing or its new name taken. The replica ignores a drop of a missing table or index (`crates/zero-cache-sqlite/src/ddl_apply.rs:288` and `:323`), where the model fails.
- The rest of `RelationTracker`: relations, row translation and the other value types.
- Timestamps beyond the day count: time of day, fractions and zone offsets are floating-point arithmetic.
- Write policies, cell policies and update phases: they add easy cases of the same predicate.
- Sockets, TLS, HTTP, SQL text, SQLite storage, the change streamer, the view syncer, configuration and the load test.
