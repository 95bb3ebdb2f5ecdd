# PelagoDB, verified

A Dafny model of the parts of PelagoDB where a mistake loses, repeats or misorders data, with
proofs of what those parts promise. Byte strings, tokens, logs and queues are modelled as the
code stores them; loops are methods proved against specification functions, and the promises
are lemmas about those functions.

| files | what they model |
|---|---|
| `ByteOrder`, `Encoding`, `Store` | key order, the index and tuple encodings, range reads and transactions |
| `IndexScan`, `ScanFit`, `PlanPaging` | index scans, when they are right, and keyset paging of planned queries |
| `Text`, `Numbers`, `Predicate`, `Planner`, `PlanScan` | text and decimals, splitting a filter into comparisons, choosing an index, the residual filter, and plan and scan together |
| `Cel`, `CelRender`, `CelSplit` | what a filter text means as CEL (quotes, brackets, negation, `&&` before the other connective), writing one, and where cutting it at every connective agrees |
| `PlanTruth`, `GroupedFilters` | deciding whether a plan means its filter, and the grouped and quoted filters of which it does not |
| `TermRewrite`, `TermQuery`, `TermPaging`, `TermReach` | the term-posting path: template rewriting, capped set operations, node-id cursors, and how deep postings are read |
| `NodeKeys`, `Traversal`, `HopEdges`, `TraversalEngine`, `TraversalLevels`, `StoredLevels`, `TraversalPaths` | node and edge keys, breadth-first traversal, its continuation tokens, the levels it reaches and the paths it returns |
| `Cdc`, `Consumer` | versionstamps, paged log reads, the at-least-once consumer |
| `Replication`, `ReplicationRuns`, `ReplicationRounds`, `ReplicationMirrors` | any number of sites and workers pulling each other's logs |
| `Watch`, `WatchEvents`, `WatchRuns`, `WatchResume` | query watches as an incrementally maintained view, restored or cut off and resumed |
| `EdgeKeys`, `TypeDrop`, `TypeDropResults` | the stored layout of edges and dropping an entity type in committed batches |
| `Merging`, `EdgePaging` | listing edges of both directions with offset cursors |
| `SqlLexer`, `SqlGrammar`, `SqlParser` | the SQL-like schema syntax: tokenizer, grammar and recursive-descent parser |
| `SqlSyntax`, `SqlReading`, `SqlAccepted`, `SqlText`, `SqlDefinitions` | every definition in every spelling, the schema it stands for, and that exactly these are read |

Where the code does less than a reader would expect, the model follows the code, and a lemma states
exactly when the expectation holds:

* plan pages skip each look-ahead row, because the cursor handed out is that row's own key, and end
  at the first window that runs short (`PlanPaging.PagesSkipLookAhead`, `PlanPaging.PagesGapFree`);
* a flat filter with one recognised and indexed comparison among several terms keeps only that
  comparison (`Planner.PlanFaithfulIff`, `PlanScan.AnswersExactlyIff`);
* the planner cuts filters at connectives inside parentheses and quotes too, and an index used for
  a term in there loses nodes (`GroupedFilters.NegatedTermIsLost`, `GroupedFilters.QuotedTermIsLost`);
  a term that stands outside them can be taken out safely (`Planner.TakeableFaithfulIff`), without an
  index nothing is lost (`Planner.WholeKept`), and for any filter at all a finite truth table decides
  (`PlanTruth.FaithfulIffSameTable`);
* index scans end at `prefix ++ 0xFF` and so miss keys that continue with that byte, and string
  scans read some strings that only start like the literal (`ScanFit.ScanFitsIff`, `ScanFit.ScanSelectsIff`);
* template rewriting turns a comparison with the empty string into one that never holds, and drops
  non-string comparisons (`TermRewrite.RewriteMeans`, `TermRewrite.MixedRewriteMeans`);
* a watch restored from a set saved before its resume position, or cut off inside a record, is right
  again exactly when the keys in question are settled (`WatchResume.RestoredSetIsStale` with
  `WatchResume.RestoredExactIff`, `WatchResume.CutRecordIsLost` with `WatchResume.CutExactIff`);
* dropping a type leaves a key of each unlabelled edge between it and another type behind, and
  rows whose key continues with 0xFF (`TypeDropResults.AgreementIffLabelled`, `TypeDropResults.UnmentionedIff`);
* a traversal hop reads at most 1000 edges per listing (`HopEdges.SeesAllIff`);
* a term page with an id that no longer resolves ends the listing (`TermPaging.MoreIffAllResolve`);
* an AND of terms loses answers that lie deeper in a posting than it is read (`TermReach.TermPageIff`,
  `TermReach.DeepAnswerLost`).

`dafny verify dfyconfig.toml` checks everything.

## Model

| member | source | states |
|---|---|---|
| `ByteOrder.PrefixRange` | crates/pelago-storage/src/subspace.rs:153-159 | the range `[p, p ++ 0xFF)` of every prefix scan holds exactly the keys extending `p` whose next byte is not 0xFF |
| `ByteOrder.ExclusiveStart` | crates/pelago-api/src/admin_service.rs:837-843 | `k ++ 0x00` is the least key above `k`, so resuming there skips and repeats nothing |
| `Encoding.EncodeIntOrder` | crates/pelago-core/src/encoding.rs:16-20 | the byte order of encoded 64-bit integers is their numeric order, and the encoding is injective |
| `Encoding.IntRoundTrip` | crates/pelago-core/src/encoding.rs:16-30 | decoding an encoded integer gives it back |
| `Encoding.EncodeFloatOrder` | crates/pelago-core/src/encoding.rs:38-46 | the byte order of encoded floats is exactly the totalOrder predicate of section 5.10 of IEEE 754-2019, defined here on sign, exponent and significand values |
| `Encoding.FloatRoundTrip` | crates/pelago-core/src/encoding.rs:38-57 | decoding an encoded float gives its bits back, for every NaN payload and both zeros |
| `Encoding.NumberOrder` | crates/pelago-core/src/encoding.rs:38-46 | on numbers, comparing values agrees with the signed comparison of bit patterns except that the two zeros are equal |
| `Encoding.TotalOrderIsSigned` | crates/pelago-core/src/encoding.rs:38-46 | totalOrder, with its rules for zeros and NaNs, is the signed order of bit patterns |
| `Encoding.TupleOrder` | crates/pelago-core/src/encoding.rs:104-152 | tuple encoding preserves order, and one encoding extends another exactly when the tuple does |
| `Encoding.TupleInjective` | crates/pelago-core/src/encoding.rs:104-152 | different lists of strings, byte strings and integers have different encodings |
| `Encoding.TuplePrefixScan` | crates/pelago-core/src/encoding.rs:104-163 | a prefix scan of an encoded tuple reads exactly the encodings of tuples extending it, whatever zero bytes their strings hold |
| `Encoding.TupleBuilder.AddEscaped` | crates/pelago-core/src/encoding.rs:104-132 | the escaping loop appends the type code, the escaped bytes and one terminator |
| `Encoding.TupleBuilder.AddElement` | crates/pelago-core/src/encoding.rs:104-146 | adding an element appends its encoding and changes nothing before it |
| `Encoding.ExtractTupleString` | crates/pelago-storage/src/consumer.rs:217-241 | the loop undoes escaping up to the first terminator and returns nothing for other element types |
| `Encoding.ExtractInverts` | crates/pelago-storage/src/consumer.rs:217-241 | any encoded string is recovered when the byte behind it is not 0xFF |
| `Encoding.ExtractNeedsSafeTail` | crates/pelago-storage/src/consumer.rs:217-241 | a following 0xFF is read as an escaped zero byte, so the side condition is needed |
| `IndexScan.EncodeValueOrder` | crates/pelago-core/src/encoding.rs:60-70 | within one type, encoded values order and coincide as the values do |
| `IndexScan.IndexKeyOrder` | crates/pelago-storage/src/index.rs:114-156 | index keys of one fixed-width type are in (value, node id) order |
| `IndexScan.ScanMembership` | crates/pelago-query/src/executor.rs:435-565 | which index entries the range of each comparison operator reads |
| `IndexScan.ScanExactness` | crates/pelago-query/src/executor.rs:435-565 | a scan and the comparison agree on an entry exactly when neither 0xFF side condition bites: both directions, all five operators |
| `ScanFit.StringFitsIff` | crates/pelago-query/src/executor.rs:463-565 | for every operator, exactly which stored texts, literals and ids make a string scan right |
| `ScanFit.ScanFitsIff` | crates/pelago-query/src/executor.rs:435-565 | for every type, operator and kind of index, scan and comparison agree on an entry exactly when it meets a condition on its value, its id and the literal |
| `ScanFit.ScanSelectsIff` | crates/pelago-query/src/executor.rs:435-565 | a whole scan of any index of one type returns exactly the selected entries, in key order, if and only if every entry meets that condition |
| `ScanFit.ScanSelects` | crates/pelago-query/src/executor.rs:435-565 | with values of fixed width entries are in (value, id) order, and the scan is exact if and only if the two 0xFF side conditions hold, each only for the operators it concerns |
| `IndexScan.ExecuteIndexScan` | crates/pelago-query/src/executor.rs:435-565 | the scan loop reads from the range start or just behind the cursor up to the limit, and returns key and node id of each row, or fails if a key is too short |
| `ScanFit.RowNodeId` | crates/pelago-query/src/executor.rs:1035-1042 | the node id of every stored entry is read back from its row, in every kind of index |
| `ScanFit.ResumedScanReturns` | crates/pelago-query/src/executor.rs:435-565 | over the rows of stored entries, a scan resumed at a cursor returns key and id of the first `limit` entries behind it in the range |
| `ScanFit.ScanReturnsIff` | crates/pelago-query/src/executor.rs:435-565 | without a cursor and with room for all, the scan loop returns keys and ids of exactly the entries the comparison selects, in order, if and only if every entry fits |
| `IndexScan.UniqueEqualityExact` | crates/pelago-query/src/executor.rs:463-494 | in a unique index equality scans of fixed-width values are exact, whatever the node's site |
| `IndexScan.EqualityMissesSite255` | crates/pelago-query/src/executor.rs:463-494 | an equality scan misses a matching node of site 255 |
| `IndexScan.RangeMissesLargeInts` | crates/pelago-query/src/executor.rs:495-565 | `>=` misses exactly the integers from 0x7F00000000000000 up, whose first encoded byte is 0xFF |
| `IndexScan.StringEqualityComplete` | crates/pelago-query/src/executor.rs:463-494 | a string equality scan misses no entry of a site below 255 |
| `IndexScan.StringEqualityReads` | crates/pelago-query/src/executor.rs:463-494 | exactly which entries a string equality scan reads: those whose text and id extend the literal by no 0xFF |
| `IndexScan.StringEqualityNotExact` | crates/pelago-query/src/executor.rs:463-494 | so it reads `abc` for `ab` |
| `IndexScan.FloatEqualityAgrees` | crates/pelago-query/src/executor.rs:463-494 | index equality and IEEE equality agree except on zeros of opposite sign and on a NaN with itself |
| `IndexScan.FloatLessAgrees` | crates/pelago-query/src/executor.rs:495-565 | index order and IEEE `<` agree except where totalOrder ranks NaNs or the two zeros |
| `PlanPaging.ExecutePlanPage` | crates/pelago-query/src/executor.rs:141-245 | the candidate loop returns the page defined by window, residual filter, look-ahead and truncation |
| `PlanPaging.PagesAscending` | crates/pelago-query/src/executor.rs:141-245 | following cursors returns rows in strictly increasing key order, none twice, all matching the residual filter |
| `PlanPaging.FirstPage` | crates/pelago-query/src/executor.rs:141-245 | for any residual filter and limits the first page is the first `limit` matches of the scan window, and its cursor the key of the next match there |
| `PlanPaging.ReturnedAt` | crates/pelago-query/src/executor.rs:141-245 | by position: the first page holds a row exactly if the filter holds of it, it is among the first 4 * (limit + 1) rows and within the maximum limit, and fewer than `limit` rows before it match |
| `PlanPaging.PagesSkipLookAhead` | crates/pelago-query/src/executor.rs:200-245 | for any residual filter and limits the pages return a prefix of the matches without the look-ahead row of each page |
| `PlanPaging.PagesSkipUnfiltered` | crates/pelago-query/src/executor.rs:200-245 | below the maximum limit and without a residual filter they return all of those |
| `PlanPaging.PagesGapFree` | crates/pelago-query/src/executor.rs:141-245 | for any residual filter and limits paging returns all matches exactly when they fit on the first page and in its window |
| `PlanPaging.PagesStopAtWindow` | crates/pelago-query/src/executor.rs:141-245 | a page whose scan window holds at most `limit` matches is the last, so matches beyond the window are never returned |
| `Predicate.SplitBooleanExpression` | crates/pelago-query/src/predicate.rs:50-80 | the nested loops split into OR-groups of trimmed AND-terms and fail on any empty term |
| `Predicate.GroupClean` | crates/pelago-query/src/predicate.rs:50-80 | every term is trimmed, non-empty and free of `&&` and `||` |
| `Predicate.SplitJoined` | crates/pelago-query/src/predicate.rs:50-80 | joining such terms with ` && ` and splitting again gives one group of the same terms |
| `Predicate.ParseComparisonText` | crates/pelago-query/src/predicate.rs:83-110 | the operator loop tries operators in the source's order and gives up at the first one found whose field or literal is malformed |
| `Predicate.ParseRendered` | crates/pelago-query/src/predicate.rs:83-110 | parsing a rendered `field OP literal` gives the field, operator and literal back, for all six operators |
| `Predicate.ComparisonIff` | crates/pelago-query/src/predicate.rs:83-110 | of every text: it is read as a comparison exactly if its first operator, in the order looked for, stands between a field without a space and a literal |
| `Predicate.SpacedFieldRefused` | crates/pelago-query/src/predicate.rs:83-110 | a field with a space in it, such as a sum, is never recognised |
| `Predicate.SignsRead` | crates/pelago-query/src/predicate.rs:83-110 | the six signs as written: `==`, `!=`, `>=`, `<=`, `>` and `<` between a field and a literal |
| `Planner.ExtractPredicates` | crates/pelago-query/src/planner.rs:73-108 | the loop extracts the recognised comparisons of a single conjunction with their positions, and nothing from disjunctions or malformed expressions |
| `Planner.RecognisedIff` | crates/pelago-query/src/planner.rs:73-108 | exactly the terms that parse are recognised, in order, at their positions |
| `Planner.SelectBestIndex` | crates/pelago-query/src/planner.rs:111-196 | the loop picks the first predicate of minimal selectivity among the usable ones, or a full scan when none is usable |
| `Planner.UsableIff` | crates/pelago-query/src/planner.rs:118-178 | an index serves an equality on any indexed property and a range comparison on a range index, and nothing else |
| `Planner.ChoiceIff` | crates/pelago-query/src/planner.rs:111-196 | the choice is the first of the most preferred usable comparisons: equality on a unique, an equality and a range index, then ranges |
| `Planner.FirstBestUnique` | crates/pelago-query/src/planner.rs:111-196 | that choice is unique |
| `Planner.PlanQuery` | crates/pelago-query/src/planner.rs:36-69 | the plan is that choice with the residual built from it |
| `Planner.AcceptsTerm` | crates/pelago-query/src/planner.rs:126-178 | the index predicate chosen for a term is, as a predicate on nodes, the term itself, bounds and inclusiveness included |
| `Planner.SingleGroup` | crates/pelago-query/src/planner.rs:199-225 | splitting the original text again when building the residual finds the same terms at the same positions |
| `Planner.ResidualIs` | crates/pelago-query/src/planner.rs:199-245 | the residual is the text of all other terms joined, none when there are no others, and none when a single recognised term drops them |
| `Planner.ResidualMeans` | crates/pelago-query/src/planner.rs:199-245 | of terms with closed quotes and brackets, the residual read as CEL means the conjunction of the others |
| `Planner.TakenOut` | crates/pelago-query/src/planner.rs:199-245 | if the used term can be taken out of the filter, index predicate and residual agree with the filter on a node exactly unless dropped terms fail there although the used one holds |
| `Planner.WholeKept` | crates/pelago-query/src/planner.rs:199-213 | for every filter, grouped and quoted ones included, a plan without an index and with a recognised term means the filter on every node |
| `Planner.DroppedTerms` | crates/pelago-query/src/planner.rs:207-213 | in a flat filter, with one recognised, indexed term among several, a node exists that the plan returns and the filter rejects |
| `Planner.NoPredicates` | crates/pelago-query/src/planner.rs:73-86 | without recognised terms, and for every disjunction, the plan returns nodes a flat filter rejects |
| `Planner.TakeableFaithfulIff` | crates/pelago-query/src/planner.rs:36-245 | for every filter planned without an index or with one for a term that can be taken out, index predicate and residual mean the filter as CEL reads it exactly when no dropped term matters and, without recognised terms, the filter always holds |
| `Planner.PlanFaithfulIff` | crates/pelago-query/src/planner.rs:36-245 | for flat filters (no term grouped or negated, no connective in quotes or brackets), index predicate and residual mean the filter as CEL reads it on every node exactly when it is one conjunction with two recognised terms, or with one that is its only term or unindexed |
| `CelSplit.TidyMeans` | crates/pelago-query/src/predicate.rs:50-80 | if every term the planner's cut gives closes its quotes and brackets, the filter as CEL reads it is the OR of ANDs of these terms |
| `CelSplit.TermApart` | crates/pelago-query/src/planner.rs:215-225 | a term outside all quotes and brackets, or of a filter with none around a connective, and the text of the others joined together mean the filter, on every node |
| `CelRender.RenderHolds` | crates/pelago-query/src/cel.rs:26-42 | a formula written as filter text and read again has its meaning on every node, for every nesting of negations, conjunctions and disjunctions of atoms |
| `CelRender.NegatedMeans` | crates/pelago-query/src/cel.rs:26-42 | a negated group is the negation of what it encloses, connectives included |
| `PlanTruth.FaithfulIffSameTable` | crates/pelago-query/src/planner.rs:36-245 | for every filter, schema and choice of index, plan and filter agree on every node exactly when they agree on the finitely many lines of their truth table |
| `GroupedFilters.NegatedTermIsLost` | crates/pelago-query/src/planner.rs:73-108 | of a negated group of three or more terms planned with an index for an inner one, the filter holds of a node that the plan does not return, however many terms were recognised |
| `GroupedFilters.NegatedInput` | crates/pelago-query/src/planner.rs:73-108 | for instance `!(x > 0 && a == 1 && y > 0)` with an index on `a`, all of whose terms are kept |
| `GroupedFilters.QuotedTermIsLost` | crates/pelago-query/src/planner.rs:73-108 | the same for a comparison that stands inside a quoted string |
| `PlanScan.ReadIffHolds` | crates/pelago-query/src/executor.rs:435-565 | the scan of a plan reads a node exactly if the chosen comparison holds of it, when and only when the node's entry fits the scan |
| `PlanScan.ReturnedIff` | crates/pelago-query/src/planner.rs:199-245 | an indexed plan whose used term can be taken out of the filter is right about a node exactly when its entry fits where the other terms hold, and, if they are dropped, where they fail the scan does not read it |
| `PlanScan.AnswersExactlyIff` | crates/pelago-query/src/planner.rs:36-245 | for every schema, store and filter planned without an index or with one for a term that can be taken out, access path and residual together return exactly the nodes the filter, read as CEL, holds of if and only if the plan is right about each |
| `PlanScan.KeptAndFitting` | crates/pelago-query/src/planner.rs:36-245 | such a plan that keeps the whole filter is exact on every store whose entries fit its scan |
| `TermRewrite.RewriteTemplateTermGroup` | crates/pelago-query/src/executor.rs:1099-1162 | the loop collects string values, leaves conflicting groups alone, and replaces the longest complete template |
| `TermRewrite.UsedIff` | crates/pelago-query/src/executor.rs:1099-1162 | no template is used if two terms clash or one of show, scheme, shot and sequence is not compared with a string, the long one if task and label are compared too, otherwise the short one |
| `Text.JoinInjective` | crates/pelago-query/src/executor.rs:1127-1144 | `|`-joins of `|`-free parts determine the parts |
| `TermRewrite.PostedTemplate` | crates/pelago-storage/src/term_index.rs:388-444 | a node is posted under a template exactly with the join of its own fields, all of them non-empty strings |
| `TermRewrite.SyntheticMeans` | crates/pelago-query/src/executor.rs:1120-1145 | the synthetic term holds of a node exactly when its template fields have the compared, non-empty values |
| `TermRewrite.RewriteMeans` | crates/pelago-query/src/executor.rs:1092-1162 | for every `|`-free node and group, the rewritten group holds exactly when the original does and no rewritten value is empty |
| `TermRewrite.MixedTermsAreLost` | crates/pelago-query/src/executor.rs:1130-1160 | non-string comparisons of a rewritten field are dropped wherever they stand in the group |
| `TermRewrite.MixedRewriteMeans` | crates/pelago-query/src/executor.rs:1092-1162 | with such comparisons present, exactly when the rewritten and when the original group holds |
| `TermQuery.OrderBy` | crates/pelago-query/src/executor.rs:716-731 | sorting by document frequency orders the terms and keeps exactly them |
| `TermQuery.ExecuteTermGroup` | crates/pelago-query/src/executor.rs:699-761 | the intersection loop, with its early exit, returns the ids fetched for every term, whatever the order |
| `TermQuery.ExecuteTermGroups` | crates/pelago-query/src/executor.rs:654-697 | the capped union is sorted and within the fetched ids, and is all of them when they fit under the cap |
| `TermPaging.ExecuteTermExpression` | crates/pelago-query/src/executor.rs:302-404 | the page is cut from that union: ids after the cursor, one look-ahead id, unresolved ids skipped |
| `TermPaging.FetchedMatches` | crates/pelago-query/src/executor.rs:699-761 | whatever the limits, only matching ids after the cursor are ever fetched |
| `TermPaging.CountedCovers` | crates/pelago-query/src/executor.rs:699-761 | with counts present, covering the postings and within the cap, the union is exactly the matching ids after the cursor |
| `TermPaging.SinglesCover` | crates/pelago-query/src/executor.rs:1164-1172 | for ORs of single terms the next `limit + 1` answers are fetched even without counts |
| `TermPaging.CoversSorted` | crates/pelago-query/src/executor.rs:693-697 | sorting a set that covers the next answers puts exactly them first |
| `TermPaging.TermPageExact` | crates/pelago-query/src/executor.rs:320-380 | in both cases each page is the first `limit` matching ids after the cursor, with the right has-more flag and cursor |
| `TermPaging.PagesPartition` | crates/pelago-query/src/executor.rs:302-404 | whatever pages the executor serves to a client following its cursors are consecutive pieces of the sorted answer, and end exactly when it is complete |
| `TermPaging.PagesExist` | crates/pelago-query/src/executor.rs:302-404 | such pages exist up to a last one, so the whole answer is reached |
| `TermReach.FetchedIffInReach` | crates/pelago-query/src/executor.rs:699-761 | with or without counts, an id is fetched exactly if in some group that matches it every posting has fewer ids between cursor and id than are read |
| `TermReach.TermPageIff` | crates/pelago-query/src/executor.rs:320-380 | for every OR of ANDs under the cap, a page is the first `limit` answers after the cursor, with the right has-more flag and cursor, if and only if these and one more are in reach |
| `TermReach.DeepAnswerLost` | crates/pelago-query/src/executor.rs:1164-1172 | an answer that lies deeper than the fetch limit in a posting all its groups need is on no page |
| `TermReach.FetchDepth` | crates/pelago-query/src/executor.rs:1164-1172 | a posting is read at least sixteen times the target and 1024 deep as far as the cap allows, and exactly so without a count |
| `TermReach.ShallowIsFetched` | crates/pelago-query/src/executor.rs:699-761 | a matching id with fewer ids than that ahead of it in every posting of its group is fetched |
| `TermReach.DeepIsNotFetched` | crates/pelago-query/src/executor.rs:699-761 | one with that many ahead of it in an uncounted posting all its groups need is not |
| `TermReach.DeepPageLost` | crates/pelago-query/src/executor.rs:302-404 | in numbers: an answer with 16 * (limit + 1) or 1024 ids, or the cap of 20 * maximum limit or 5000, ahead of it in an uncounted posting all its groups need is on no page |
| `TermPaging.MoreIffAllResolve` | crates/pelago-query/src/executor.rs:356-375 | when more ids remain, more is reported and a cursor given exactly if the page and its look-ahead all resolve |
| `Traversal.AdmitMeasure` | crates/pelago-query/src/traversal.rs:346-446 | admitting targets never makes unvisited nodes plus admitted paths grow |
| `Traversal.Next` | crates/pelago-query/src/traversal.rs:294-446 | every turn of the loop strictly decreases unvisited nodes plus queued entries, so it terminates |
| `Traversal.PageThenDrain` | crates/pelago-query/src/traversal.rs:294-449 | a capped call returns a prefix of the uncapped run, is full unless nothing is left, and leaves a state that yields the rest |
| `Traversal.PagesThenDrain` | crates/pelago-query/src/traversal.rs:278-308 | pages of any sizes deliver, path by path, a prefix of one uncapped run |
| `Traversal.PagedEqualsOneRun` | crates/pelago-query/src/traversal.rs:278-308 | with caps of at least one, the pages together are the uncapped run, in order, errors included |
| `Traversal.ZeroCapsStall` | crates/pelago-query/src/traversal.rs:303-308 | any number of pages with a cap of zero leaves the run where it was |
| `Traversal.PageKeepsPromise` | crates/pelago-query/src/traversal.rs:294-446 | in every run entries stay in hop order, and once a result was returned everything still queued is a result |
| `Traversal.LeftoverIsTheRest` | crates/pelago-query/src/traversal.rs:294-476 | after any pages, one with a cap of at least one, what is left holds exactly the results still to come, in order, and is empty exactly when none is |
| `TraversalEngine.TokenIffMore` | crates/pelago-query/src/traversal.rs:448-491 | in any chain of calls a call with a cap of at least one reports truncation and hands out a token exactly when results remain, and the token's paths are those results |
| `TraversalEngine.ChainDrains` | crates/pelago-query/src/traversal.rs:278-308 | the paths of a chain of calls, page after page, followed by what its last token stands for, are the uncapped run, whatever the caps |
| `TraversalEngine.ChainIsOneRun` | crates/pelago-query/src/traversal.rs:448-491 | a chain followed until a call hands out no token returns exactly the uncapped run |
| `TraversalEngine.GetEdgesForHop` | crates/pelago-query/src/traversal.rs:546-644 | the edges of a hop by direction and labels, duplicates removed by edge id where both directions are read |
| `TraversalEngine.FilterEdges` | crates/pelago-query/src/traversal.rs:646-682 | the edge filter keeps the accepted edges and fails as soon as an edge meets a filter that does not compile |
| `TraversalEngine.JoinBatch` | crates/pelago-query/src/traversal.rs:385-420 | a batch of parallel fetches, joined in any order, returns each target's fetch once |
| `TraversalEngine.CompletionOrderIrrelevant` | crates/pelago-query/src/traversal.rs:382-423 | sorting joined fetches by index gives the list fetching one by one in edge order would give, parallel edges to one target included |
| `TraversalEngine.FetchTargets` | crates/pelago-query/src/traversal.rs:382-423 | batched parallel fetching returns the targets in edge order for every completion order |
| `TraversalEngine.AdmitPending` | crates/pelago-query/src/traversal.rs:382-445 | visited set and new paths after a step are those of admitting sequentially in edge order |
| `TraversalEngine.Expand` | crates/pelago-query/src/traversal.rs:322-445 | expanding an entry is the sequential specification, or the filter error exactly when an evaluated filter does not compile |
| `TraversalEngine.RunLoop` | crates/pelago-query/src/traversal.rs:294-446 | the loop over queue, visited set and results computes the specified page |
| `TraversalEngine.Traverse` | crates/pelago-query/src/traversal.rs:230-491 | a call returns that page; it is truncated, with a token holding the whole remaining state, exactly when the queue is not empty |
| `NodeKeys.VisitKeyInjective` | crates/pelago-query/src/traversal.rs:369-373 | a visited key determines its node when ids contain no colon |
| `NodeKeys.VisitKeyCollides` | crates/pelago-query/src/traversal.rs:369-373 | a colon in an id lets two nodes share a key |
| `NodeKeys.EdgeKeyInjective` | crates/pelago-api/src/edge_service.rs:397-416 | a merge key determines its edge, up to its properties, when its fields contain no bar |
| `HopEdges.SeesAllIff` | crates/pelago-query/src/traversal.rs:546-644 | for every direction and any labels, with merge keys that tell the node's edges apart, a hop considers exactly the stored edges of its direction and labels if and only if every allowed edge past the limit of one listing comes within the limit of one the hop reads |
| `HopEdges.OneWaySeesAllIff` | crates/pelago-query/src/traversal.rs:546-644 | in one direction that means no allowed edge lies past the limit |
| `HopEdges.LimitMisses` | crates/pelago-query/src/traversal.rs:546-644 | an outbound hop without labels misses an edge of every node with more than 1000 outgoing ones |
| `HopEdges.HopEdgesExact` | crates/pelago-query/src/traversal.rs:546-644 | in particular the hop is exact with at most 1000 edges per listing |
| `TraversalLevels.AdmitMeets` | crates/pelago-query/src/traversal.rs:425-445 | admission adds each fresh accepted target of the pending edges once, by one valid hop |
| `TraversalLevels.LevelMeets` | crates/pelago-query/src/traversal.rs:294-446 | expanding a whole level reaches exactly the nodes reachable by the next hop that were not seen before, each once |
| `TraversalLevels.LevelHolds` | crates/pelago-query/src/traversal.rs:294-446 | at every level the queued end nodes, the visited set and the paths are those of the reference levels |
| `TraversalLevels.UntruncatedRun` | crates/pelago-query/src/traversal.rs:294-446 | whenever an untruncated run ends without an error, compiling filters or not, its end nodes are exactly level min(hops, max depth), each once, and every path has that many valid hops and no repeated node |
| `TraversalLevels.CompiledRun` | crates/pelago-query/src/traversal.rs:322-380 | if every filter compiles, no run ends in an error |
| `TraversalLevels.UntruncatedPage` | crates/pelago-query/src/traversal.rs:294-476 | so are those of any page that returns no token |
| `StoredLevels.UntruncatedRunStored` | crates/pelago-query/src/traversal.rs:294-644 | where the listing limit cuts nothing off, that level is the one reached by targets of outgoing and sources of incoming edges stored in the graph, by direction |
| `StoredLevels.NeighbourIff` | crates/pelago-query/src/traversal.rs:350-368 | the neighbours of a node, read from its two stored edge lists, are exactly where the hop moves |
| `TraversalPaths.PageTrodden` | crates/pelago-query/src/traversal.rs:294-446 | whatever the cap, limits and later errors, a page returns and leaves over only paths whose every hop follows a considered edge to an accepted, stored node |
| `TraversalPaths.EveryPathWalks` | crates/pelago-query/src/traversal.rs:230-491 | every path any call of a chain returns starts at the start node, and each hop's edge is stored, allowed and joins the two nodes in the hop's direction |
| `TraversalPaths.FrontierEnds` | crates/pelago-query/src/traversal.rs:448-476 | the frontier handed out names the last nodes of the token's paths, in order |
| `TraversalPaths.FaultsIff` | crates/pelago-query/src/traversal.rs:322-445 | an expansion fails exactly if a filter that does not compile meets a considered edge, or a stored node not visited yet |
| `TraversalPaths.BadFilterFails` | crates/pelago-query/src/traversal.rs:322-445 | a first hop whose edge filter does not compile fails a call exactly if the start node has an edge to consider |
| `Cdc.Next` | crates/pelago-storage/src/cdc.rs:57-69 | the in-place carry loop computes the big-endian increment |
| `Cdc.NextIsSuccessor` | crates/pelago-storage/src/cdc.rs:57-69 | it is the immediate lexicographic successor of every versionstamp except all-0xFF, which wraps to zero |
| `Cdc.ReadRange` | crates/pelago-storage/src/cdc.rs:316-350 | the read range holds exactly the stamps from the successor of the cursor on whose first byte is below 0xFF |
| `Cdc.VisibleAfter` | crates/pelago-storage/src/cdc.rs:316-350 | reading after a record of the log resumes right behind it |
| `Cdc.CollectCdcEntries` | crates/pelago-api/src/replication_service.rs:30-75 | the paged loop terminates with the site's records after the cursor, cut at the limit; a limit of zero collects all |
| `Cdc.CollectMeans` | crates/pelago-api/src/replication_service.rs:30-75 | that is the first `limit` records from the site strictly after the cursor |
| `Cdc.MaxCursorRereads` | crates/pelago-storage/src/cdc.rs:57-69 | an all-0xFF cursor reads the whole log again |
| `Consumer.CdcConsumer.constructor` | crates/pelago-storage/src/consumer.rs:77-96 | a consumer starts from its saved mark, or from zero: the crash step of the state machine |
| `Consumer.CdcConsumer.PollBatch` | crates/pelago-storage/src/consumer.rs:121-139 | a poll returns the next records above the in-memory mark and changes nothing |
| `Consumer.CdcConsumer.AckThrough` | crates/pelago-storage/src/consumer.rs:142-152 | acknowledging moves the mark forward only, and saves it when the checkpoint is due and the write succeeds: the acknowledgement step of the state machine |
| `Consumer.CdcConsumer.AckBatch` | crates/pelago-storage/src/consumer.rs:155-163 | acknowledging a batch acknowledges its last record |
| `Consumer.CdcConsumer.SaveHwm` | crates/pelago-storage/src/consumer.rs:98-105 | saving stores the in-memory mark: the checkpoint step of the state machine |
| `Consumer.StepKeepsInv` | crates/pelago-storage/src/consumer.rs:77-168 | every step keeps saved mark ≤ in-memory mark ≤ acknowledged, and no step but a crash moves the mark back |
| `Consumer.RunKeepsInv` | crates/pelago-storage/src/consumer.rs:77-168 | so does every run of appends, acknowledgements, checkpoints and crashes |
| `Consumer.UnackedIsDelivered` | crates/pelago-storage/src/consumer.rs:77-168 | in every reachable state an entry above everything acknowledged is returned by some later poll |
| `Consumer.SavedIsNotRepeated` | crates/pelago-storage/src/consumer.rs:77-168 | in every run, what was acknowledged when a checkpoint was written is never returned again, whatever crashes follow |
| `Consumer.AckedIsNotRepeated` | crates/pelago-storage/src/consumer.rs:77-168 | without a crash in between nothing acknowledged is returned again, checkpoint or not |
| `Consumer.ZeroBatchesStall` | crates/pelago-storage/src/consumer.rs:121-139 | any number of polls of size zero delivers nothing and leaves the mark where it was |
| `Replication.StepKeepsInv` | crates/pelago-server/src/replicator.rs:233-539 | every step of every worker keeps the invariant: cursors and positions stand behind handled records only, streams have no gap, and foreign-tagged records have an origin |
| `Replication.SaveKeeps` | crates/pelago-server/src/replicator.rs:519-533 | writing a position keeps it, even when another worker's older write moves it backwards |
| `Replication.MirrorKeeps` | crates/pelago-server/src/replicator.rs:493-517 | appending a mirror keeps it, and fails safely |
| `Replication.HandleKeeps` | crates/pelago-server/src/replicator.rs:373-491 | handling a stream event keeps it, garbled and foreign events included |
| `ReplicationRuns.CursorNeverSkips` | crates/pelago-server/src/replicator.rs:250-533 | across crashes, failed writes and alternating leases, every well-formed record of the peer at or below a worker's cursor was handed to apply |
| `ReplicationRuns.PositionNeverSkips` | crates/pelago-server/src/replicator.rs:743-756 | the same for the persisted position, so no restart skips a record |
| `ReplicationRuns.MirrorsHaveOrigins` | crates/pelago-server/src/replicator.rs:413-515 | every foreign-tagged record mirrors one that site wrote itself, with its timestamp and a subsequence of its operations (exactly which, `ReplicationMirrors.CompletedMirrors` says) |
| `ReplicationMirrors.KeptAccepts` | crates/pelago-server/src/replicator.rs:449-491 | with one verdict per operation, the mirror holds exactly the accepted ones, each behind as many as were accepted before it |
| `ReplicationMirrors.AcceptsUnique` | crates/pelago-server/src/replicator.rs:449-491 | that determines the mirrored operations |
| `ReplicationMirrors.AllAccepted` | crates/pelago-server/src/replicator.rs:449-491 | if all are accepted, the mirror holds all operations of the record |
| `ReplicationMirrors.CompletedMirrors` | crates/pelago-server/src/replicator.rs:449-517 | whatever others do in between, an event taken up and mirrored appends one record with the peer's timestamp and batch id and exactly the accepted operations, none only if none was accepted or the append fails, and moves the cursor to the peer's record |
| `ReplicationMirrors.EveryMirrorCompletes` | crates/pelago-server/src/replicator.rs:373-517 | in every run each mirror step completes an event the worker took up before, so every mirrored record is such a one |
| `ReplicationMirrors.RestartResumes` | crates/pelago-server/src/replicator.rs:743-756 | a worker that starts and can read its position resumes exactly at the cursor last saved for its site and peer |
| `ReplicationMirrors.FirstStart` | crates/pelago-server/src/replicator.rs:743-756 | before the first save it starts from the beginning |
| `ReplicationRuns.OwnRecordsAreLocal` | crates/pelago-server/src/replicator.rs:338-515 | a site's own records are exactly its local writes in order, so no mirror ever comes back |
| `ReplicationRuns.MirrorsAreNotForwarded` | crates/pelago-api/src/replication_service.rs:45-74 | everything handed to apply from a peer is the peer's own record |
| `ReplicationRuns.SelfPeerEchoes` | crates/pelago-operator/src/webhook.rs:150-160 | a site peering with itself would take each of its mirrors for a new record of its own |
| `ReplicationRuns.QuietRunShrinks` | crates/pelago-server/src/replicator.rs:338-517 | once local writes stop, in any interleaving in which the worker itself is not restarted, each event it completes shrinks its count of unpulled records |
| `ReplicationRounds.RoundCompletes` | crates/pelago-server/src/replicator.rs:338-517 | a worker whose pull arrives intact, that reads its stream to the end and comes to rest has completed every event it pulled |
| `ReplicationRounds.RoundShrinks` | crates/pelago-server/src/replicator.rs:338-533 | such a round shrinks the count of unpulled records by the batch size or to zero, whatever other workers do |
| `ReplicationRounds.RoundsDrain` | crates/pelago-server/src/replicator.rs:338-533 | as many rounds as there are unpulled records bring the count to zero |
| `ReplicationRounds.RoundExists` | crates/pelago-server/src/replicator.rs:338-533 | from every state of the invariant a running, idle worker with the lease can do a round of any batch size and is then ready for the next |
| `ReplicationRounds.DrainExists` | crates/pelago-server/src/replicator.rs:338-533 | so it can always be brought to have pulled everything |
| `ReplicationRuns.DrainedMeansHandled` | crates/pelago-server/src/replicator.rs:338-517 | with nothing unpulled every record of the peer has reached apply |
| `Watch.Subscription.OnOperation` | crates/pelago-api/src/watch_service.rs:688-996 | the branches of each operation change the tracked set and emit events as specified |
| `Watch.Subscription.Turn` | crates/pelago-api/src/watch_service.rs:619-671 | one turn reads a page of 256 records, reacts to every operation in order and moves to the last stamp |
| `Watch.Subscription.CutTurn` | crates/pelago-api/src/watch_service.rs:619-661 | a turn whose event is refused stops inside a record: its position is that record's and its set that of the operations reacted to |
| `Watch.ReactSettles` | crates/pelago-api/src/watch_service.rs:701-852 | an operation touches its own node's key only, and leaves that key right unless it was tracked without matching |
| `Watch.FoldKeepsBetween` | crates/pelago-api/src/watch_service.rs:701-852 | over any true log the tracked set lies between the query's answer and that answer plus keys tracked from the start |
| `Watch.ViewIsExact` | crates/pelago-api/src/watch_service.rs:701-852 | from the empty state the tracked set always equals the live nodes satisfying the query |
| `Watch.SnapshotThenReplay` | crates/pelago-api/src/watch_service.rs:570-586 | an initial snapshot followed by the whole log from its beginning also ends exact |
| `Watch.ViewStaysSubset` | crates/pelago-api/src/watch_service.rs:701-852 | from any subset of the true matches the tracked set stays a subset |
| `Watch.ClientTracks` | crates/pelago-api/src/watch_service.rs:701-852 | a client replaying Enter, Update, Exit and Delete holds exactly the tracked set |
| `WatchEvents.EventsTellChange` | crates/pelago-api/src/watch_service.rs:688-996 | on an exact view a node operation emits exactly the event for the change it makes to the answer, with the new or changed properties, and an edge operation exactly one event with its own ends and type, Update for a create and Delete for a delete, if and only if an endpoint is in the answer |
| `WatchEvents.QueryEvents` | crates/pelago-api/src/watch_service.rs:619-996 | over a whole log a query watch that starts exact stays exact and emits exactly these events, in order |
| `WatchEvents.PointEvents` | crates/pelago-api/src/watch_service.rs:688-996 | a point watch announces an operation by its one event exactly if a watched node or property, or a watched edge in its direction, is concerned |
| `WatchEvents.NamespaceEvents` | crates/pelago-api/src/watch_service.rs:688-996 | a namespace watch announces every operation by its one event |
| `WatchEvents.UntrackedEvents` | crates/pelago-api/src/watch_service.rs:619-996 | over a whole log both emit exactly the announcements they want, in order |
| `WatchEvents.TypedEvents` | crates/pelago-api/src/watch_service.rs:688-996 | a query watch speaks of nodes of its types only, whatever it tracks |
| `WatchEvents.TypedAnswers` | crates/pelago-api/src/watch_service.rs:688-996 | a node of the query's types is in the answer exactly if it is live and accepted |
| `WatchRuns.RunExact` | crates/pelago-api/src/watch_service.rs:587-671 | over any growing log, from any exact state, every turn leaves loop and client exact at their position, a page further per turn while the log stands still |
| `WatchRuns.NewWatch` | crates/pelago-api/src/watch_service.rs:553-556 | a new watch from the zero stamp, tracking nothing, is exact |
| `WatchResume.StepRight` | crates/pelago-api/src/watch_service.rs:701-852 | a key is right after an operation exactly if it was before, or the operation is a matching create or an update or delete in scope of that node |
| `WatchResume.FoldRight` | crates/pelago-api/src/watch_service.rs:701-852 | the same over any operations, for any tracked set |
| `WatchResume.ResumedExactIff` | crates/pelago-api/src/watch_service.rs:553-671 | resumed at any position with any tracked set, over any growing log, the set is the query's answer if and only if the operations since settle every key on which it differed |
| `WatchResume.RestoredExactIff` | crates/pelago-api/src/watch_service.rs:558-568 | a set saved at one position and resumed at another is restored exactly if the first is not later, and right exactly when every key whose answer changed in between is settled |
| `WatchResume.RestoredSetIsStale` | crates/pelago-api/src/watch_service.rs:558-568 | saved between a create and a delete and resumed behind them, the node is still tracked |
| `WatchResume.CutTurnSaves` | crates/pelago-api/src/watch_service.rs:639-661 | what a turn cut off inside a record saves |
| `WatchResume.CutStateIs` | crates/pelago-api/src/watch_service.rs:639-661 | the saved set is the query's answer after the operations reacted to |
| `WatchResume.CutExactIff` | crates/pelago-api/src/watch_service.rs:553-661 | resumed at its saved position such a watch is right exactly when every key the rest of the record changed is settled |
| `WatchResume.CutExactThere` | crates/pelago-api/src/watch_service.rs:553-661 | right after resuming, exactly when the rest of the record does not change the answer |
| `WatchResume.CutRecordIsLost` | crates/pelago-api/src/watch_service.rs:639-661 | cut after the first of two creates in one record, the second is not tracked |
| `EdgeKeys.TypeScan` | crates/pelago-storage/src/subspace.rs:128-138 | the scan for a type reads a row filed under a type exactly when the types agree and the key does not continue with 0xFF |
| `EdgeKeys.EdgeScans` | crates/pelago-storage/src/edge.rs:1248-1320 | the forward and meta scans of a type read exactly the keys of edges out of it, the reverse scan those of edges into it |
| `EdgeKeys.KindsApart` | crates/pelago-storage/src/edge.rs:1248-1320 | forward, meta and reverse keys never coincide and no kind's scan reads another's |
| `EdgeKeys.ReverseKeyInjective` | crates/pelago-storage/src/edge.rs:1302-1313 | a reverse key determines its edge up to the sort key |
| `EdgeKeys.ForwardKeyInjective` | crates/pelago-storage/src/edge.rs:1264-1300 | for sort keys of one width that do not start with 0xFF, forward and meta keys each determine their edge |
| `EdgeKeys.PatchedMetaIsForward` | crates/pelago-api/src/admin_service.rs:961-973 | patching the marker byte of a meta key gives its edge's forward key |
| `TypeDrop.ClearPrefix` | crates/pelago-api/src/admin_service.rs:732-758 | the batch loop removes only keys of its scan and, if no batch fails, all of them |
| `TypeDrop.ClearReverseOfSource` | crates/pelago-api/src/admin_service.rs:760-847 | the paged pass removes only reverse keys of labelled edges out of the type and, if it completes, those of all edges with a meta row |
| `TypeDrop.ClearForwardMetaOfTarget` | crates/pelago-api/src/admin_service.rs:849-959 | the paged pass removes doomed edge keys only, an edge's three keys in one commit, and completes with no meta row of a labelled edge into the type left |
| `TypeDrop.SwappedIsDoomed` | crates/pelago-api/src/admin_service.rs:919-931 | the extra reverse key cleared for bidirectional edges belongs, if stored, to an edge out of the type |
| `TypeDrop.DropEntityType` | crates/pelago-api/src/admin_service.rs:329-374 | from any partial state an attempt leaves a partial state whichever reads and commits fail, and if none does exactly the doomed keys are gone |
| `TypeDropResults.DropUntilDone` | crates/pelago-api/src/admin_service.rs:329-374 | after any number of broken-off attempts, one that succeeds leaves exactly the rows an uninterrupted drop leaves |
| `TypeDropResults.EdgeFate` | crates/pelago-api/src/admin_service.rs:329-374 | which keys of an edge are doomed, by its types and whether it has a label |
| `TypeDropResults.AgreementIffLabelled` | crates/pelago-api/src/admin_service.rs:793-810 | forward, meta and reverse keys agree afterwards exactly when every edge between the type and another has a label |
| `TypeDropResults.UnmentionedIff` | crates/pelago-api/src/admin_service.rs:329-374 | no remaining schema, data, index or edge row mentions the type exactly when also no row filed under it continues with 0xFF |
| `TypeDropResults.OthersSurvive` | crates/pelago-api/src/admin_service.rs:329-374 | every row that does not mention the type survives, rows of site 255 included if the type's name has no zero byte |
| `EdgePaging.OffsetRoundTrip` | crates/pelago-api/src/edge_service.rs:476-496 | offset cursors decode to the offset they encode |
| `EdgePaging.ListEdges` | crates/pelago-api/src/edge_service.rs:265-271 | a page built from lists truncated to offset + page + 1 is the same slice of the whole listing, with the same cursor, for every direction; a cursor of another length is refused |
| `EdgePaging.FetchEdges` | crates/pelago-api/src/edge_service.rs:393-434 | merging truncated lists with a `seen` set gets the first edges of the fully merged list right |
| `Merging.MergePrefix` | crates/pelago-api/src/edge_service.rs:397-420 | for lists without repeated keys, merging the first n of each agrees with the full merge on its first n |
| `EdgePaging.FollowIsAll` | crates/pelago-api/src/edge_service.rs:436-470 | following cursors cuts the whole listing into consecutive pages |
| `EdgePaging.PagerCuts` | crates/pelago-api/src/edge_service.rs:436-470 | each page's cursor leads to the page right behind it, and the last page has none |
| `EdgePaging.EachEdgeOnce` | crates/pelago-api/src/edge_service.rs:397-470 | a client that follows such cursors gets one edge for each key of either direction and nothing else |
| `EdgePaging.ServedOnce` | crates/pelago-api/src/edge_service.rs:393-496 | so does one that follows the encoded cursors the service hands out |
| `EdgePaging.OneWayListing` | crates/pelago-api/src/edge_service.rs:393-496 | followed from no cursor to the end, a listing in one direction is exactly the node's edges in that direction, in order |
| `SqlLexer.Tokenize` | crates/pelago-cli/src/schema_input.rs:916-1016 | the character loops compute the tokens, skipping spaces and both kinds of comment, and fail exactly on an unclosed quote |
| `SqlText.CharsRead` | crates/pelago-cli/src/schema_input.rs:953-988 | a quoted string in either quote, with any characters escaped, is read as its characters |
| `SqlText.TextRead` | crates/pelago-cli/src/schema_input.rs:916-1016 | a text of words, symbols, quoted strings, spaces and both kinds of comment gives exactly its tokens |
| `SqlText.TokensIff` | crates/pelago-cli/src/schema_input.rs:916-1016 | and only such a text gives them |
| `SqlParser.Parser.ParseProperty` | crates/pelago-cli/src/schema_input.rs:687-741 | the modifier loop reads one property as the grammar says and stops where it says |
| `SqlParser.Parser.ParsePropertyList` | crates/pelago-cli/src/schema_input.rs:667-685 | the list loop terminates, because every property advances the position, with the grammar's map |
| `SqlParser.Parser.ParseWithClause` | crates/pelago-cli/src/schema_input.rs:560-598 | the option loop terminates with the grammar's options |
| `SqlParser.Parser.ParseEdgeClause` | crates/pelago-cli/src/schema_input.rs:600-665 | the part loop terminates with the grammar's edge |
| `SqlParser.Parser.ParseSchema` | crates/pelago-cli/src/schema_input.rs:515-558 | the clause loop terminates with the grammar's schema |
| `SqlParser.Parser.ConsumeSemicolons` | crates/pelago-cli/src/schema_input.rs:802-804 | all semicolons at the position are consumed and nothing else |
| `SqlParser.Parser.MatchCompoundKeyword` | crates/pelago-cli/src/schema_input.rs:806-814 | two keywords are consumed together or not at all |
| `SqlParser.ParseSchemaSql` | crates/pelago-cli/src/schema_input.rs:491-503 | the whole parser accepts exactly the grammar, with nothing behind the definition |
| `Numbers.DecimalRead` | crates/pelago-cli/src/schema_input.rs:771-775 | every 64-bit integer is read back from its decimal form |
| `Numbers.ParseI64Iff` | crates/pelago-cli/src/schema_input.rs:771-775 | a text is read as a 64-bit number exactly if it is its decimal form with a sign or zeros in front |
| `SqlDefinitions.ValueRead` | crates/pelago-cli/src/schema_input.rs:743-786 | every default except floats is read back from its token |
| `SqlSyntax.LiteralIff` | crates/pelago-cli/src/schema_input.rs:743-786 | exactly how a default of each kind is written: quoted, as a word in any case, as a number, or bare |
| `SqlSyntax.TypeIff` | crates/pelago-cli/src/schema_input.rs:227-254 | a text names a property type exactly if it is one of its words, in any letter case, with hyphens or spaces for underscores and spaces around it |
| `SqlSyntax.IndexIff` | crates/pelago-cli/src/schema_input.rs:256-281 | the same for the words of index types |
| `SqlSyntax.ExtrasIff` | crates/pelago-cli/src/schema_input.rs:283-308 | the same for the words of extras policies |
| `SqlSyntax.DirectionIff` | crates/pelago-cli/src/schema_input.rs:310-337 | the same for the words of edge directions |
| `SqlSyntax.OwnershipIff` | crates/pelago-cli/src/schema_input.rs:339-362 | the same for the words of ownership modes |
| `SqlReading.ReadProperty` | crates/pelago-cli/src/schema_input.rs:687-741 | a property in any spelling, its modifiers in any order, is read as what it means, in front of a comma or parenthesis |
| `SqlReading.ReadList` | crates/pelago-cli/src/schema_input.rs:667-685 | a property list, with a comma behind the last or not, is read as the map it lists, later entries winning |
| `SqlReading.ReadWith` | crates/pelago-cli/src/schema_input.rs:560-598 | options in any spelling and order are read as what they set |
| `SqlReading.ReadEdge` | crates/pelago-cli/src/schema_input.rs:600-665 | an edge in any spelling, its parts in any order, is read as what it means, up to the next clause |
| `SqlReading.ReadSchema` | crates/pelago-cli/src/schema_input.rs:491-894 | every well-spelled definition is read as the schema it stands for |
| `SqlAccepted.SchemaSpelled` | crates/pelago-cli/src/schema_input.rs:491-894 | whatever is accepted is a well-spelled definition, and means what was read |
| `SqlAccepted.AcceptedIff` | crates/pelago-cli/src/schema_input.rs:491-894 | tokens are read as a schema exactly if they spell a definition of it |
| `SqlDefinitions.TargetReadIff` | crates/pelago-cli/src/schema_input.rs:214-225 | a specific target is read back exactly when it is trimmed, not `*` and not `polymorphic` in any case |
| `SqlDefinitions.RoundTrip` | crates/pelago-cli/src/schema_input.rs:491-1016 | however it is spelled, spaced, quoted and commented, the text of a definition is read as its schema |
| `SqlDefinitions.ParsedIff` | crates/pelago-cli/src/schema_input.rs:491-1016 | a text is read as a schema exactly if it is the text of a definition of it; every other text is refused |
| `SqlDefinitions.EverySchemaHasText` | crates/pelago-cli/src/schema_input.rs:491-894 | every schema without float defaults and with nameable targets has a text that is read as it |

## Left out

- FoundationDB transactions beyond "a commit clears all its keys or fails", conflict ranges, gRPC, TLS, the operator and the servers.
- CBOR: tokens, log entries and edge metadata are datatypes, so a value that fails to decode is modelled only where the code handles it.
- CEL and the PQL compiler: the filters of traversals and watches are uninterpreted predicates that may fail to compile; of planned filters only connectives, negated and plain groups, quotes and brackets are read, everything else being an atom that is true or false of a node; a query's predicate does not change while a watch runs, although a schema change can alter it.
- Of CEL, filters with a conditional operator are one atom; raw and triple-quoted strings and comments are not read; a filter that does not compile and an atom whose evaluation fails, which makes the whole filter false, are not modelled.
- An index used for a term inside parentheses that are not negated, or for a parenthesised or negated term, is covered by `PlanTruth.FaithfulIffSameTable` only.
- Clocks: the traversal timeout, lease expiry, heartbeats and subscription lifetimes.
- The replication loop is a state machine of its steps; ownership and last-writer-wins decisions are arbitrary verdicts per operation, and counters and back-off are not modelled.
- Lease mutual exclusion: any worker may hold the lease at any time, and the results hold regardless.
- The drop counter of watches: events that are dropped without ending the subscription are not modelled, and the cut may come at any event; registry limits are not modelled.
- Cached edge reads and the comparator that sorts them, and the cache fallbacks of `list_edges`.
- Bidirectional and cross-namespace edges in the type drop; rows of the locality subspace, which name a type and are never cleared, count as rows elsewhere; the asynchronous job and the size estimate that selects it.
- Postings of site 255, whose id starts with 0xFF.
- Entries of different types whose encodings coincide in one index.
- `IndexPredicate::In`, point lookups, full scans, projections and streaming variants.
- The grammar of number literals in comparisons and of floats in schema defaults is a parameter; JSON schema input and error texts are not modelled.
- 32-bit and word-size casts other than those of cursors, versionstamps and posting limits; UTF-8 validity, strings being sequences of characters or bytes.
- Encoding.ExtractTupleString: bytes that are not valid UTF-8 are returned as they are.
- SqlDefinitions.ValueRead: float defaults are excluded, because printing and reading floats is not modelled.
- StoredLevels.UntruncatedRunStored: for hops in both directions, outgoing edges are listed at their source and incoming ones at their target, as the edge store files them; hops in one direction need nothing of the kind.
- EdgePaging.ListEdges: the lists are those of the edge store, duplicate-free in the merge key; two edges whose fields contain `|` may share that key.
- ReplicationRounds.RoundsDrain: speaks of rounds that end with the worker idle and its stream read to the end, which crashes, garbled events or a broken stream can prevent.
- PlanScan.AnswersExactlyIff: the filter's comparison of floats is that of the index; `IndexScan.FloatEqualityAgrees` and `IndexScan.FloatLessAgrees` say where IEEE comparison differs.
- TypeDropResults.OthersSurvive: rows of site 255 of other types are excluded when the name of the dropped type contains a zero byte.
