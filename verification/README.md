# GoForge in Dafny

A verified model of the parts of GoForge whose correctness is not visible in any one function:
the durable job queue, the recurring scheduler, the query builder and relation loader, the Forge
view compiler, and six smaller protocols (reference cycles, cron normalization, sessions, the
migration ledger, the event emitter, the development line writer).

`dafny verify dfyconfig.toml` checks the whole project. Nothing here is meant to be executed.

## What is modelled and how

- **Job queue** (`QueueTables`, `QueueRuns`, `QueueFences`, `QueueRestores`, `QueueDispatch`,
  `QueueWorkers`, `QueueOutcomes`, `JobStore`). Each SQL
  statement is one atomic function on the two tables at a reading of the database clock; rows other
  transactions hold are an explicit set that `SKIP LOCKED` leaves out. A run is any interleaving of
  statements under a clock that does not go back. `QueueWorkers` restricts runs to what workers do,
  each with the handlers registered in its own process; `QueueOutcomes` says where a handler's
  result leaves its job, and `QueueDispatch` what a dispatched job is and when it is taken.
  `JobStore` is the store as an object, proved against the same functions.
- **Scheduler** (`Occurrences`, `Scheduler`). Times are integers, the cron library is "the least
  occurrence after" of an arbitrary set of whole minutes, and clock readings are arbitrary, also
  backward. The dispatch callback keeps a log of its calls and answers as it likes. A history is any
  sequence of evaluations of one durable row, each with the calls it made.
- **Cron fields** (`CronText`, `CronFields`). Normalization at the level of text, with 64-bit
  wrap-around in the expanding loop. The narrower parser is modelled by what it reads.
- **Query builder** (`LikePattern`, `Decimals`, `SqlText`, `SqlExpr`, `Predicates`,
  `PredicateMeaning`, `WhereClause`). The WHERE text is lexed and parsed again, with NOT over AND
  over OR, and evaluated in three-valued logic.
- **Relations** (`Relations`). Loaders as loops over batches, compared with one lookup per parent.
- **View compiler** (`Filters`, `Yields`, `Layouts`, `SharedBranches`, `SharedDocuments`,
  `SharedReach`, `Runes`, `SourceMap`, `ViewScan`, `ViewNodes`, `ViewUnique`, `ViewBodies`,
  `ViewParser`, `ViewOrganize`, `ViewResolve`, `ViewRewrite`, `ViewCompile`, `ViewCompiler`,
  `ViewLookups`, `ViewDepths`, `ViewEndings`, `ViewCycles`, `ViewBrackets`, `ViewNesting`,
  `ViewSample`, `ViewDocument`, `ViewSite`, `ViewTexts`, `ViewFillings`, `ViewNumbers`). From the bytes of the files to the
  generated text with its map: the recursive parser with its scanners and stop words, documents with
  their sections and layouts, section expansion with its shared table of sections under way, what
  one view leaves behind in the documents for the next, renaming of variables, and the recursive
  compiler with components, slots and stacks. Each piece of generated code carries what it is for, and
  a reader of these pieces gives the nesting of the page back. Which arguments and actions a directive accepts, and
  the texts of generated code, are arbitrary functions.
- **Reference check** (`ReferenceCycles`), **sessions** (`Sessions`, `SessionRuns`,
  `SessionSaves`, `SessionManager`), **migration ledger** (`MigrationLedger`), **event emitter**
  (`EventEmitter`), **line writer** (`LineWriter`).

Where a promise does not hold of the code as it stands, the code is kept and the exact limit is
proved:

- a lease lost before a failed job was restored is honoured again exactly when the job was restored
  and the same worker then made, as that life's claim of the same number, a claim that has not
  ended (`QueueRestores.HonouredAgainIff`), which does happen
  (`QueueRestores.OldLeaseHonouredAgain`);
- giving a lease back by hand strands the job exactly on its final attempt
  (`QueueFences.GivingBackStrandsIff`, `QueueRestores.HandingBackStrands`);
- a normalized cron field keeps its values, is plain, and stays as it is when normalized again,
  exactly when no weekday expansion overflows (`CronFields.MeansTheSameIff`,
  `CronFields.NormalizedIsPlain`, `CronFields.NormalizingIsIdempotent`);
- a source-map lookup gives the line and column exactly when the offset does not cut a rune
  (`SourceMap.LookupInverts`, `SourceMap.InsideALetter`);
- views compiled after each other over one layout are compiled as if alone exactly when no @elseif
  branch of the layout has a yield that the first view replaced or dropped
  (`SharedDocuments.LaterViewsAreFreshIff`, `SharedDocuments.SecondViewGetsTheFirst`);
- compiling a page comes to an end with a result exactly when nothing it reaches is an error and no
  directive it reaches leads back to itself, which only stacks can (`ViewCycles.PageCompilesIff`,
  `ViewCycles.BackNeedsStack`, `ViewCycles.RoundNeverEnds`);
- a session's issuance time is fixed unless an entry without one meets a policy without an
  absolute lifetime (`SessionRuns.IssuedOnce`, `SessionRuns.UndatedChanges`).

## Model

| member | source | states |
|---|---|---|
| `QueueRuns.EveryRun` | job/postgres/store.go:138-202 | after every run: lease generation, attempts and the number of claims since insertion or restore agree and stay within the maximum; every accepted id is in exactly one of queued, failed, acknowledged, forgotten; a leased row is available exactly when its lease ends; one queued row per dedup key |
| `QueueRuns.StepKeepsInv` | job/postgres/store.go:86-366 | every statement keeps that invariant, in any interleaving |
| `QueueRuns.StepKeepsUniqueKeys` | job/postgres/schema.go:39-41 | no statement puts two queued rows under one queue, name and dedup key |
| `QueueRuns.RestoreBlockedIff` | job/postgres/admin.go:120-142 | restoring changes nothing exactly when another queued job holds the key |
| `QueueRuns.InsertsNeverCollide` | job/postgres/store.go:308-366 | with fresh ids no statement violates a primary key: the blocked restore is the only refusal |
| `QueueFences.SpentIffRefused` | job/postgres/store.go:244-299 | among the leases of the present life, lost means refused and nothing else |
| `QueueFences.LostLeaseChangesNothing` | job/postgres/store.go:244-333 | once a lease is lost, every statement that carries it changes nothing after any further run of the same life |
| `QueueFences.LiveRowIsHeld` | job/postgres/store.go:175-202 | no statement but its holder's touches a row with a live lease: not a claim, not a sweep |
| `QueueFences.LiveLeaseSurvives` | job/postgres/store.go:340-366 | over every run that ends before the lease, with a silent holder, the row stays exactly as it is |
| `QueueRestores.HonouredAgainIff` | job/postgres/admin.go:120-143 | for every run after a lease is lost, the lease is honoured exactly when the run restored the job, the same worker then claimed it as the token's generation of that life, and nothing since gave that lease up or let it expire |
| `QueueRestores.OldLeaseHonouredAgain` | job/postgres/admin.go:125-134 | and that does happen: a run from empty tables loses a lease, restores the job, and has the lost lease honoured |
| `QueueRestores.HandingBackStrands` | job/postgres/store.go:271-299 | a run from empty tables that gives back a final attempt and so strands the job |
| `QueueFences.StrandedIffNeverPicked` | job/postgres/store.go:183-347 | a row is out of reach of every claim and sweep at all times exactly when it has no lease and no attempt left |
| `QueueFences.GivingBackStrandsIff` | job/postgres/store.go:271-299 | an accepted release or retry strands its job exactly on the final attempt |
| `QueueFences.StrandedForever` | job/postgres/store.go:175-366 | no run ever moves a stranded row |
| `QueueWorkers.RetryDelayMs` | job/worker.go:451-463 | the delay is the attempt's entry of the backoff list, the first for attempts below one and the last beyond the list; an empty list stands for the default one |
| `QueueWorkers.WorkersNeverGiveBackTheLastAttempt` | job/worker.go:370-417 | a worker's call uses its own lease, is never a release and never a retry of the final attempt, because claimed names always have their handler |
| `QueueWorkers.FleetRunKeepsInv` | job/worker.go:151-259 | every run of any number of workers, each with its own handlers, keeps: no stranded job, and each delivery's attempt is its generation |
| `QueueWorkers.NoJobIsStranded` | job/worker.go:261-417 | in every worker-driven run a queued job whose time has come can be taken by exactly one of claim and sweep |
| `QueueOutcomes.FinishEnds` | job/worker.go:370-435 | in every run of workers: the end of a delivery under a live lease takes the job off the queue for a result, queues it again not before the backoff of its attempt or the delay the error asks for, or moves it to the failures with the error's kind when the error is permanent or the attempt was the last; all other rows stay, and a lost lease changes nothing |
| `QueueOutcomes.AcknowledgedIff` | job/worker.go:261-417 | after every run of workers a job is acknowledged exactly when it was before, or some delivery of it returned without an error under a lease that was live then |
| `QueueOutcomes.PollDelivers` | job/postgres/store.go:158-241 | a poll hands out one delivery for each row it takes, and no other: of the row as it stands, under a lease that is live for the time asked for |
| `QueueDispatch.RowsAreAsDispatched` | job/postgres/store.go:86-155 | after every run each queued and each failed job holds what a dispatch under its id asked for: queue, name, payload, priority, limits, key, and durations in whole milliseconds |
| `QueueDispatch.DispatchDeduplicates` | job/postgres/store.go:138-155 | a dispatch is answered with a queued job: a new one exactly when no queued job of that queue and name holds the key, otherwise the one that does, with nothing changed; it is the only holder afterwards |
| `QueueDispatch.DispatchAgain` | job/postgres/store.go:138-155 | dispatching the same request again while its job is queued changes nothing and is answered as the first time |
| `QueueDispatch.DispatchedWaits` | job/postgres/store.go:120-137 | a new job is queued without a lease or an attempt, beside all others as they were, and over every run is not claimed before the time it asks for or the end of its delay |
| `QueueDispatch.RetriedWaits` | job/postgres/store.go:271-285 | over every run a retried job is not claimed before its delay has passed |
| `QueueDispatch.AtOnce` | job/postgres/store.go:288-300 | a released and a restored job are due at once, the restored one with all its attempts |
| `QueueDispatch.ClaimTakesTheFirst` | job/postgres/store.go:175-187 | a claim takes due jobs it asks for, by priority, then time, then id, none twice; one it passes over is locked, or comes after all it takes and the claim is full |
| `QueueDispatch.ClaimLeases` | job/postgres/store.go:188-202 | what is claimed is leased to the worker for the time asked for, with one attempt and one generation more; nothing else changes |
| `QueueDispatch.HeartbeatExtends` | job/postgres/store.go:244-257 | a heartbeat under a live lease moves its end and nothing else |
| `QueueDispatch.SweepTakesTheOldest` | job/postgres/store.go:336-347 | a sweep takes jobs whose last lease has run out, the oldest first, in the same way |
| `QueueDispatch.SweptToFailures` | job/postgres/store.go:348-366 | what is swept moves to the failures as it stands, under the kind for exhausted leases, and nothing else changes |
| `JobStore.PickBatch` | job/postgres/store.go:175-187 | the batch is the first `limit` candidates in the statement's order, no more and none skipped |
| `JobStore.ScanDeliveries` | job/postgres/store.go:203-240 | the scan succeeds exactly when every row is valid, and gives each row's delivery |
| `JobStore.Store.Enqueue` | job/postgres/store.go:86-155 | the insert, the duplicate answered with its holder, and the conflict |
| `JobStore.Store.Claim` | job/postgres/store.go:158-241 | leases one ordered batch of unlocked due rows and never fails to scan what it wrote |
| `JobStore.Store.Heartbeat` | job/postgres/store.go:244-257 | extends exactly a live lease of the token's owner and generation |
| `JobStore.Store.Ack` | job/postgres/store.go:260-268 | removes the row exactly under a live lease |
| `JobStore.Store.Retry` | job/postgres/store.go:271-285 | gives the row back, delayed, exactly under a live lease |
| `JobStore.Store.Release` | job/postgres/store.go:288-300 | gives the row back at once, exactly under a live lease |
| `JobStore.Store.Fail` | job/postgres/store.go:303-333 | moves the row to the failures in one step |
| `JobStore.Store.FailExhausted` | job/postgres/store.go:336-387 | moves one ordered batch of expired final attempts and reports each of them as it stands among the failures, or changes and reports nothing on a conflict |
| `JobStore.ScanExhausted` | job/postgres/store.go:372-386 | the scan reports id, queue, name, attempts and kind of every moved row, in order |
| `JobStore.Store.RetryFailed` | job/postgres/admin.go:120-143 | restores with a fresh row, or changes nothing |
| `JobStore.Store.ForgetFailed` | job/postgres/admin.go:146-157 | removes the failure and says whether there was one |
| `JobStore.Registry.Register` | job/registry.go:26-48 | names are only ever added, each once |
| `JobStore.Finish` | job/worker.go:261-435 | a delivery of the row as it stands, with a handler and under a live lease, ends as its result says (acknowledged and gone; queued again with the attempt's delay and the error kind; among the failures with its kind; or left to its lease), every other row stays, and without a live lease nothing changes |
| `JobStore.Complete` | job/worker.go:370-435 | one store call, the one that the result stands for, and none exactly when the handler was abandoned |
| `Occurrences.LatestOccurrence` | schedule/postgres/store.go:284-328 | for every set of whole minutes: the greatest occurrence of the inclusive window, found exactly when there is one, an error only for a reversed window, and at most the number of bits of minutes+1, plus one, calls of next |
| `Occurrences.BitsIsLog` | schedule/postgres/store.go:281-283 | the number of bits is the floor of the binary logarithm plus one |
| `Occurrences.ChunkedNext` | schedule/cron.go:168-191 | the least later occurrence, although every single search ends after five years |
| `Scheduler.NextAfter` | schedule/postgres/store.go:273-279 | the next occurrence or an error exactly when there is none |
| `Scheduler.ScheduleStore.Initialize` | schedule/postgres/store.go:191-221 | the first cursor is an occurrence not before the evaluation |
| `Scheduler.ScheduleStore.Advance` | schedule/postgres/store.go:330-372 | writes the new cursor and the outcome exactly over the cursor and fingerprint that were read, and nothing otherwise |
| `Scheduler.ScheduleStore.Evaluate` | schedule/postgres/store.go:59-135 | one evaluation is a step of the protocol, and its result is what it did: it calls the callback at most once, with the latest occurrence of the window and only then, and reports that occurrence, the job of the answer and whether it was enqueued; the row records the same |
| `Scheduler.ScheduleStore.Materialize` | schedule/postgres/store.go:47-140 | initializes or evaluates; reports contention without a change or a call; undoes the row on every error; and with a healthy callback and expression never fails |
| `Scheduler.FirstCursor` | schedule/postgres/store.go:191-221 | no occurrence lies between the first evaluation and the first cursor |
| `Scheduler.CursorIsOccurrence` | schedule/postgres/store.go:348-371 | in every history the cursor is an occurrence |
| `Scheduler.CursorOnlyGrows` | schedule/postgres/store.go:348-371 | and never moves back, whatever the clocks of the competing schedulers read |
| `Scheduler.DispatchedIncrease` | schedule/postgres/store.go:93-135 | over every history the occurrences the callback was called with by committed evaluations strictly increase, one call each |
| `Scheduler.EveryOccurrenceSettled` | schedule/postgres/store.go:59-135 | every occurrence from the first cursor to the present one was handed to the callback, merged into a later one of its window that was, or older than the grace |
| `Scheduler.SettledOnce` | schedule/postgres/store.go:59-135 | by one evaluation only |
| `CronFields.NormalizeCronField` | schedule/cron.go:84-155 | the loops compute the normalized text, or refuse exactly the fields that cannot be read |
| `CronFields.NormalizeItem` | schedule/cron.go:88-152 | one list item: refused exactly when unreadable, otherwise its rewritten texts |
| `CronFields.ItemIff` | schedule/cron.go:88-131 | an item is read exactly when it is written as a star, a value or a range in order, with a positive step behind one slash or without |
| `CronFields.LowerMeans` | schedule/cron.go:157-166 | names are looked up with small letters for capital ones and nothing else changed |
| `CronFields.ExpandWeekdays` | schedule/cron.go:132-144 | the expanding loop, with wrap-around, ends and lists its weekdays |
| `CronFields.ReadPrinted` | schedule/cron.go:145-152 | every valid item is read back from its printed text |
| `CronFields.NormalizedMeansTheSame` | schedule/cron.go:84-155 | the narrower parser reads from the normalized text the field's values, weekday 7 as 0 |
| `CronFields.OverflowIsRefused` | schedule/cron.go:133-133 | with an overflowing step no cron field at all can read the normalized text, neither the narrower parser's nor the field itself |
| `CronFields.MeansTheSameIff` | schedule/cron.go:84-155 | the values are kept exactly when no expansion overflows |
| `CronFields.OverflowExample` | schedule/cron.go:133-133 | a weekday field that is accepted, and whose normalized text loses its values, is not plain, and changes when normalized again |
| `CronFields.StarsStay` | schedule/cron.go:106-113 | a star item is printed in the normalized text exactly when the field has it |
| `CronFields.NormalizedIsPlain` | schedule/cron.go:132-144 | a normalized weekday field can be read and has no 7 and no open-ended step, exactly when no expansion overflows |
| `CronFields.NormalizingIsIdempotent` | schedule/cron.go:84-155 | normalizing twice is normalizing once, exactly when no expansion overflows |
| `CronText.SplitJoin` | schedule/cron.go:85-154 | splitting what was joined gives the parts back |
| `CronText.JoinSplit` | schedule/cron.go:85-154 | joining what was split gives the text back, and no part holds the separator |
| `CronText.ParseSigned` | schedule/cron.go:157-166 | a number may have a sign |
| `LikePattern.EscapedMatchesLiteral` | orm/predicate.go:93-99 | an escaped literal matches itself, up to folding, and nothing else |
| `LikePattern.ContainsPatternIsContains` | orm/predicate.go:76-99 | the pattern accepts exactly the strings that contain the literal |
| `LikePattern.ContainsPatternIsAccepted` | orm/predicate.go:93-99 | the database never refuses the pattern, whatever the literal holds |
| `Predicates.SqlCompiler.Bind` | orm/predicate.go:127-130 | the value is appended and its placeholder is its position |
| `Predicates.SqlCompiler.Compile` | orm/predicate.go:132-207 | compiles exactly the well-formed trees of the table, to their text and arguments |
| `Predicates.SqlCompiler.CompileTest` | orm/predicate.go:147-177 | the tests that bind values: their text with the next placeholders, refused for missing values |
| `Predicates.OneDescriptor` | orm/predicate.go:132-146 | a tree compiles only when all of it is made from the one table descriptor it is compiled for |
| `PredicateMeaning.TextReads` | orm/predicate.go:132-207 | the text of a tree is lexed back to its tokens, whatever follows |
| `WhereClause.TreeParses` | orm/predicate.go:132-207 | the tokens are grouped as the tree, however it is surrounded |
| `WhereClause.TreeMeans` | orm/predicate.go:132-207 | the parsed expression has the tree's three-valued result on every row |
| `WhereClause.ContainsFoldMeansContains` | orm/predicate.go:147-155 | a ContainsFold predicate holds exactly of strings that contain the literal |
| `WhereClause.ClauseReads` | orm/select.go:271-287 | the whole clause text, numbered from any placeholder on, is read back to the conjunction |
| `WhereClause.ClauseMeansConjunction` | orm/select.go:271-287 | the clause has on every row the conjunction of its predicates, whatever is bound before and after it |
| `WhereClause.TextPlaceholders` | orm/predicate.go:127-207 | in the text of a tree, as it is lexed, the placeholders run on without a gap, one for each value |
| `WhereClause.ClausePlaceholders` | orm/select.go:271-287 | in the text of the whole clause as well, across all its predicates |
| `WhereClause.ClauseNamesOnly` | orm/select.go:271-287 | the clause, as it is read back, names columns of its own table only |
| `WhereClause.WritePredicates` | orm/select.go:271-287 | writes the clause and binds its values, or fails exactly when some predicate does not compile |
| `Relations.UniqueKeys` | orm/relation.go:349-364 | every wanted key once, in the order in which parents first ask for them |
| `Relations.Batches` | orm/relation.go:381-408 | the batches hold the keys in order, no statement exceeds the parameter limit, and all but the last use it up |
| `Relations.FetchedKeepsLookup` | orm/relation.go:381-408 | among all fetched rows a key finds exactly its own lookup, for every way of batching |
| `Relations.KeyedIff` | orm/relation.go:136-180 | some fetched row lacks its key exactly when a row reached by a wanted key does |
| `Relations.LoadHasMany` | orm/relation.go:312-347 | each parent gets exactly what filtering the scope's rows by its key gives |
| `Relations.LoadOne` | orm/relation.go:136-266 | BelongsTo and HasOne: the one row or none; fails exactly when a key is missing on a row reached, two rows match one key, or the scope leaves no room |
| `Relations.LoadManyToMany` | orm/relation.go:598-659 | each parent gets the targets of its join rows in order, each once |
| `Relations.TargetsOnce` | orm/relation.go:598-659 | the targets listed are all that are linked, none twice |
| `Yields.CycleReportedIff` | view/forge_compile.go:223-264 | a cycle is reported exactly when a section reachable from the nodes reaches itself through yields |
| `Yields.ExpandsIffUnfolds` | view/forge_compile.go:223-264 | expansion succeeds with a result exactly when plain unfolding ends with it |
| `Layouts.SubstituteYields` | view/forge_compile.go:223-264 | the loop computes the expansion and leaves the shared table as it was on every return |
| `Layouts.ResolveView` | view/forge_compile.go:182-221 | the recursion computes the resolution with each of its errors |
| `Layouts.ResolvesIff` | view/forge_compile.go:182-221 | over the documents as they stand, a view resolves exactly to its layout's unfolding under the hoisted pushes, with the definition closest to the view of each section |
| `Layouts.YieldCycleIff` | view/forge_compile.go:182-264 | a yield cycle is reported exactly when the layout chain ends in circular sections |
| `Layouts.InheritanceCycleIff` | view/forge_compile.go:182-221 | an inheritance cycle is reported exactly when following layouts meets a document twice |
| `SharedBranches.SameAgain` | view/forge_compile.go:223-278 | within one compile it makes no difference that expanding writes into the branches of the documents: nodes and sections that were expanded before expand to the same again |
| `SharedBranches.ServesAllIff` | view/forge_compile.go:255-256 | after a first expansion of a layout every other view, with any sections, expands as over the fresh layout, exactly when no branch at any depth has a yield that was replaced or dropped |
| `SharedDocuments.LaterViewsAreFreshIff` | view/forge.go:67-77 | the same for whole documents: every view resolved after a first one over the same layout resolves as if it were the first, exactly under that condition |
| `SharedDocuments.SecondViewGetsTheFirst` | view/forge_compile.go:255-256 | an input that shows it: of two views over a layout with a yield in an @elseif, the second gets the section of the first |
| `SharedDocuments.PlainAfter` | view/forge_compile.go:182-278 | without yields in branches, resolving any view leaves all documents as they were |
| `SharedReach.ReachedIff` | view/forge_compile.go:223-264 | the sections a view comes through are those that some path of yields leads to |
| `SharedReach.ViewLeaves` | view/forge_compile.go:182-278 | what a view leaves of every document: the branches of the root layout, and those of the sections it comes through in the document closest to it, expanded; all else as it was |
| `SharedReach.SiteLeaves` | view/forge.go:67-77 | every view of a site finds the documents as the view before it left them, and leaves them so |
| `Runes.AsciiIsBoundary` | view/forge_parse.go:1069-1090 | both sides of an ASCII byte are rune boundaries, in valid text or not |
| `Runes.CutAtBoundary` | view/diagnostic.go:163-184 | decoding a text cut at a boundary gives the place there |
| `Runes.CutInsideRune` | view/diagnostic.go:163-184 | cut anywhere else it gives a place further right |
| `SourceMap.SourceBuilder.Append` | view/forge_compile.go:769-788 | mappings tile the generated text, and literal ones copy the source they point at |
| `SourceMap.FindMapping` | view/diagnostic.go:149-161 | the loop returns the first covering mapping, adjusted, or the last before the offset |
| `SourceMap.AdjustMapping` | view/diagnostic.go:163-184 | the place after decoding the part before the offset |
| `SourceMap.SourcePosition` | view/forge_parse.go:1069-1090 | the place of an offset, clamped to the source, at a rune's start |
| `SourceMap.FindsTheTile` | view/diagnostic.go:149-161 | every offset of the generated text is covered by exactly one mapping, and that is found |
| `SourceMap.LookupInverts` | view/diagnostic.go:149-184 | a lookup in a literal mapping gives the offset as far into the source stretch as into the generated one, with the same byte, and its line and column exactly when it does not cut a rune |
| `SourceMap.InsideALetter` | view/diagnostic.go:163-184 | an input that shows it: inside a copied letter of two bytes the lookup gives the column after the letter |
| `SourceMap.LineColumnOffset` | view/diagnostic.go:127-147 | the loop finds the offset of a line and a byte column, clamped to the source |
| `SourceMap.OffsetInverts` | view/diagnostic.go:127-147 | which inverts the byte line and column of every offset of every source |
| `ViewScan.DirectiveName` | view/forge_parse.go:1052-1058 | the loop reads the longest run of letters |
| `ViewScan.NamesMean` | view/forge_parse.go:1052-1058 | a name is the letters up to the first other byte |
| `ViewScan.StringsMean` | view/forge_parse.go:243-271 | a string starts at a quote outside strings and ends at the first same quote before which an even number of backslashes stands, in backticks at the first backtick |
| `ViewScan.CommentMeans` | view/forge_parse.go:136-145 | a comment ends at the first closing mark after it, and not at all exactly when there is none |
| `ViewScan.ScanGoAction` | view/forge_parse.go:243-271 | the loop over quotes and escapes computes the end of an action |
| `ViewScan.ActionMeans` | view/forge_parse.go:243-271 | that end is the first closing mark outside strings; none exactly when there is none |
| `ViewScan.ScanBalanced` | view/forge_parse.go:409-444 | the loop over quotes, escapes and parentheses computes the end of arguments |
| `ViewScan.BalancedMeans` | view/forge_parse.go:409-444 | that end is the first parenthesis outside strings that closes as many as were opened; none exactly when there is none |
| `ViewScan.DepthCounts` | view/forge_parse.go:409-444 | the depth is the number of opening less that of closing parentheses outside strings |
| `ViewScan.ArgumentsMean` | view/forge_parse.go:391-407 | arguments are found exactly as: spaces and tabs, an opening parenthesis, the text, and the parenthesis that is the first to balance it |
| `ViewParser.Parser.Arguments` | view/forge_parse.go:391-407 | the arguments in parentheses, or a refusal exactly when there are none that close |
| `ViewParser.Parser.ParseNodes` | view/forge_parse.go:127-213 | the nodes up to a stop word or the end: at every depth each is what the source says in its span, and with the comments between them they cover the body; it fails exactly when no such nodes exist |
| `ViewParser.Parser.ParseDirective` | view/forge_parse.go:273-335 | the node of a directive with its bodies, from its word to its end; it fails exactly when no good node starts there |
| `ViewParser.Parser.ParseControl` | view/forge_parse.go:337-388 | the same for @if, @for and @with, with @elseif branches and an @else or @empty |
| `ViewParser.Parser.ParseBranches` | view/forge_parse.go:361-377 | the branches one after the other, each with its arguments and the body up to the next; it fails exactly when no good node starts at the directive |
| `ViewUnique.SameNode` | view/forge_parse.go:273-388 | good nodes that start at the same place are the same node, to every depth |
| `ViewUnique.SameList` | view/forge_parse.go:127-213 | good nodes that cover a stretch up to places where bodies end are the same, and so is the end |
| `ViewBodies.Continues` | view/forge_parse.go:127-213 | what is read of a body is a beginning of every body from there |
| `ViewDocument.OneParse` | view/forge_parse.go:127-213 | a view has at most one parse |
| `ViewDocument.ParseView` | view/forge_parse.go:108-116 | finds the one parse of the whole file, or fails exactly when there is none |
| `ViewDocument.WordsMean` | view/forge_parse.go:1025-1032 | a name is a directive exactly when a keyword is written so, and no two are written alike |
| `ViewDocument.EndingsMean` | view/forge_parse.go:337-388 | what has a body ends with its own word behind "end" |
| `ViewNodes.BareAttributesIsText` | view/forge_parse.go:187-190 | @attributes without arguments is text |
| `ViewOrganize.Organize` | view/forge_parse.go:849-918 | the loops sort the nodes of a file into layout, sections and the rest, or refuse it, as the lemmas of this module say outright |
| `ViewOrganize.PageKeepsTheRest` | view/forge_parse.go:882-912 | an accepted page keeps every node that is neither @extends nor @section, each once and in order, and nothing else; its layout is the one its first directive names, and without one it keeps the whole parse and has no section |
| `ViewOrganize.ComponentKeepsTheRest` | view/forge_parse.go:858-881 | an accepted component keeps its parse without the @props it starts with, after blanks at most |
| `ViewOrganize.PageAcceptedIff` | view/forge_parse.go:885-970 | a page is accepted exactly when @extends comes first or not at all, there is no @props, sections stand only with a layout, once each and not inside another, with a layout all else is @push or blank, and no @push lies at any depth in a control directive or a component call |
| `ViewOrganize.ComponentAcceptedIff` | view/forge_parse.go:858-881 | a component is accepted exactly when it starts with properties that may be declared and has no @push at any depth |
| `ViewOrganize.PagesAreClean` | view/forge_parse.go:885-912 | what may stand at each place of an accepted page |
| `ViewOrganize.SectionsOfPage` | view/forge_parse.go:894-905 | in an accepted page every @section is the only one of its name and is found under it |
| `ViewDocument.ParseDocument` | view/forge_parse.go:108-125 | finds the one document of a file, or fails exactly when the file has no parse or its nodes make no document |
| `ViewDocument.ParseDocuments` | view/forge.go:47-62 | a document for every file, or a failure exactly when some file makes none |
| `ViewDocument.SampleParses` | view/forge_parse.go:108-125 | a view with an @if around a text has its parse, with the text inside the directive |
| `ViewCompile.GoodIsSound` | view/forge_parse.go:1060-1090 | what a parser gives is fit to be copied: each text and action, at every depth, is of its file and a copy of its span, or the shorter text of an escape |
| `ViewResolve.ResolvedIsSound` | view/forge_compile.go:182-264 | what a view resolves to through layouts and sections is as fit to be copied as what was parsed |
| `ViewRewrite.RewriteVariables` | view/forge_compile.go:718-767 | the loop over strings and variables puts the replacement for each bound variable outside strings and keeps every other byte |
| `ViewRewrite.VariablesMean` | view/forge_compile.go:749-761 | a variable is a dollar sign outside strings with the letters, digits and underscores behind it |
| `ViewRewrite.StringsAreKept` | view/forge_compile.go:727-743 | bytes inside strings are kept, whatever stands in them |
| `ViewRewrite.UnchangedIff` | view/forge_compile.go:718-767 | with longer replacements, as the compiler makes them, a text stays as it is exactly when no bound variable occurs in it outside strings |
| `ViewCompile.ActionIsLiteralIff` | view/forge_compile.go:313-319 | so an action is mapped as a copy exactly when it uses no variable of its component outside strings |
| `ViewCompile.LookupIsSound` | view/forge_compile.go:333-379 | the nodes that component calls, slots and stacks stand for are fit to be copied too |
| `ViewCompiler.CollectStacks` | view/forge_compile.go:289-301 | the recursion collects, for every stack, the bodies pushed to it in the order of the page |
| `ViewCompiler.Compiler.CompileNodes` | view/forge_compile.go:303-409 | for sound nodes of any files: a result, an error, or lookups nested deeper than the given bound, as specified; with a result the builder holds the pieces of all nodes in order, one mapping for each piece that is not empty, literal ones copies of their source |
| `ViewCompiler.Compiler.CompileControl` | view/forge_compile.go:350-370 | opening, first body, branches, other body and end are separate pieces with the bodies compiled between them, as specified; what this means for the whole is ViewNesting.PageReadsBack |
| `ViewCompiler.Compiler.CompileElsewhere` | view/forge_compile.go:333-511 | a component call compiles the definition with the content it gives to slots, a slot its content in the scope of the call or else its own body, a stack the bodies pushed to it |
| `ViewLookups.SlotStandsFor` | view/forge_compile.go:337-349 | a slot in a component stands for the @slot of its name in the call, the default one for all else in the call if that is not blank, in the scope of the call, and otherwise for its own body; outside a component it is an error |
| `ViewLookups.ComponentStandsFor` | view/forge_compile.go:425-511 | a call stands for the component's definition under a new number, and is an error exactly when there is none, it is being compiled already, or its arguments are refused |
| `ViewLookups.VariablesInForce` | view/forge_compile.go:483-503 | in a component its own variables have numbered names and hide the caller's; content has those of the place it is written in |
| `ViewLookups.StackStandsFor` | view/forge_compile.go:289-301 | a stack stands for the bodies of all pushes to it in the page, each once, in the order of the source, but not those inside another push |
| `ViewBrackets.ReadsFlat` | view/forge_compile.go:352-399 | what is written down of any trees of openings, branches, other bodies and ends is read back as these trees |
| `ViewNesting.CompiledIsNesting` | view/forge_compile.go:303-511 | compiling writes down the nesting of the nodes: for every control directive its opening with the pipeline renamed, its body, each @elseif with its pipeline and body, the other body, and one end; for @errors and components their opening, body and end |
| `ViewNesting.PageReadsBack` | view/forge_compile.go:303-511 | so the pieces of every page that compiles are balanced and read back as the page's own nesting |
| `ViewNumbers.CompilingAdds` | view/forge_compile.go:483-484 | the numbers of the components entered while compiling rise, from the counter before to the counter after |
| `ViewNumbers.NumbersAreFresh` | view/forge_compile.go:483-484 | no two components that are entered, in one view or in two of a site, get the same number |
| `ViewDepths.EveryDepth` | view/forge_compile.go:303-409 | every node at every depth of bodies, branches and alternatives is compiled in the scope around it, after what came before and never taken back |
| `ViewDepths.CopiedAtEveryDepth` | view/forge_compile.go:307-319 | so every text and action has a mapping that points at its span and holds its text, literal exactly where the text is unchanged; none exactly when it compiles to nothing |
| `ViewDepths.ExpandedAtEveryDepth` | view/forge_compile.go:333-379 | and every component call, slot and stack has the nodes it stands for compiled, so the same holds inside them |
| `ViewDepths.InOrder` | view/forge_compile.go:303-409 | the texts and actions at all depths come out once each, in the order of the source, those of a component, slot or stack where it stands |
| `ViewDepths.ClosedLeaves` | view/forge_compile.go:303-379 | where nothing is looked up these are the texts and actions of the tree read from left to right, whatever the counter of fresh names |
| `ViewDepths.DeeperIsSame` | view/forge_compile.go:303-409 | once the bound on nested lookups is large enough for a result or an error, a larger one changes nothing |
| `ViewEndings.EndsAlike` | view/forge_compile.go:303-511 | how compiling ends depends neither on what was generated before nor on the numbers of fresh variables |
| `ViewEndings.SucceedsIffBounded` | view/forge_compile.go:303-511 | some bound gives a result exactly when nothing that is reached is an error and the chains of lookups do not grow forever |
| `ViewCycles.PageCompilesIff` | view/forge_compile.go:303-511 | a page compiles exactly when nothing it reaches is an error and no directive it reaches, in its scope, leads back to itself |
| `ViewCycles.EnoughDepth` | view/forge_compile.go:303-511 | a page that compiles at all does so with one bound that depends only on its nodes and components |
| `ViewCycles.BackNeedsStack` | view/forge_compile.go:371-379 | a directive leads back to itself only through a stack: components and slots alone always end |
| `ViewCycles.PageWithoutStacks` | view/forge_compile.go:333-349 | without stacks a page compiles exactly when nothing it reaches is an error |
| `ViewCycles.RoundNeverEnds` | view/forge_compile.go:371-379 | an input that never ends: a stack into which itself is pushed outgrows every bound |
| `ViewSite.CompileView` | view/forge_compile.go:166-180 | one view from documents to generated text: resolved with its yields open exactly in layouts and in views without one, then compiled; the mappings tile the text, literal ones copy the files, and the failures are those of resolving and compiling |
| `ViewSite.CompileViews` | view/forge.go:67-77 | all views in order, each over what those before it left of the documents, up to the first that fails |
| `ViewSite.CompileForge` | view/forge.go:36-85 | from files to templates: fails when a file makes no document, a view fails, or there is no view; otherwise there is a template for exactly the views |
| `ViewSite.ViewsAreFresh` | view/forge.go:67-77 | without yields in branches every view is compiled over the documents as they were parsed |
| `ViewSite.ViewCompilesIff` | view/forge_compile.go:166-180 | a view compiles exactly when it resolves, nothing it reaches is an error and nothing it reaches leads back to itself |
| `ViewSite.ViewReadsBack` | view/forge_compile.go:166-180 | the pieces of every view that compiles read back as the nesting of the nodes it resolves to |
| `ViewSite.PlainFileComesOut` | view/forge.go:36-85 | from the file to the template: without layout, yields and lookups the copies are the texts and actions of the file's one parse, each once and in order |
| `ViewTexts.TextFileComesOut` | view/forge_parse.go:127-213 | a file of text always compiles, to its source without comments and with one @ for every @@ |
| `ViewFillings.UnfilledIsAnError` | view/forge_compile.go:166-264 | a view that has a layout and is none itself does not compile when a yield of the layout, at any depth, has no section in any document of its chain |
| `ViewFillings.OpenViewsDropYields` | view/forge_compile.go:166-264 | a view without a layout, or that is one, has no yield left |
| `ViewFillings.PushesAreFiltered` | view/forge_compile.go:211-217 | a document above its layout gives its pushes, each once and in order, and nothing else |
| `ViewFillings.ComponentsAreFiles` | view/forge.go:47-62 | the components are the files of their directory, each standing for its one parse without the @props |
| `ViewFillings.PagesAreFiles` | view/forge.go:67-77 | the views compiled are the other files |
| `ReferenceCycles.BuildEdges` | internal/cli/model_schema.go:682-694 | the edge lists are exactly the references between different models |
| `ReferenceCycles.OrderedHasNoCycle` | internal/cli/model_schema.go:681-727 | a creation order rules out every cycle |
| `ReferenceCycles.LoopThrough` | internal/cli/model_schema.go:707-713 | the stack scan stays in bounds and gives a real cycle |
| `ReferenceCycles.Search.Visit` | internal/cli/model_schema.go:698-718 | grey names are the stack, a path; black names are finished with all they refer to |
| `ReferenceCycles.RejectReferenceCycles` | internal/cli/model_schema.go:681-727 | fails with a real cycle, or there is none and a creation order exists |
| `SessionRuns.StepKeepsInv` | session/session.go:124-373 | every step of every interleaving keeps: what a request may still store was never stored, and stored sessions keep their issuance time |
| `SessionRuns.EveryRun` | session/session.go:124-373 | from any dated entries, after every run: the invariant holds, every stored session has the issuance time it was first stored with, and was either there from the start or expires within its deadline |
| `SessionRuns.RetiredForever` | session/session.go:184-225 | an id once removed is never stored again |
| `SessionRuns.LapsedForever` | session/memory.go:28-88 | an expired id is never answered again while the store's clock does not go back |
| `SessionRuns.IssuedOnce` | session/session.go:149-172 | while an id is stored its issuance time does not change |
| `SessionRuns.RotationsKeepIssuance` | session/session.go:202-225 | along every chain of rotations, made by any requests in any interleaving and also by creation after a missed rotation, all ids are issued at the same time |
| `SessionRuns.ExpiryWithinDeadline` | session/session.go:191-197 | no stored expiry exceeds issuance plus the absolute lifetime |
| `SessionRuns.RotationCannotExtend` | session/session.go:72-74 | from the absolute deadline of the first id on, no id of the chain is answered |
| `SessionRuns.UndatedChanges` | session/session.go:150-160 | without a deadline, an entry without issuance time can be dated twice |
| `SessionSaves.OnlyVisibleMatters` | session/memory.go:28-95 | a lapsed entry is as good as none: what a call answers, and what can be seen from then on, depends on the others only |
| `SessionSaves.StoreKeepsApart` | session/memory.go:28-95 | a call that expects an id is told when it is not there and leaves nothing lapsed under it; a live entry is changed by its own update, rotation or deletion only |
| `SessionSaves.SucceedsIff` | session/session.go:177-233 | before the deadline a save succeeds exactly when the session was never stored or the id it was stored under is live; a creation after a missed rotation always does |
| `SessionSaves.StoresWhatIsHeld` | session/session.go:177-233 | a successful save, rotation or creation stores the data and the issuance time the request holds, removes the old id, and changes no other entry |
| `SessionSaves.SavedForLongEnough` | session/session.go:191-197 | it is stored for the idle time, or up to the deadline when that comes first, and no longer |
| `SessionSaves.RecreatedAsSaved` | session/session.go:202-225 | after a missed rotation, whatever other requests do in between, the creation stores what the save held, for as long, and the old id stays gone |
| `SessionSaves.LoadGivesSaved` | session/session.go:124-233 | at any point of any run: a load before the expiry and the deadline gives the data and the issuance time that the saving request held, after any save, rotation or creation, as long as no request stores or removes the id in between |
| `SessionSaves.LoadedOrFresh` | session/session.go:124-173 | a load gives the stored session exactly when it may be used; otherwise an empty one under a new id, with the lapsed one removed and the expired one to be dropped |
| `SessionSaves.RemovedForever` | session/session.go:184-225 | an id that is rotated away, dropped, invalidated or saved past its deadline is never answered again |
| `SessionSaves.InvalidatedIsEmpty` | session/session.go:345-373 | invalidating, or saving past the deadline, leaves no id, no data and no entry |
| `SessionSaves.RegeneratedKeeps` | session/session.go:251-262 | staging a new id keeps the data, the issuance time and the id it is stored under |
| `SessionManager.MemoryStore.Get` | session/memory.go:28-40 | answers live entries and removes expired ones |
| `SessionManager.MemoryStore.Create` | session/memory.go:42-53 | refuses live ids, replaces expired ones |
| `SessionManager.MemoryStore.Update` | session/memory.go:55-67 | updates live entries, removes expired ones |
| `SessionManager.MemoryStore.Rotate` | session/memory.go:69-88 | replaces a live entry by the new id in one step |
| `SessionManager.Manager.Load` | session/session.go:124-173 | the stored session if usable, otherwise a fresh one, with the unusable one removed |
| `SessionManager.Manager.Save` | session/session.go:177-233 | creates, updates, rotates, creates after a missed rotation, or invalidates; when it is done and the session has an id, the store holds its data and its issuance time under it |
| `SessionManager.Manager.Invalidate` | session/session.go:357-373 | removes what was stored and empties the session |
| `MigrationLedger.Database.Prepare` | database/migrate/migrate.go:306-329 | wherever it is interrupted, an attempt leaves an upgrade in progress, marked as such once it has changed anything; complete, the finished ledger; refused exactly on drift |
| `MigrationLedger.Database.Upgrade` | database/migrate/migrate.go:498-540 | marker, column, checksums, NOT NULL and marker removal, in an order that can be resumed |
| `MigrationLedger.Database.Backfill` | database/migrate/migrate.go:417-460 | in any row order: fills in missing checksums, refuses exactly on drift |
| `MigrationLedger.Database.Seal` | database/migrate/migrate.go:531-540 | NULL is forbidden only when no row has one |
| `MigrationLedger.FinishedMeans` | database/migrate/migrate.go:498-540 | the finished ledger has each applied row with its file's name and checksum, no marker, and no other row |
| `MigrationLedger.Converges` | database/migrate/migrate.go:306-329 | after any number of interrupted attempts, an uninterrupted one ends as it would have on the first ledger |
| `MigrationLedger.ReadyIsNotChecked` | database/migrate/migrate.go:306-329 | a ledger that is not there or has all checksums is not checked against the files: an uninterrupted attempt completes and keeps its rows |
| `EventEmitter.Queue.Emit` | job/types.go:261-283 | accepts below the capacity, counts what it drops, and starts a drain only when none runs |
| `EventEmitter.Queue.Take` | job/types.go:285-304 | takes the oldest event, or ends the drain and closes its channel |
| `EventEmitter.StepKeepsInv` | job/types.go:242-319 | every step of every interleaving keeps accepted = observed, in hand and pending, and one drain while it runs |
| `EventEmitter.EveryRun` | job/types.go:242-319 | pending stays within 256, emitted is dropped plus accepted, observers see a prefix of what was accepted in order, and pending events have exactly one drain |
| `EventEmitter.ChannelClosedOnce` | job/types.go:285-293 | a drain that ends finds its channel open |
| `EventEmitter.FlushedIsObserved` | job/types.go:306-319 | a flush that succeeds has seen everything accepted before it began |
| `LineWriter.FedIsLines` | internal/cli/dev.go:115-172 | the output after a flush is one function of the whole stream: lines up to the limit whole, longer ones cut and marked once |
| `LineWriter.ChunksDoNotMatter` | internal/cli/dev.go:115-172 | however the stream is cut into writes |
| `LineWriter.Writer.Write` | internal/cli/dev.go:115-159 | the loop over chunks is the byte-by-byte writer, keeps the buffer within the limit, and on an error has written a proper prefix |
| `LineWriter.Writer.Flush` | internal/cli/dev.go:161-172 | writes an unfinished line, forgets a cut one |

## Left out

- Everything around the cores: HTTP, middleware, assets, mail, process control, code generation, command-line parsing, configuration, validation, rate limiting, the frozen legacy view compiler.
- Text patterns (job names, cron field characters, identifiers beyond quoting), JSON encoding and decoding, error messages and their limits: values are taken as already checked or as plain strings.
- Cryptography: ids are fresh, checksums and signatures are plain values.
- PostgreSQL locking inside a statement; the order in which RETURNING lists claimed rows; ListFailed and FindFailed, which only read.
- Job observers' contexts and panics: a call of the observer that returns or panics is one step.
- EventEmitter.Queue.Emit: the dropped counter is a mathematical integer, not one of 64 bits.
- Occurrences.ChunkedNext: time zones enter only as the starts of local years.
- Relations.LoadOne: the rows a scope returns are one fixed list in scope order; the SQL of the scope is not parsed.
- Layouts.ResolveView: include contexts that only appear in error messages are not carried. What resolving writes into branches is modelled as a change of the documents after each view, not through references.
- ViewParser.Parser.ParseNodes: which arguments a directive accepts, the name among them, and which actions are allowed are arbitrary functions; the splitting of arguments into names, pipelines and attributes is not modelled.
- ViewOrganize.Organize: which properties a component may declare and where attributes may be used are arbitrary predicates.
- ViewCompiler.Compiler.CompileNodes: the texts of generated code, and the checks on properties, attributes and slot names of a component call, are arbitrary functions. The code has no bound on nested lookups; where no bound is enough it does not return. Contexts that only appear in error messages are not carried.
- ViewSite.CompileForge: the check of includes, components and layouts before any view is compiled, and the check of includes in the generated templates, are not modelled.
- SourceMap.FindMapping: the include context of a mapping is not carried.
- ReferenceCycles.BuildEdges: the lists are not sorted, so which of several cycles is reported is not fixed.
- SessionManager.MemoryStore.Rotate: the store reads its clock once per call; flash values are part of the data.
- SessionManager.Manager.Save: cookies and the check for a response already written are not modelled; the store itself does not fail.
- MigrationLedger.Database.Prepare: only MySQL, whose statements commit one by one; the other dialects upgrade in one transaction. Applied times are not parsed.
- LineWriter.Writer.Write: the service prefix and the ready message are not modelled beyond marking whole lines.
