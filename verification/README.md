# Verified models of the Soulbase transactional core, filter compiler and configuration trees

Three parts of the Soulbase crates are modelled here, each with the properties it exists for.

**The transactional core (`sb-tx`).** An outbox whose messages are leased to workers, sent, and then
acknowledged, backed off or dead-lettered; the dispatcher that drives it; dead letters with replay and
purge; a fixed-window budget guard; an idempotency store; and a saga orchestrator with compensation. The
outbox is a protocol: `OutboxProtocol` describes a run as a log of atomic events and derives the stored
messages from it; `OutboxHistory` tells every field of a stored message from the log alone;
`OutboxAttempts` and `OutboxSends` prove properties of all runs; and the two stores (`OutboxStore`, in
memory, and `DatabaseLease`, which leases in two phases) are imperative code proved to append exactly
such events. `DeadLetters` sets the letters beside the outbox, with every step an event of its own: a
kill and the push of its letter are two, and a replay is three, reading the letter, reviving the message
and removing the letter. `Replays` says when replays keep the protocol and the letters, and `ReplayRuns`
has runs in which they do not. `DeadStore` and `Dispatcher` are the imperative code of replays and ticks:
between any two of their steps others do whatever the stores accept. `TickReports` and `Ticks` say what a
tick comes to as seen from its worker, and `DispatcherRuns` what runs of ticks do. Transports,
participants and clocks are arbitrary: their answers and readings are inputs.

**The filter compiler (`sb-storage`).** JSON filters become WHERE clauses with named placeholders.
`FilterCompiler` is the compiler, updating parameters and counter in place; `WhereClause` is the target
language as tokens, with a parser in which NOT binds above AND and AND above OR, and an evaluator;
`FilterMeaning` gives filters a meaning of their own and, with `ClauseShapes`, proves the two agree, and
`FilterReading`, `FilterIndependence` and `FilterNecessity` compare it with the usual two-valued reading;
`SelectStatement` is the statement assembled around the clause and the bindings that reach the database;
`Pagination` follows its `next` cursor. `MockRepository` is the in-memory select, with its repeated
stable sorts.

**Configuration trees (`sb-config`).** Layers are merged, dotted keys read and inserted, defaults
filled in, trees flattened and compared.  `ConfigTree` and `ConfigPaths` define trees, paths and
reading; `ConfigMerge`, `ConfigInsert`, `ConfigDefaults`, `ConfigFlatten` and `ConfigChanges` are the
operations, which must agree on one notion of "the leaf at a path".

## Where the code and its description part

- `ack_done`, `nack_backoff` and `dead_letter` check neither owner nor status, so a completed message is
  not final by itself: `DoneStaysExactly` and `DeadStaysExactly` say, for every run, which later calls
  change a completed or dead message, and `LateNackRevivesDoneMessage` is a run in which a late worker
  makes them.  What keeps the calls away is a discipline of the workers: to send and settle only what
  they still hold.  It is enough for finality (`SettledIsFinal`) and mutual exclusion
  (`AtMostOneLiveLease`), though not necessary for either in every case: `OpensSecondLeaseExactly` says
  which events let a message be leased again while a lease is live, namely another worker's failure
  report and a revival, if due by then, and `ForeignNackBreaksExclusion` leads one of them on to two live
  leases.  A worker need not look at the store to keep the discipline: `TimelyIsDisciplined` derives it
  from each worker's minding the end of its own leases, and `Ticks.TickKeepsOrder` says that a dispatcher
  tick keeps it, if others do and nobody leases anything at or past the end of the tick's leases before
  it is over.
- Sends are at least once, and the attempt limit bounds only those that are settled.  A worker that
  crashes after sending, or loses its lease, leaves the attempt uncounted: `UnsettledSendsAreUnbounded`.
  `SendsBounded` bounds all sends of a run by the limit and the number of sends left unsettled.
- Dead letters are keyed by kind and id without the tenant, and replays are not atomic.
  `CompleteExactlyIfNothingLost` gives the exact events by which a dead message is left without its
  letter.  Three kinds lose one: a push for another tenant's message of the same id
  (`SharedIdLosesLetter`), a replay's remove after the message it revived has died again
  (`SlowReplayLosesLetter`), and a purge.  With ids unique across tenants no push does
  (`UniqueIdsLoseNothingToPushes`), and no remove of a replay whose message is not killed between its
  revive and its remove (`UndisturbedReplayLosesNothing`).
- A replay revives whatever its letter names, dead or not: two replays that read the same letter can make
  a completed message pending again (`OverlappingReplaysReopenDone`).  `DisciplineExactly` says for every
  run when replays keep the lease discipline: when each message revived has died since it was last
  revived.  They do if no two replays of one reference overlap (`SerialReplaysKeepDiscipline`).
- The budget guard's windows start at the first attempt after the last one ended, so a stretch of one
  window's length can hold twice the limit, and no more; both halves are proved.
- Configuration layers are documented as `Defaults < File < ...`, but defaults are filled in last, and a
  default whose path leads on through a leaf of a source replaces it: `LeafSurvivesExactly` is the exact
  condition, `DefaultOverridesSource` an instance.  The result can also depend on the order in which
  defaults are visited: `CommuteExactly` decides for any two of them, from the declarations alone.  That
  every two commute is enough for a whole list (`DefaultsInAnyOrder`), but not necessary
  (`OthersCanHideOrder`).
- Merging layers is not associative: `GroupingMattersExactly` says where the grouping shows.
- Filters without a comparison in them are dropped wherever they stand.  `Means` is the meaning with that
  rule, for every filter; `HarmlessMeansUsual` says for which filters it is the usual one,
  `UsualExactlyIfHarmless` that it is for no others whose comparisons are pairwise different, and
  `EmptyAlternativeIsDropped` is a filter for which it is not.  A field compared with `{}` pushes an empty
  part; `Tidy` says exactly when the clause still parses.
- The in-memory sort compares values of different types as equal, which is an order exactly when the
  column holds one type or nothing in it compares different: `ComparableExactly`.
- The `next` cursor of the database's select is the last row's id, whatever the rows are sorted by:
  following it visits every row, whatever the page size, exactly when they come by ascending id
  (`FollowingVisitsAllExactly`), and for one page size exactly when the last row of every full page
  divides the rows by their ids (`FollowingVisitsAllAtLimitExactly`).
- The `Failed` that compensation writes when it skips the first step is overwritten by `Cancelled` before
  the tick ends; the runs proved in `SagaRuns` include this.
- The idempotency store takes the difference of two clock readings modulo 2^64, so a clock that goes
  back expires every record: `ExpiredExactly`.

## Model

| member | source | states |
|---|---|---|
| WhereClause.ParsePrintedDisjunction | crates/sb-storage/src/surreal/mapper.rs:57-74 | a printed clause, followed by anything that can follow one, is read back as the same alternatives of conjunctions: the parentheses the compiler writes are enough for the precedences it relies on |
| WhereClause.ParseContinuesAfterAnd | crates/sb-storage/src/surreal/mapper.rs:86 | joining by AND cannot repair a part that does not parse |
| FilterCompiler.Compiler.NextParam | crates/sb-storage/src/surreal/mapper.rs:206-210 | the name is the prefix and the counter, and only the counter moves on |
| FilterCompiler.Compiler.BuildCompare | crates/sb-storage/src/surreal/mapper.rs:137-149 | one comparison binds its operand to one new placeholder |
| FilterCompiler.Compiler.BuildOp | crates/sb-storage/src/surreal/mapper.rs:103-126 | each operator by its name, including arrays demanded for `$in`/`$nin` and unknown operators refused, as the compile function says |
| FilterCompiler.Compiler.BuildFieldClause | crates/sb-storage/src/surreal/mapper.rs:89-135 | the loop over a field's operators computes the compile function, also on errors half-way |
| FilterCompiler.Compiler.BuildList | crates/sb-storage/src/surreal/mapper.rs:53-56 | the filters of an array are compiled in order, up to the first error, threading parameters and counter |
| FilterCompiler.Compiler.BuildFilterRecursive | crates/sb-storage/src/surreal/mapper.rs:34-87 | the in-place compiler computes the compile function: same clause or error, same parameters, same counter |
| FilterCompiler.BuildFilter | crates/sb-storage/src/surreal/mapper.rs:22-32 | the entry point, with the null filter |
| FilterMeaning.ParamNameInjective | crates/sb-storage/src/surreal/mapper.rs:206-210 | placeholders of different numbers are different names |
| FilterMeaning.FilterBindsOnlyFresh | crates/sb-storage/src/surreal/mapper.rs:34-179 | compiling any filter, successfully or not, binds exactly the next placeholders and changes no other parameter |
| FilterMeaning.FilterAccepted | crates/sb-storage/src/surreal/mapper.rs:34-135 | compilation succeeds if and only if every object, array, operator and identifier is well-shaped, and otherwise reports the first thing from left to right that is not, whatever parameters there are |
| FilterMeaning.FilterClause | crates/sb-storage/src/surreal/mapper.rs:34-87 | the clause of any filter is printed from one conjunction that evaluates to the filter's meaning, or the filter is not tidy and no parse exists |
| FilterMeaning.CompiledClauseMeansFilter | crates/sb-storage/src/surreal/mapper.rs:34-179 | for every accepted filter, with each operator asking what its name says: the clause is empty if and only if the filter emits nothing, parses if and only if the filter is tidy, and then is true of exactly the records the filter means, under every parameter map that still holds the bound values |
| FilterMeaning.NoBareOr | crates/sb-storage/src/surreal/mapper.rs:61-69 | no OR stands outside parentheses: a clause that parses is a single conjunction |
| FilterReading.HarmlessMeansUsual | crates/sb-storage/src/surreal/mapper.rs:40-84 | when every dropped subfilter is constantly true as a conjunct and constantly false as an alternative of a kept `$or`, the compiled meaning is the usual two-valued reading; a filter dropped altogether is then true of every record |
| FilterReading.NothingEmptyIsHarmless | crates/sb-storage/src/surreal/mapper.rs:40-84 | in particular when no object and no `$and`/`$or` array is empty |
| FilterReading.NothingEmptyMeansUsual | crates/sb-storage/src/surreal/mapper.rs:40-84 | a filter in which no object and no `$and`/`$or` array is empty emits a tidy clause and means its usual two-valued reading |
| FilterReading.CompiledClauseSelectsSatisfying | crates/sb-storage/src/surreal/mapper.rs:34-179 | an accepted, tidy and harmless filter compiles to nothing, and then all records satisfy it, or to a clause that parses and is true of exactly the records that satisfy it |
| FilterReading.EmptyAlternativeIsDropped | crates/sb-storage/src/surreal/mapper.rs:67-69 | with an empty alternative it does not: a filter true of every record whose compiled meaning tests a field |
| FilterNecessity.UsualExactlyIfHarmless | crates/sb-storage/src/surreal/mapper.rs:40-84 | for filters whose comparisons are pairwise different the compiled meaning is the usual reading on every record if and only if every dropped subfilter is harmless where it stands |
| SelectStatement.CopyVisible | crates/sb-storage/src/surreal/binder.rs:29-38 | the bindings are exactly the arguments whose name does not start with two underscores |
| SelectStatement.BuildSort | crates/sb-storage/src/surreal/mapper.rs:181-193 | every sort field is trimmed and validated; the first invalid one is the error |
| SelectStatement.SortsAsAsked | crates/sb-storage/src/surreal/mapper.rs:181-193 | the rows are sorted by as many keys as were given, each with its field, without the blanks around it, and its direction; or the first field that is no identifier is reported |
| SelectStatement.TrimCuts | crates/sb-storage/src/surreal/mapper.rs:186 | trimming cuts the blank ends off and no more |
| SelectStatement.Select | crates/sb-storage/src/surreal/repo.rs:172-209 | the imperative assembly of clause, order and arguments computes the statement, with its errors in the source's order |
| SelectStatement.SanitizedPrefix | crates/sb-storage/src/surreal/mapper.rs:195-204 | a placeholder starts with the caller's prefix, or "filter" for a blank one, with everything but letters and digits replaced by an underscore |
| SelectStatement.ValidExactlyIfSanitized | crates/sb-storage/src/surreal/mapper.rs:221-232 | a field name is accepted if and only if it is not empty and sanitizing would change nothing in it but dots |
| SelectStatement.PlaceholdersSurviveIff | crates/sb-storage/src/surreal/binder.rs:29-38 | a filter's placeholders reach the database if and only if the sanitized prefix does not make them look internal |
| SelectStatement.TenantGuardNeverFires | crates/sb-storage/src/surreal/binder.rs:7-27 | a select fails if and only if its filter or a sort field is malformed, with the first thing wrong with the filter, or else the first bad sort field, as the error: compiling never disturbs the tenant argument |
| SelectStatement.BindingsReachDatabase | crates/sb-storage/src/surreal/repo.rs:180-209 | every value the filter bound, and tenant, table, limit and cursor, are still bound to their values after the binding filter |
| SelectStatement.SelectMeansTenantFilterCursor | crates/sb-storage/src/surreal/repo.rs:180-209 | the WHERE clause under the bindings that reach the database is true of exactly the tenant's records that the filter means, past the cursor; it is broken if and only if the filter is not tidy |
| Pagination.AscendingIsFollowed | crates/sb-storage/src/surreal/repo.rs:191-226 | by ascending id, the pages from any cursor on are together exactly the rows past it, in order |
| Pagination.FollowingVisitsAllExactly | crates/sb-storage/src/surreal/repo.rs:191-226 | following `next` visits every matching row exactly once, for every page size, if and only if the rows come by ascending id |
| Pagination.FollowingVisitsAllAtLimitExactly | crates/sb-storage/src/surreal/repo.rs:191-226 | for one page size and rows with different ids: following `next` visits every row exactly once if and only if at the end of every full page all rows before have smaller ids and all after greater ones; and then in order |
| OutboxModel.GuardsAgree | crates/sb-tx/src/surreal/store.rs:911-931 | on messages whose lease fields agree, the database's guard and the in-memory selection admit the same leases |
| OutboxProtocol.LeaseFieldsAlwaysAgree | crates/sb-tx/src/memory/outbox_store.rs:46-159 | in every run a message is Leased if and only if a worker is recorded, and if and only if an end of lease is |
| OutboxProtocol.LiveClaimIsRecorded | crates/sb-tx/src/outbox.rs:226-240 | an unexpired claim, known to a worker only from its own grants and heartbeats, is the lease the store records |
| OutboxProtocol.AtMostOneLiveLease | crates/sb-tx/src/outbox.rs:226-240 | mutual exclusion over all disciplined runs: no two workers hold unexpired claims to one message |
| OutboxProtocol.TimelyIsDisciplined | crates/sb-tx/src/outbox.rs:133-191 | a run is disciplined if every worker sends and settles only while its own lease, known from its own grants and heartbeats, has not run out, and only dead messages are revived |
| OutboxProtocol.OpensSecondLeaseExactly | crates/sb-tx/src/memory/outbox_store.rs:79-159 | in every disciplined run, for every live lease: the next event lets another worker lease the message at once if and only if it is another worker's failure report, or a revival, that makes it due by then |
| OutboxProtocol.ForeignNackBreaksExclusion | crates/sb-tx/src/memory/outbox_store.rs:91-109 | in every run, for every live lease, one failure reported by a worker that does not hold the message leads to two live leases |
| OutboxProtocol.HandoverOnlyAfterExpiry | crates/sb-tx/src/outbox.rs:226-240 | without any discipline, a message nobody settled or revived goes to another worker only at or past the end of the last lease given |
| OutboxProtocol.LeaseRunsOutBetweenGrants | crates/sb-tx/src/memory/outbox_store.rs:46-77 | the same read off any two grants in a log |
| OutboxProtocol.SettledIsFinal | crates/sb-tx/src/memory/outbox_store.rs:79-127 | in every disciplined run Done never changes, and Dead changes only by revival |
| OutboxProtocol.DoneStaysExactly | crates/sb-tx/src/memory/outbox_store.rs:79-159 | in every run, disciplined or not, a completed message stays as it is if and only if no failure, dead-lettering or revival of it follows |
| OutboxProtocol.DeadStaysExactly | crates/sb-tx/src/memory/outbox_store.rs:79-159 | and a dead message stays dead if and only if no acknowledgement, failure or revival of it follows |
| OutboxProtocol.LateNackRevivesDoneMessage | crates/sb-tx/src/memory/outbox_store.rs:91-109 | without the discipline it fails: a run the store accepts in which a completed message is pending again |
| OutboxHistory.StoredIsHistory | crates/sb-tx/src/memory/outbox_store.rs:35-159 | in every run a message is stored if and only if it was enqueued, and every field of it is told from the log: as enqueued, but for status, due time, attempts, error, worker and end of lease, which the last events that set them give |
| OutboxHistory.LeasableExactly | crates/sb-tx/src/outbox.rs:226-240 | in every run a worker can lease a message if and only if it was enqueued, is neither completed nor dead, is due, and no other worker's lease on it is running; an expired lease can be taken over |
| OutboxHistory.NotLeasedBeforeDue | crates/sb-tx/src/outbox.rs:198-214 | a message enqueued with a time is not leased before it, unless it was put off or revived since |
| OutboxAttempts.HolderHasCurrentCopy | crates/sb-tx/src/outbox.rs:149-151 | the attempt count in the holder's copy is the stored one, so the dispatcher may decide from its copy |
| OutboxAttempts.DeadExactlyAtLimit | crates/sb-tx/src/outbox.rs:149-189 | attempts is the number of failures since the last enqueue or revival, stays below the limit while the message lives, and a message is Dead if and only if the limit is reached |
| OutboxAttempts.CreditCoversSettles | crates/sb-tx/src/outbox.rs:149-189 | what was sent and what may still be sent is covered by the limit times the number of starts |
| OutboxAttempts.SettledSendsBounded | crates/sb-tx/src/outbox.rs:133-191 | settlements are at most the limit times the enqueues and revivals, per message and over all messages of a run |
| OutboxSends.NoneUnsettledMeans | crates/sb-tx/src/outbox.rs:136-190 | no send counts as unsettled if and only if each is followed by a settlement of its own sender before that sender sends again |
| OutboxSends.SendsAreSettledOrNot | crates/sb-tx/src/outbox.rs:133-191 | every send is settled or counted as unsettled |
| OutboxSends.SendsBounded | crates/sb-tx/src/outbox.rs:133-191 | all sends of a message are at most the limit times its enqueues and revivals, and one for each send its sender left unsettled; and so over all messages of a run |
| OutboxSends.SettledRunsSendWithinLimit | crates/sb-tx/src/outbox.rs:133-191 | without unsettled sends the limit bounds all sends |
| OutboxSends.UnsettledSendsAreUnbounded | crates/sb-tx/src/outbox.rs:136-138 | with them nothing does: for every n there is a disciplined run with one enqueue, a limit of one and n sends, each under a lease of its own |
| OutboxStore.ScanSelects | crates/sb-tx/src/outbox.rs:215-255 | a scan picks eligible messages in order, no two with one dispatch key when grouping, and passes over an eligible one only for its dispatch key |
| OutboxStore.SelectMessages | crates/sb-tx/src/outbox.rs:215-255 | for every order of the messages: a valid selection of at most max(batch, 1) ids, which is short of the batch only if nothing else could be selected |
| OutboxStore.SelectionChooses | crates/sb-tx/src/memory/outbox_store.rs:46-77 | a selection over the map's values in any iteration order is a valid choice of distinct stored keys |
| OutboxStore.InMemoryOutboxStore.Enqueue | crates/sb-tx/src/memory/outbox_store.rs:35-44 | under a new key the message is stored as requested field by field, pending and untried, due at the time asked for or at once; a key in use is a conflict and changes nothing |
| OutboxModel.Built | crates/sb-tx/src/outbox.rs:198-214 | the new message has what the request has in every field, and a due time of its own only if none was asked for |
| OutboxStore.InMemoryOutboxStore.LeaseBatch | crates/sb-tx/src/memory/outbox_store.rs:46-77 | the returned messages are a valid choice, as leased; the map changes in exactly these; the run grows by exactly their grants |
| OutboxStore.InMemoryOutboxStore.AckDone | crates/sb-tx/src/memory/outbox_store.rs:79-89 | one acknowledgement event, or not found and no change |
| OutboxStore.InMemoryOutboxStore.NackBackoff | crates/sb-tx/src/memory/outbox_store.rs:91-109 | one failure event, or not found and no change |
| OutboxStore.InMemoryOutboxStore.DeadLetter | crates/sb-tx/src/memory/outbox_store.rs:111-127 | one kill event and the message as stored afterwards, or not found and no change |
| OutboxStore.InMemoryOutboxStore.Heartbeat | crates/sb-tx/src/memory/outbox_store.rs:129-145 | one extension for the recorded worker only |
| OutboxStore.InMemoryOutboxStore.Revive | crates/sb-tx/src/memory/outbox_store.rs:147-159 | one revival event, or not found and no change |
| DatabaseLease.DatabaseOutboxStore.TryLease | crates/sb-tx/src/surreal/store.rs:113-134 | one atomic conditional update: it leases if and only if the guard holds of the record at that moment |
| DatabaseLease.DatabaseOutboxStore.LeaseCandidates | crates/sb-tx/src/surreal/store.rs:194-215 | the loop over candidates, with arbitrary accepted events of other workers before every update: each candidate that has its turn is leased if and only if its record passes the guard at that moment and, with grouping, no candidate before it has its dispatch key |
| DatabaseLease.DatabaseOutboxStore.LeaseBatch | crates/sb-tx/src/surreal/store.rs:177-218 | for every interleaving: the candidates have their turns in order until `batch` messages are leased or there are no more, exactly the leasable ones are leased, each by its own protocol event, and with grouping no two with one dispatch key |
| DatabaseLease.AloneLeasesFirst | crates/sb-tx/src/surreal/store.rs:177-218 | if nobody else acts, the call leases the first candidates, with grouping the first of each dispatch key |
| DatabaseLease.AloneLeasesAll | crates/sb-tx/src/surreal/store.rs:177-218 | and a call without grouping that comes back short has leased everything the worker could lease |
| DatabaseLease.TwoPhaseLeaseIsExclusive | crates/sb-tx/src/surreal/store.rs:911-931 | although candidates may be stale, at the moment of each grant no other worker holds a live claim |
| Ticks.OtherEvent | crates/sb-tx/src/outbox.rs:120-194 | no event of anybody else, permitted or not, takes a tick's leases from its worker's account, changes what the worker did, or breaks a rule in the worker's name |
| Ticks.OwnEvent | crates/sb-tx/src/outbox.rs:133-191 | the worker's own sends and settlements, decided from its leased copies, keep lease discipline and attempt policy as long as the run was in order and nobody has leased anything at or past the end of its leases |
| Ticks.OwnPush | crates/sb-tx/src/outbox.rs:151-160 | the push of the letter of its kill, a step of its own, leaves it none to push |
| Ticks.GrantsStart | crates/sb-tx/src/outbox.rs:121-131 | a batch leased in one step starts a tick that holds all its messages |
| TickReports.TickEventsTold | crates/sb-tx/src/outbox.rs:133-190 | event by event: the grants; then for each message sent its send, and then an acknowledgement if and only if it was delivered, a dead-lettering with the error if and only if it failed at the last permitted attempt, and otherwise a failure report with the error and the time the backoff gave |
| TickReports.SentExactly | crates/sb-tx/src/outbox.rs:133-193 | the tick stops at the first message the guard refuses, or after the first whose result it fails on, and is completed if there is none |
| Dispatcher.Settle | crates/sb-tx/src/outbox.rs:136-190 | one settlement of one sent message by its leased copy; if it kills, others act, and then the letter of that kill is pushed |
| Dispatcher.SendNth | crates/sb-tx/src/outbox.rs:136-190 | one message is sent, others act, and it is settled; all of it within the run of outbox and letters |
| Dispatcher.SendAll | crates/sb-tx/src/outbox.rs:133-193 | the loop stops where the guard stops it, after as many sends as the answers determine |
| Dispatcher.Tick | crates/sb-tx/src/outbox.rs:120-194 | whatever others do between its steps, within the rules or not: the worker's own events are exactly the grants and then, for each message up to the one that stops the tick, one send and then the report that the answer calls for, by its leased copy, in order; the letter of each of its kills is pushed; outbox and letters stay those of one run; and every step of its own is in the rules if until then all was, and nobody had leased anything at or past the end of its leases |
| Ticks.TickKeepsOrder | crates/sb-tx/src/outbox.rs:120-194 | so a run in order stays so, lease discipline and attempt policy included, if others keep the rules and the tick is over in time |
| DispatcherRuns.TickedSettles | crates/sb-tx/src/outbox.rs:133-191 | a finished tick leaves none of its worker's sends unsettled that was not before, whatever others did meanwhile |
| DispatcherRuns.NoneUnsettledByWorker | crates/sb-tx/src/outbox.rs:133-191 | a run leaves no send unsettled if and only if no worker does |
| DispatcherRuns.TicksSettleTheirSends | crates/sb-tx/src/outbox.rs:133-191 | any list of ticks that are not cut short, one after the other, leaves no send unsettled |
| DispatcherRuns.OneMoreTick | crates/sb-tx/src/outbox.rs:120-194 | a worker that has done nothing but whole ticks and finishes another has done nothing but whole ticks, whatever others did meanwhile |
| DispatcherRuns.WholeTicksSendWithinLimit | crates/sb-tx/src/outbox.rs:120-194 | where every worker has done nothing but whole ticks, however they interleave, all sends of a run in order are at most the limit times the enqueues and revivals |
| DeadLetters.CompleteExactlyIfNothingLost | crates/sb-tx/src/memory/dead_store.rs:40-122 | in every run, however its steps interleave, every dead message always has its letter, stored or yet to be pushed, if and only if no push for another tenant's message of its id, no removal and no purge takes it while there is no other |
| DeadLetters.LettersAlwaysKnown | crates/sb-tx/src/memory/dead_store.rs:80-104 | every letter, stored or in anyone's hands, is of a stored message, so the revive of a replay never misses its message |
| DeadLetters.LettersComeFromKills | crates/sb-tx/src/outbox.rs:257-268 | every letter is that of one kill of the run: filed under the message's id, with its tenant, the error and the time of the kill, and the message as the kill left it |
| DeadLetters.UniqueIdsLoseNothingToPushes | crates/sb-tx/src/memory/dead_store.rs:33-45 | with ids unique across tenants only removals and purges lose letters |
| Replays.SerialReplaysKeepDiscipline | crates/sb-tx/src/memory/dead_store.rs:80-104 | in every run in which no two replays of one reference overlap, replays revive only dead messages, so the run keeps the lease discipline, and every letter not about to be removed carries a message that is dead now, exactly as stored |
| Replays.DisciplineExactly | crates/sb-tx/src/memory/dead_store.rs:80-104 | in every run, overlapping or not, the lease discipline is kept if and only if each message that is revived has died since it was last revived |
| Replays.LettersAreTheDead | crates/sb-tx/src/memory/dead_store.rs:33-104 | when nothing was lost and nothing is between its steps, letters and dead messages are in bijection |
| Replays.UndisturbedReplayLosesNothing | crates/sb-tx/src/memory/dead_store.rs:80-104 | with ids unique across tenants, a replay whose message is not killed between its revive and its remove takes no dead message's letter |
| ReplayRuns.SharedIdLosesLetter | crates/sb-tx/src/memory/dead_store.rs:33-45 | with an id shared by two tenants a letter is lost |
| ReplayRuns.SlowReplayLosesLetter | crates/sb-tx/src/memory/dead_store.rs:80-104 | so it is, with one message and one replay, when the message dies again before the replay removes |
| ReplayRuns.OverlappingReplaysReopenDone | crates/sb-tx/src/memory/dead_store.rs:80-104 | two replays that both read one letter: the message is revived and completed, and then pending again |
| DeadStore.InMemoryDeadStore.Replay | crates/sb-tx/src/memory/dead_store.rs:80-104 | three steps with anything the stores accept in between: missing if there is no letter, not found and nothing removed if there is no message by the time of the revive, and otherwise the message is revived and whatever is stored under the reference by then removed |
| DeadStore.ReplayIsAllowed | crates/sb-tx/src/memory/dead_store.rs:80-104 | a replay's revive is always by a letter that it has read, whatever happened since |
| DeadStore.InMemoryDeadStore.PurgeOlderThan | crates/sb-tx/src/memory/dead_store.rs:106-122 | removes exactly the tenant's older letters |
| BudgetGuard.SimpleBudgetGuard.OnDispatchAttempt | crates/sb-tx/src/qos.rs:82-118 | the in-place code admits an attempt if and only if there is room in flight and in the window, and keeps each tenant's budget that of the calls so far |
| BudgetGuard.AdmittedExactly | crates/sb-tx/src/qos.rs:82-118 | in every run an attempt is admitted if and only if fewer dispatches are in flight than configured, and fewer were admitted since the current window began than its limit; in flight are those admitted less those with a result |
| BudgetGuard.SimpleBudgetGuard.OnDispatchResult | crates/sb-tx/src/qos.rs:120-132 | the same for results |
| BudgetGuard.WindowHoldsCount | crates/sb-tx/src/qos.rs:93-109 | the current window holds at most the counted dispatches, and the count at most the limit |
| BudgetGuard.AtMostTwiceLimitPerWindowLength | crates/sb-tx/src/qos.rs:82-118 | for every sequence of calls under a non-decreasing clock, every interval of one window's length contains at most twice the limit of admitted dispatches of a tenant |
| BudgetGuard.TwiceLimitIsReached | crates/sb-tx/src/qos.rs:82-118 | for every limit and window there is a run that reaches twice the limit |
| BudgetGuard.InflightWithinMax | crates/sb-tx/src/qos.rs:87-92 | never more in flight than configured |
| BudgetGuard.InflightCountsOpenDispatches | crates/sb-tx/src/qos.rs:82-132 | the counter is the number of admitted dispatches without a result if and only if every result was for a dispatch in flight |
| Saga.InMemorySagaStore.Insert | crates/sb-tx/src/memory/saga_store.rs:18-26 | a new saga is stored; an id in use is refused |
| Saga.InMemorySagaStore.Save | crates/sb-tx/src/memory/saga_store.rs:32-40 | only a stored saga is replaced |
| Saga.SagaOrchestrator.Start | crates/sb-tx/src/saga.rs:37-64 | stores a saga of that id, tenant, name and timeout that runs, with every step of the definition untried and the first one next; or is refused because the id is in use |
| Saga.SagaOrchestrator.Tick | crates/sb-tx/src/saga.rs:66-81 | moves the saga on by one tick and touches no other saga |
| Saga.SagaOrchestrator.TickRunningStep | crates/sb-tx/src/saga.rs:83-135 | the in-place forward step computes the step function, calls included |
| Saga.SagaOrchestrator.TickCompensatingLoop | crates/sb-tx/src/saga.rs:137-195 | the compensation loop computes the recursive description, calls included |
| Saga.NothingTwice | crates/sb-tx/src/saga.rs:83-195 | one tick of any saga, resumed or not: no succeeded step is executed again, no compensated or skipped one compensated again, and a step found succeeded is passed without a call |
| SagaRuns.ForwardTicks | crates/sb-tx/src/saga.rs:83-135 | after n ticks without failure exactly steps 0..n were executed, once each in order; they are Succeeded and the rest Ready |
| SagaRuns.UndoOrderIsDescending | crates/sb-tx/src/saga.rs:137-195 | the compensation order is strictly descending |
| SagaRuns.UndoOrderLists | crates/sb-tx/src/saga.rs:153-163 | it lists exactly the steps below the cursor that have a compensation |
| SagaRuns.CompensationUnwinds | crates/sb-tx/src/saga.rs:137-195 | one compensating tick makes exactly the compensations in that order, cut at the first not answered yes, and ends Cancelled if none was cut and Failed otherwise, with the cursor just above the cut and the steps unwound down to it |
| SagaRuns.SuccessfulRun | crates/sb-tx/src/saga.rs:66-135 | a run all of whose steps succeed executes each once in order and is Completed, with all steps Succeeded |
| SagaRuns.FailedRun | crates/sb-tx/src/saga.rs:66-195 | a run whose step k fails executes 0..k in order, then compensates in descending order, and ends Cancelled, with every executed step Compensated or Skipped, or Failed, with exactly the steps above the cut Compensated or Skipped and those below as they were; later steps are never touched |
| SagaRuns.StartedRun | crates/sb-tx/src/saga.rs:37-195 | the whole run of the saga that starting stores: it keeps its id, tenant, name and times, and it is Completed with every step executed once in order, each stamped with its tick, or the steps up to the first that failed are unwound |
| SagaRuns.EveryRunTerminates | crates/sb-tx/src/saga.rs:66-195 | every started saga of n steps is in a terminal state after n+1 ticks |
| SagaRuns.TerminalStays | crates/sb-tx/src/saga.rs:66-81 | in a terminal state only the update time changes, and no call is made |
| Idempotency.InMemoryIdempoStore.CheckAndPut | crates/sb-tx/src/memory/idempo_store.rs:25-55 | the in-place code answers as the log of requests and outcomes determines |
| Idempotency.InMemoryIdempoStore.Finish | crates/sb-tx/src/memory/idempo_store.rs:57-67 | reports a result for an existing record, or not found |
| Idempotency.InMemoryIdempoStore.Fail | crates/sb-tx/src/memory/idempo_store.rs:69-78 | reports a failure for an existing record, or not found |
| Idempotency.SucceededHasDigest | crates/sb-tx/src/memory/idempo_store.rs:25-78 | a record that succeeded has a digest |
| Idempotency.GrantedExactlyWhenFresh | crates/sb-tx/src/memory/idempo_store.rs:25-55 | `Ok(None)` is answered if and only if no live record was there, and a fresh one is left |
| Idempotency.RecordIsHistory | crates/sb-tx/src/memory/idempo_store.rs:25-78 | in every run under a non-decreasing clock every field of the record of a key is what was asked for and reported since its last grant |
| Idempotency.RequestsAnsweredByHistory | crates/sb-tx/src/memory/idempo_store.rs:25-55 | every request is granted if and only if there was no grant or its ttl has passed since the last touch, and otherwise gets the last outcome since that grant, under the same hash only |
| Idempotency.ExpiredExactly | crates/sb-tx/src/memory/idempo_store.rs:25-55 | with any clock, a record is expired if and only if its ttl has passed or the clock reads earlier than its last touch |
| Idempotency.GrantsMoreThanTtlApart | crates/sb-tx/src/memory/idempo_store.rs:25-55 | two grants of one key are more than the first grant's ttl apart |
| StableSort.SortRefinesOrder | crates/sb-storage/src/mock/repo.rs:155-168 | a stable sort orders by its key first and by the order already there among ties |
| MockRepository.ComparableExactly | crates/sb-storage/src/mock/repo.rs:188-199 | the comparison, ascending or descending, is total and transitive on a set of rows if and only if their column holds one JSON type or no two of them compare different |
| MockRepository.MixedKindsAreNoOrder | crates/sb-storage/src/mock/repo.rs:188-199 | two different strings and a number are in no order |
| MockRepository.MayPrecedeMeans | crates/sb-storage/src/mock/repo.rs:155-199 | ascending, a row may stand before another if its number, string or boolean is not greater, and descending if it is not less |
| Orders.StringsCompareByFirstDifference | crates/sb-storage/src/mock/repo.rs:190 | strings are ordered by the first character in which they differ, a prefix before the longer string |
| MockRepository.SortedByAllKeys | crates/sb-storage/src/mock/repo.rs:155-168 | stable sorts from the last key to the first order the rows lexicographically by the whole specification, when each sort key orders the rows |
| MockRepository.KeptExactly | crates/sb-storage/src/mock/repo.rs:142-153 | the rows kept are exactly the tenant's matching ones, as often as they occur |
| MockRepository.SelectedIsSortedPrefix | crates/sb-storage/src/mock/repo.rs:142-172 | the page is the first `limit` rows of a permutation of these in that order |
| MockRepository.PageFollowsFirstKey | crates/sb-storage/src/mock/repo.rs:155-172 | so on the page the values under the first sort key ascend, or descend, as asked |
| MockRepository.InMemoryRepository.Select | crates/sb-storage/src/mock/repo.rs:128-185 | the imperative filter, sort and truncate return that page |
| ConfigTree.LeavesDetermineTree | crates/sb-config/src/loader.rs:221-235 | trees without empty nested objects are equal if they have the same leaves |
| ConfigMerge.MergeMaps | crates/sb-config/src/source/mod.rs:50-61 | the in-place merge, visiting the overlay in any order, computes the merge function |
| ConfigMerge.TouchesMeans | crates/sb-config/src/source/mod.rs:50-61 | a source touches a path if and only if it has a value there or a non-object at a strict prefix |
| ConfigMerge.LeafOfMerge | crates/sb-config/src/source/mod.rs:50-61 | a leaf of a merge is the overlay's where the overlay touches the path, and else the base's |
| ConfigMerge.LastTouchingSourceWins | crates/sb-config/src/loader.rs:39-44 | for any list of sources, the merged map holds a leaf if and only if the last source that touches its path does |
| ConfigMerge.MergeIsIdempotent | crates/sb-config/src/source/mod.rs:50-61 | merging the same overlay twice equals merging it once |
| ConfigMerge.NoTraceExactly | crates/sb-config/src/source/mod.rs:50-61 | merging onto a base leaves no trace of it if and only if the overlay says something wherever the base has a value |
| ConfigMerge.GroupingMattersExactly | crates/sb-config/src/source/mod.rs:50-61 | three layers merge to the same in either grouping if and only if nowhere a leaf of the middle one stands between two objects of which the upper does not cover the lower; layers must be merged from the lowest up |
| ConfigMerge.GroupingMatters | crates/sb-config/src/source/mod.rs:50-61 | an instance of it |
| ConfigPaths.DottedReadsBack | crates/sb-config/src/loader.rs:223-227 | a dotted key built from non-empty dot-free segments is split back into them |
| ConfigPaths.SegmentsAreGood | crates/sb-config/src/source/mod.rs:24 | every key splits into non-empty dot-free segments |
| ConfigPaths.GetRawLoop | crates/sb-config/src/snapshot.rs:26-41 | the cursor loop reads the tree along the key's path, and nothing at the empty path |
| ConfigPaths.PathExists | crates/sb-config/src/loader.rs:155-169 | `path_exists` is true if and only if `get_raw` reads something |
| ConfigInsert.InsertSegments | crates/sb-config/src/source/mod.rs:31-48 | the recursive insertion computes the insert function |
| ConfigInsert.MergeValue | crates/sb-config/src/source/mod.rs:23-29 | insertion under a dotted key; a key without segments changes nothing |
| ConfigInsert.GetAfterInsert | crates/sb-config/src/source/mod.rs:31-48 | what is read at every path after an insertion: the value at and below the path, an object strictly above it, and elsewhere what was there |
| ConfigInsert.LeavesAfterInsert | crates/sb-config/src/source/mod.rs:31-48 | the leaves afterwards are the new one and exactly those old ones neither above nor below it |
| ConfigInsert.InsertThrough | crates/sb-config/src/source/mod.rs:31-48 | inserting at a path is inserting in the object at any path above it |
| ConfigInsert.InsertsCommute | crates/sb-config/src/source/mod.rs:31-48 | insertions at paths of which neither is above the other commute |
| ConfigGood.MergeValueKeepsGood | crates/sb-config/src/source/mod.rs:23-48 | insertion under any key makes only keys a dotted path can name |
| ConfigGood.MergesKeepGood | crates/sb-config/src/loader.rs:39-44 | so does merging |
| ConfigFlatten.FlattenMap | crates/sb-config/src/loader.rs:221-235 | for any tree and any visiting order: exactly the leaves' dotted keys are written, each with a leaf written there, over what was there before |
| ConfigFlatten.FlatReads | crates/sb-config/src/snapshot.rs:26-41 | for trees with non-empty dot-free keys the flat map and `get_raw` agree: its keys are the canonical keys that read a leaf, mapped to that leaf |
| ConfigFlatten.FlattenRoundTrip | crates/sb-config/src/source/mod.rs:23-48 | inserting the flattened entries into an empty map, in any order, rebuilds the tree if and only if it has no empty nested object |
| ConfigChanges.ComputeChangedKeys | crates/sb-config/src/loader.rs:237-255 | the list is strictly sorted, and contains a key if and only if it is canonical and the leaf `get_raw` reads there differs between the snapshots |
| ConfigChanges.ReportIsUnique | crates/sb-config/src/loader.rs:241-254 | so there is one such list, independent of hash order |
| ConfigChanges.UnnameableKeyIsUnreadable | crates/sb-config/src/loader.rs:221-235 | a leaf under one key is always flattened under it, and read there if and only if the key is not empty and has no dot |
| ConfigDefaults.ApplyDefaults | crates/sb-config/src/loader.rs:88-101 | the loop over declared fields computes the default filling |
| ConfigDefaults.EveryDefaultExists | crates/sb-config/src/loader.rs:94-96 | every default with a path can be read afterwards |
| ConfigDefaults.ExistingKeepsExisting | crates/sb-config/src/loader.rs:88-101 | whatever could be read before can be read after |
| ConfigDefaults.LeafSurvivesExactly | crates/sb-config/src/loader.rs:88-101 | a leaf survives if and only if no default's path leads on through it; otherwise an object takes its place |
| ConfigDefaults.DefaultOverridesSource | crates/sb-config/src/loader.rs:88-101 | so a default can destroy a value a source set |
| ConfigDefaults.DefaultOrSource | crates/sb-config/src/loader.rs:88-101 | where default paths are prefix-free, each path reads the sources' value if they had one and its default otherwise |
| ConfigDefaults.CommuteExactly | crates/sb-config/src/loader.rs:91-98 | two defaults come to the same in either order, whatever the sources hold, if and only if they do on an empty map |
| ConfigDefaults.ApartAndLeavesCommute | crates/sb-config/src/loader.rs:91-98 | they do when neither path leads to the other, and when a default that is not an object stands above another |
| ConfigDefaults.DefaultsInAnyOrder | crates/sb-config/src/loader.rs:88-101 | where every two defaults do, which is enough for a whole list, the result does not depend on the order in which namespaces and fields are visited |
| ConfigDefaults.OrderShows | crates/sb-config/src/loader.rs:88-101 | an object given as a default and a default inside it do not |
| ConfigDefaults.OthersCanHideOrder | crates/sb-config/src/loader.rs:88-101 | but a list can give one result in all its orders although two of its defaults do not commute |
| ConfigDefaults.LeafHasOrigin | crates/sb-config/src/loader.rs:88-101 | filling adds no leaf but those of defaults, at their places |
| ConfigDefaults.LoadWithPrev | crates/sb-config/src/loader.rs:35-85 | merging, default filling and change report together; for sources and defaults with nameable keys the snapshot has nameable keys and the report is exact |
| ConfigDefaults.LoadedLeafOfSource | crates/sb-config/src/loader.rs:39-46 | the leaf of the last source that touches a path is loaded if and only if no default's path leads on through it |
| ConfigDefaults.LoadedLeafHasOrigin | crates/sb-config/src/loader.rs:39-46 | every loaded leaf is that of the last source that touches its path, or comes from a default |

## Left out

- Text: clauses are token sequences, so lexing, and field names equal to keywords of the query language, are not modelled; that the database parses NOT above AND above OR is an assumption.
- The comparison operators themselves: how a record answers `=`, `<`, `IN` or `CONTAINS` is an arbitrary function, so every theorem holds for every such semantics.
- JSON objects in filters, rows and leaves are lists of entries in iteration order; comparing two such objects for equality is therefore order-sensitive in the model.
- Numbers are reals: the rounding of floating-point numbers in row comparisons is not modelled.
- FilterNecessity.UsualExactlyIfHarmless: covers filters whose comparisons are pairwise different. Where a comparison repeats, whether a dropped subfilter shows depends on whether the rest is true of every record or of none, so no condition on the shape alone is also necessary; the meaning with the dropping rule is proved of all filters instead.
- MockRepository.SortedByAllKeys: covers sort keys that order the rows. For others the library's sort promises nothing, so the order of the result, which depends on its algorithm, is not modelled.
- Times are unbounded integers, except where the source's width shows: the 32-bit attempt counter saturates, the idempotency difference wraps modulo 2^64, and the window length is read as a signed 64-bit value of at least one second. Overflow of the window's milliseconds, of `now_ms + lease_ms` and of the in-flight counter, is not modelled.
- The wall clock, backoff delays, random ids and iteration orders of hash maps are parameters; one clock reading stands for all those of a saga tick.
- DatabaseLease.DatabaseOutboxStore.LeaseBatch: models the candidate query as one atomic read and each conditional update as atomic; failures of the database connection are left out.
- Dispatcher.Tick: calls the in-memory store; errors of the store itself, which end a tick in the source, do not occur here. A tick cut short between a send and its settlement is the unsettled send of `OutboxSends`. Others do anything the stores accept, but not under this worker's id.
- ConfigDefaults.DefaultsInAnyOrder: for a whole list the condition is sufficient, not necessary (`OthersCanHideOrder`); for two defaults it is exact (`CommuteExactly`).
- Pagination.FollowingVisitsAllExactly: as the theorem for one page size, over rows that do not change between the pages.
- DeadStore.InMemoryDeadStore.Replay: covers outbox letters; nothing in the repository pushes saga letters, so replaying them is left out, as are listing and fetching letters.
- Saga.SagaOrchestrator.Tick: a tick of one saga is atomic; concurrent ticks of one saga are left out. Step fields that no operation reads (retry, timeout, attempts, idempotency key) are omitted.
- ConfigDefaults.LoadWithPrev: secret resolvers, validators, schema enforcement, checksums, provenance and failing sources are left out; the snapshot is the tree before secrets are resolved in it.
- Budget settings other than the in-flight and per-window limits, metrics and the A2A hooks are left out.
- The database versions of the idempotency, saga and dead-letter stores, and `insert_raw`, are left out.
- Of the mock and database repositories everything but select is left out: reading, creating, patching (with its version check) and deleting one row by its id, and the tenant check on it.
- Transports, worker loops and the other crates (gateway, LLM, interceptors, auth, tools, sandbox, errors, types) are input/output or thin wrappers.
