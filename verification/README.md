# Verified model of CodeBadger's admission, queueing, scoping and rendering cores

CodeBadger serves code-analysis queries from a pool of Joern servers. This project models, in
Dafny, the parts of it whose correctness is a matter of protocol or of text, and proves what
they guarantee over every input or every run.

| file | what it models |
|---|---|
| `PortManager.dfy` | the rotating host-port allocator |
| `PoolStore.dfy`, `PoolProtocol.dfy`, `PoolAdmission.dfy` | the shared Redis ledger, admission under the admit lock as atomic Redis steps interleaved with releases and touches of other processes, and the loops that take those steps |
| `PoolUse.dfy`, `PoolMakeRoom.dfy`, `Eviction.dfy` | what the ledger and its order of eviction say about the calls made so far, and whom an admission evicts |
| `ServerManager.dfy`, `ServerViews.dfy`, `ServerBudget.dfy`, `ServerUse.dfy` | the in-process bookkeeping of servers, what make-room does to it, the memory budget over all interleavings, and the order of last use |
| `ServerAgreement.dfy`, `ServerSequential.dfy`, `ServerRaces.dfy` | the interleavings of spawns, touches, terminations and evictions, each split wherever the state lock is given up; the same calls undisturbed; and the interleavings that break the agreement of the tables |
| `JobStore.dfy`, `JobQueue.dfy`, `JobLine.dfy`, `JobOutcome.dfy` | the durable job table, its interleavings with every statement of an enqueue as a step of its own, the place of one job in the line, and how a job ended |
| `Strings.dfy`, `QueryRendering.dfy`, `QueryLoader.dfy`, `QueryInjection.dfy`, `QueryValues.dfy` | Python's `replace`, the Scala string escaper, the query templates, and the numbers and booleans put into them |
| `RegexText.dfy`, `BuildScoping.dfy`, `ScopeRegex.dfy`, `GlobLiterals.dfy` | the full-match meaning and the parser of the regular expressions in use, the glob compiler that emits their text, the scope built from it, and both said of globs and extensions as they are written |
| `GlobTokens.dfy`, `GlobSegments.dfy`, `GlobAgreement.dfy`, `GlobAbsorption.dfy` | an independent segment-by-segment reading of globs, and which globs it agrees with the compiled text on |
| `RateLimiter.dfy`, `ClientRates.dfy` | the token bucket, and the dispatcher with one for each client |
| `MemoryEnvelope.dfy` | the memory recommendation and the startup guards |

Code that changes state in place is a class here, with a specification function on values that
its methods are proved to follow; the theorems are about runs of that specification. A run is
any sequence of actions, and an action that is not enabled changes nothing, so a statement
about all runs is a statement about all interleavings. The compilers emit text, and what that
text means is decided by parsing it, never by the shape of the compiler.

## What came out

Besides what the code keeps, the model shows where it falls short of what its own text
promises. In each case the code is modelled as it is, and the exact condition is proved.

* `src/utils/recommend.py:126-130` promises that build cap and query budget add up to the Joern
  budget. They do exactly when one query server fits beside the build reserve; with the default
  heaps a host under 21 GB is always over-committed (`RecommendationSharesTheHost`).
* `src/startup_tuning.py:30-35` promises that the guard holds build cap plus worker budget within
  the Joern budget. It does exactly when the cap leaves room for the smallest tier; where it does
  not, the guard raises even a budget that fitted (`GuardRestoresTheBoundIff`).
* The wait of a refused request suffices exactly when the bucket refills and can ever hold the
  amount (`RetryAfterSuffices`).
* A `max_retries` of 3 gives a job two claims, because a claim and a restart both count an
  attempt (`ClaimsAreBounded`, `ClaimsReachTheBound`).
* Concurrent enqueuers overshoot the queue limit by at most their number less one, for every limit
  and number of enqueuers some run does, and so the limit holds exactly with one enqueuer
  (`QueueOvershootIsBounded`, `OvershootIsReached`, `LimitHoldsIffOneEnqueuer`).
* A reported queue position is the number of the claim that hands the job out exactly when no
  enqueuer that read the clock earlier inserts later; each one that does costs one place
  (`LineAdvances`, `ServedByExactlyTheKthClaim`, `SlowEnqueuerOvertakes`).
* In process, spawning is all-or-nothing and the tables agree (`AgreementHolds`) as long as no
  codebase is spawned twice at once and no other call takes one out of the tables while it is
  booting, or adds to the tables one that has left them. Nothing in
  `src/services/joern_server_manager.py` rules these out: `_teardown_codebase`
  (`src/tools/core_tools.py:163-164`) terminates any registered server, the reaper evicts without
  the lock (line 1131), and the lock is given up between a look-up and the step it leads to
  (lines 194-195, 991-1023, 868-914).
    * A codebase removed, or evicted, while its spawn is booting is settled after that spawn
      exactly when the spawn fails (`RemovedWhileBootingSettlesIff`,
      `EvictedWhileBootingSettlesIff`). From the start, a termination during a wait that then
      ends well leaves an entry in the eviction order alone (`TerminatedWhileWaiting`), and over
      that entry two codebases come to register one port though none is ever spawned twice at once
      (`LeftoverSharesAPort`).
    * The end of an eviction, and a touch, leave a codebase settled exactly when nobody has
      registered it again, or it is registered still (`LateTailSettlesIff`,
      `LateTouchSettlesIff`); the first can take the reservation of a server spawned meanwhile
      (`LateTailTakesTheReservation`).
    * A second spawn of a codebase whose first spawn is in flight leads to two servers on one port
      (`DoubleSpawnSharesAPort`). The spawning set does not rule it out: a failed spawn leaves the
      set before its handler has cleaned up (`LateHandlerFreesTheNextSpawn`).
* Without Redis a memory budget can be exceeded by several servers, but only by such as were all
  booting at one moment, when none of them could be evicted yet (`ServerBudget.BudgetHolds`,
  `SequentialBudgetHolds`); in Redis mode never by more than one (`PoolProtocol.BudgetHolds`).
* In Redis mode the eviction order contains the ledger. It holds a codebase more exactly when that
  codebase was touched while unreserved and not released, evicted or claimed since
  (`StrayIffTouchOutstanding`, `OrderIsLedgerIff`), which a touch coming after a release brings
  about (`LateTouchOutlivesItsReservation`).
* The sentinel hides brace pairs inside one value only. Wherever a string placeholder touches
  another one or follows an opening brace, values can spell a placeholder across the junction
  (`TouchingPlaceholdersInject`, `BraceBeforePlaceholderInjects`); where no opening brace and no
  string placeholder touches another, the loop is one simultaneous substitution
  (`LoadIsSimultaneous`).
* A compiled glob reads `**` inside a longer segment as taking slashes, and `**/` there as nothing
  at all. A glob without a `**` segment therefore means what its segments mean exactly when it
  holds no `**` (`SegmentWiseIffPlainStars`). A `**` segment can absorb the difference: a glob
  without empty segments means what its segments mean exactly when no `**/` stands inside a longer
  segment and from every `**` inside one only stars and slashes lead to a `**` segment
  (`SegmentWiseIffAbsorbed`). So `**/***` agrees on every path (`AbsorbedThoughNotPlain`), and an
  empty segment between the two breaks it (`EmptySegmentStopsAbsorption`).
* Trimming a glob takes the dot off a hidden directory's name, so that such a glob keeps nothing
  in it (`HiddenPathsAreNeverKept`).
* `queue_position` is documented as a position among all queued jobs
  (`src/utils/postgres_job_store.py:305`); the code counts those of the same type, which is what
  is modelled.

## Model

| member | source | states |
|---|---|---|
| PortManagers.PortManager.AllocatePort | src/services/port_manager.py:31-59 | allocation returns a held port again, else the specified free one, and keeps both dictionaries inverse and the free set their complement |
| PortManagers.PortManager.ReleasePort | src/services/port_manager.py:66-79 | release frees exactly the session's port and reports whether it held one |
| PortManagers.PortManager.ReleaseAllPorts | src/services/port_manager.py:96-103 | afterwards every port of the range is free again and the cursor is where it was |
| PortManagers.AllocateValid | src/services/port_manager.py:31-59 | an allocation succeeds if and only if the session holds a port or one is free, and never hands out a port in use |
| PortManagers.AllocateAgain | src/services/port_manager.py:34-38 | a session that holds a port is given the same one again, and nothing changes |
| PortManagers.FreshPortsAscend | src/services/port_manager.py:16-22 | from a fresh range different sessions are given its ports in ascending order |
| PortManagers.PickIsFirstInCyclicOrder | src/services/port_manager.py:26-29 | the pick lies cyclically between the cursor and any other free port at or past the cursor |
| PortManagers.ReissueNeedsFullSweep | src/services/port_manager.py:44-54 | between two hand-outs of one port, over any operations, every other port of the range was unavailable at some moment |
| PortManagers.ImmediateReissueIffOnlyFreePort | src/services/port_manager.py:44-54 | a port allocated and released is the next one given if and only if it was the only free one |
| Basics.SumValues | src/services/pool_store.py:83-84 | the loop adds up all reservations; the in-process manager sums its own the same way |
| PoolStores.RedisPoolStore.Claim | src/services/pool_store.py:89-101 | reservation, registration and touch happen together |
| PoolStores.RedisPoolStore.Release | src/services/pool_store.py:143-154 | all four entries of a codebase go together |
| PoolStores.RedisPoolStore.Oldest | src/services/pool_store.py:161-166 | the scan of the sorted set returns its first member that is not excluded |
| PoolStores.RedisPoolStore.AllocatePort | src/services/pool_store.py:121-141 | the scan loop from the advanced cursor equals its specification; only the cursor changes |
| PoolStores.ZAddKeeps | src/services/pool_store.py:158-159 | a touch keeps the sorted set sorted, with one entry for the member at its new score and all other entries untouched |
| PoolStores.OldestIsLeast | src/services/pool_store.py:161-166 | the victim is the least recently touched member not excluded; there is none if and only if all are excluded |
| PoolStores.SweepVisitsEachPortOnce | src/services/pool_store.py:136-138 | for any cursor value the sweep passes each port of the range exactly once |
| PoolStores.AllocateFailsIffAllTaken | src/services/pool_store.py:134-141 | no port is returned if and only if all are taken; a returned one is free and in range |
| PoolStores.EveryFreePortComesRound | src/services/pool_store.py:121-141 | with nothing registered in between, each free port is the answer to one of as many allocations as the range has ports |
| PoolStores.EmptyRangeIsSweptInTurn | src/services/pool_store.py:121-141 | with nothing registered successive answers go round the range, starting behind the cursor |
| PoolProtocol.BudgetHolds | src/services/joern_server_manager.py:337-363 | over every interleaving the reservations sum to at most the budget, or one server alone exceeds it |
| PoolProtocol.LedgerStaysConsistent | src/services/pool_store.py:89-159 | every reachable ledger has the same keys in reservations and registry, all of them in the eviction order, and no port twice |
| PoolProtocol.StrayIffTouchOutstanding | src/services/pool_store.py:143-159 | in every reachable ledger a codebase is in the eviction order without a reservation if and only if it was touched while unreserved and not released, evicted or claimed since |
| PoolProtocol.OrderIsLedgerIff | src/services/pool_store.py:89-159 | so the eviction order lists exactly the reserved codebases if and only if no such touch is outstanding |
| PoolProtocol.LateTouchOutlivesItsReservation | src/services/pool_store.py:143-159 | on every configuration with a port, a codebase admitted, released and then touched ends that way |
| PoolUse.ScoreIsLastUse | src/services/pool_store.py:89-101 | in every reachable ledger a codebase stands in the order at the clock reading of the last step that touched or claimed it |
| PoolUse.VictimIsLeastRecentlyUsed | src/services/pool_store.py:158-166 | the victim is a codebase whose last use is no later than that of any other not excluded, and there is none if and only if all are excluded |
| PoolUse.LedgerTellsTheSteps | src/services/pool_store.py:89-154 | reservation, port and worker of a codebase are those last claimed and named and not released since |
| PoolProtocol.NoPortIsUnreachable | src/services/joern_server_manager.py:506-515 | on a non-empty port range the missing-port error is never reached, whatever other processes do |
| PoolProtocol.AdvanceKeepsInv | src/services/joern_server_manager.py:337-363 | each Redis step of make-room, allocation and claim keeps budget, consistency and what the next step relies on |
| PoolProtocol.AdmissionTerminates | src/services/joern_server_manager.py:344-362 | the lock holder takes at most three steps per known codebase plus a constant, whatever other processes do meanwhile |
| PoolAdmission.EvictToBudget | src/services/joern_server_manager.py:348-356 | the budget loop leads where its steps lead, terminates, and lists its victims without repetition |
| PoolAdmission.EvictToPort | src/services/joern_server_manager.py:357-363 | the port loop leads where its steps lead, terminates, and repeats no victim of either loop |
| PoolAdmission.Admit | src/services/joern_server_manager.py:507-515 | the whole locked section ends where its steps end, with budget and consistency kept, fails exactly on an empty port range, and otherwise has registered and reserved what it returns |
| PoolAdmission.AloneIsARun | src/services/joern_server_manager.py:337-363 | an undisturbed admission is one of the runs all statements about runs speak of |
| PoolMakeRoom.AdmissionEvictsAsNeeded | src/services/joern_server_manager.py:337-363 | an undisturbed admission evicts the shortest prefix of the order that fits the budget, further members only while no port is free, and claims what was asked for on a free port |
| JoernServers.JoernServerManager.Touch | src/services/joern_server_manager.py:151-161 | the codebase moves to the end of the eviction order and its time is recorded |
| JoernServers.JoernServerManager.CleanupServer | src/services/joern_server_manager.py:1306-1319 | the codebase leaves every table and its port is free |
| JoernServers.JoernServerManager.TerminateServer | src/services/joern_server_manager.py:989-1024 | cleans up if and only if the codebase has an exec id, and says so |
| JoernServers.JoernServerManager.Evict | src/services/joern_server_manager.py:183-208 | eviction removes the codebase from order, reservations and ports also when termination did nothing |
| JoernServers.JoernServerManager.EvictToBudget | src/services/joern_server_manager.py:370-376 | the first make-room loop equals its specification, and terminates |
| JoernServers.JoernServerManager.EvictToPort | src/services/joern_server_manager.py:380-383 | the second make-room loop equals its specification, and terminates |
| JoernServers.JoernServerManager.MakeRoom | src/services/joern_server_manager.py:365-391 | memory mode, count mode and the pressure backstop together |
| JoernServers.JoernServerManager.BeginSpawn | src/services/joern_server_manager.py:571-587 | the locked part of a spawn: guard, stale entry, room, port, reservation |
| JoernServers.JoernServerManager.SpawnServer | src/services/joern_server_manager.py:559-636 | a whole spawn for every way the start and the wait can end, handler included |
| ServerViews.EvictionStrandsNothing | src/services/joern_server_manager.py:183-208 | an eviction leaves its codebase no port, reservation or place in the order, also when the tables were out of step, and touches no other codebase |
| ServerViews.BudgetEvictsShortestPrefix | src/services/joern_server_manager.py:370-376 | the shortest prefix of the eviction order that fits the budget is evicted, nothing else changes, and it ends over budget only with an empty order |
| ServerViews.PortLoopEvictsAtMostOne | src/services/joern_server_manager.py:380-383 | the second loop evicts one server exactly when no port is free and a server is left, and then a port is free |
| ServerViews.MakeRoomEvictsPrefix | src/services/joern_server_manager.py:365-391 | make-room evicts a prefix of the eviction order, of exactly the length that budget, ports or cap, and memory pressure ask for |
| ServerBudget.SpawnMakesRoom | src/services/joern_server_manager.py:571-587 | a spawn evicts the shortest prefix that lets its own reservation fit, and no more than ports and pressure add; it fails if and only if no port came free, else reserves what was asked for and ends within the budget unless nothing was left to evict |
| ServerBudget.BudgetHolds | src/services/joern_server_manager.py:365-391 | at every moment of every disciplined interleaving the reservations fit the budget, or all of them are of servers that were booting together at one moment |
| ServerBudget.SequentialBudgetHolds | src/services/joern_server_manager.py:365-391 | with one spawn in flight at a time they fit it, or one server alone exceeds it |
| ServerUse.OrderIsByLastUse | src/services/joern_server_manager.py:151-161 | in every interleaving the eviction order is the order of the steps that last used its codebases, each with the clock reading of that step |
| ServerSequential.SpawnIsItsSteps | src/services/joern_server_manager.py:559-636 | a spawn called alone is the run of its separately locked steps |
| ServerSequential.SpawnIsAllOrNothing | src/services/joern_server_manager.py:559-636 | a returned port is the one the server holds in every table; after any failure the codebase is in none; all other tables still agree |
| ServerSequential.FailuresClearAtOnce | src/services/joern_server_manager.py:598-626 | a missing container and a time-out clear the codebase before the spawning mark is dropped; other errors leave it to the handler |
| ServerSequential.RemovalIsItsSteps | src/services/joern_server_manager.py:183-208 | a termination or an eviction with nothing in between is the run of its separately locked steps |
| ServerAgreement.DoKeepsInv | src/services/joern_server_manager.py:559-636 | each separately locked step of a spawn, a touch, a termination or an eviction keeps the agreement of all tables with the phases of the spawns in flight |
| ServerAgreement.AgreementHolds | src/services/joern_server_manager.py:559-636 | over every interleaving without two spawns of one codebase and without an untimely removal or touch, a codebase not in flight is in all tables with one port or in none |
| ServerAgreement.QuiescentTablesAgree | src/services/joern_server_manager.py:559-636 | with no spawn in flight all tables have one key set and the free ports are exactly those no server holds |
| ServerRaces.RobbedSpawnSettlesIff | src/services/joern_server_manager.py:589-636 | a spawn that has lost its reservation leaves its codebase settled if and only if it fails |
| ServerRaces.RemovedWhileBootingSettlesIff | src/services/joern_server_manager.py:989-1024 | so does one whose codebase a termination or an eviction removes while it boots |
| ServerRaces.EvictedWhileBootingSettlesIff | src/services/joern_server_manager.py:365-391 | so does one whose codebase, touched early, another spawn's make-room evicts |
| ServerRaces.LateTailSettlesIff | src/services/joern_server_manager.py:195-208 | the end of an eviction leaves a codebase not in flight settled if and only if it has not been registered again |
| ServerRaces.LateTouchSettlesIff | src/services/joern_server_manager.py:868-914 | a touch leaves a codebase not in flight settled if and only if it is registered still |
| ServerRaces.TerminatedWhileWaiting | src/services/joern_server_manager.py:989-1024 | from the start, a termination during a wait that ends well leaves the codebase in the eviction order alone |
| ServerRaces.LeftoverSharesAPort | src/services/joern_server_manager.py:365-391 | going on from there, under any memory budget the server fits, two codebases register one port with no codebase spawned twice at once |
| ServerRaces.LateTailTakesTheReservation | src/services/joern_server_manager.py:194-208 | from the start, an eviction that has cleaned up takes reservation and place in the order of the server spawned meanwhile |
| ServerRaces.DoubleSpawnSharesAPort | src/services/joern_server_manager.py:575-576 | a second spawn of one codebase lets two servers register one port |
| ServerRaces.LateHandlerFreesTheNextSpawn | src/services/joern_server_manager.py:625-636 | a spawn begun between a failed one's leaving and its handler loses port and reservation to that handler |
| JobStores.PostgresJobStore.EnqueueJob | src/utils/postgres_job_store.py:171-200 | answers and effect of an undisturbed enqueue: duplicate before full before inserted |
| JobStores.PostgresJobStore.ClaimNextJob | src/utils/postgres_job_store.py:213-250 | a claim takes an oldest queued job of the type, and nothing if and only if there is none |
| JobStores.PostgresJobStore.FinishJob | src/utils/postgres_job_store.py:258-267 | a success is stored as done and a failure as failed, by id alone, and every other row and field is as it was |
| JobStores.PostgresJobStore.QueuePosition | src/utils/postgres_job_store.py:304-327 | one more than the number of queued jobs of the type created earlier; none if and only if no such job is queued |
| JobStores.PostgresJobStore.RequeueRunningJobs | src/utils/postgres_job_store.py:343-400 | the loop recovers every running row, failing those out of attempts, and counts them |
| JobQueue.EnqueueIsItsSteps | src/utils/postgres_job_store.py:171-200 | an enqueue undisturbed by others is the run of its separate statements: checked, counted, inserted |
| JobQueue.DoOnRows | src/utils/postgres_job_store.py:171-400 | no step of any operation revives a finished job, changes a row's identity, or adds a second active job |
| JobQueue.AtMostOneActiveJob | src/utils/postgres_job_store.py:171-267 | in every reachable table at most one job per codebase and type is active |
| JobQueue.ResubmitOnlyAfterFinish | src/utils/postgres_job_store.py:171-267 | a second job for a pair is inserted only after the first has finished, and the first stays finished |
| JobQueue.QueueOvershootIsBounded | src/utils/postgres_job_store.py:171-200 | with N enqueuers and no restart at most max_queued - 1 + N jobs are queued |
| JobQueue.OvershootIsReached | src/utils/postgres_job_store.py:171-200 | for every limit and every set of enqueuers some run from the empty table, without a restart, queues exactly that many |
| JobQueue.LimitHoldsIffOneEnqueuer | src/utils/postgres_job_store.py:184-197 | the limit is kept by every run without a restart if and only if there is one enqueuer |
| JobQueue.ClaimsAreBounded | src/utils/postgres_job_store.py:343-400 | over all crashes and restarts a job is claimed at most ceil((max_retries + 1) / 2) times |
| JobQueue.ClaimsReachTheBound | src/utils/postgres_job_store.py:343-400 | some run from the empty table, one enqueue and then claims and restarts, reaches that number |
| JobLine.LineAdvances | src/utils/postgres_job_store.py:304-327 | while a job waits, its position falls by one per claim of its type and rises by one per job inserted with an earlier creation time, and by nothing else |
| JobLine.NotServedBefore | src/utils/postgres_job_store.py:213-250 | fewer claims of its type than its position leave a job waiting |
| JobLine.ServedByExactlyTheKthClaim | src/utils/postgres_job_store.py:304-327 | a job at position k that m jobs overtake is handed out by the (k + m)-th following claim of its type and no other, so by the k-th if and only if nobody overtakes it |
| JobLine.SlowEnqueuerOvertakes | src/utils/postgres_job_store.py:174 | from the empty table, of any two enqueuers the one that reads the clock first and inserts last takes the other's first place |
| JobOutcomes.StatusTellsTheLastVerdict | src/utils/postgres_job_store.py:258-400 | in every run a job is done if and only if the last decided about it was a worker's success, and failed if and only if that was a worker's failure or a restart that found its attempts used up |
| QueryRendering.PassesEscapeEachCharOnce | src/utils/query_rendering.py:14-22 | the chained passes never rewrite each other's output: together they escape each character once |
| QueryRendering.LiteralReadsBack | src/utils/query_rendering.py:6-22 | a reader of string literals consumes exactly the escaped text, stops at the quote, and returns the original, for every text |
| QueryRendering.NoControlsAreLeft | src/utils/query_rendering.py:14-22 | the escaped text holds no line break, tab, backspace or form feed, for every text |
| QueryRendering.EscapeIsInjective | src/utils/query_rendering.py:6-22 | different texts never become the same literal |
| QueryLoaders.QueryLoader.LoadQuery | src/tools/queries/__init__.py:96-144 | the caching loop equals the specification of the rendering, failures included |
| QueryLoaders.FailsIffSomeValueFails | src/tools/queries/__init__.py:55-76 | rendering fails if and only if some integer or boolean value cannot be read |
| QueryLoaders.LoadIsSimultaneous | src/tools/queries/__init__.py:126-144 | where no opening brace and no string placeholder touches another, one replace after another is one simultaneous substitution with every brace pair back in place |
| QueryLoaders.OrderDoesNotMatter | src/tools/queries/__init__.py:129-139 | the order of the keyword arguments does not matter |
| QueryLoaders.QuotedPlaceholderReadsBack | src/tools/queries/__init__.py:79-144 | a string placeholder between quotes reads back as exactly the caller's value, and the query goes on unchanged |
| QueryValues.NumbersAreBounded | src/tools/queries/__init__.py:26-62 | limits become a decimal numeral from 1 to 10000 and depths one from 1 to 64, the nearest to what was asked; line numbers and node ids the numeral of the integer, or a failure |
| QueryValues.BooleansAreRead | src/tools/queries/__init__.py:64-76 | a boolean placeholder becomes true or false by the value, or by the word the text says in any case and between blanks, and fails if and only if it says none |
| QueryValues.OthersAreStrings | src/tools/queries/__init__.py:26-49 | exactly the thirteen names of the three lists are no strings |
| QueryInjection.BraceBeforePlaceholderInjects | src/tools/queries/__init__.py:79-93 | in any template with an opening brace right before a string placeholder, a value without a brace pair gets a placeholder filled that the template does not have |
| QueryInjection.TouchingPlaceholdersInject | src/tools/queries/__init__.py:79-93 | so do values without a brace pair in any template in which two string placeholders touch |
| RegexText.AltIsLocalBeforeParen | src/utils/build_scoping.py:99 | a parsed alternative means the same inside a group as alone, so parts can be joined as text |
| BuildScoping.GlobToPathRegex | src/utils/build_scoping.py:23-63 | trimming, the tokenizer and the directory suffix emit the specified text |
| BuildScoping.TranslateTokens | src/utils/build_scoping.py:42-59 | the tokenizer loop equals its specification |
| BuildScoping.GlobTextParses | src/utils/build_scoping.py:23-63 | the emitted text is a well-formed regex, alone or in a group, for every glob |
| BuildScoping.GlobCompilesCorrectly | src/utils/build_scoping.py:23-63 | the emitted regex full-matches a path if and only if the glob accepts it, for every glob and every path |
| GlobLiterals.TrimmingIsIgnored | src/utils/build_scoping.py:31 | blanks around a glob and dots and slashes before it do not change the emitted text |
| GlobLiterals.DirectoryKeepsItsSubtree | src/utils/build_scoping.py:35-62 | a name without wildcard and dot keeps exactly the one-line paths that go on below it, with or without a slash at its end |
| GlobLiterals.SlashEndedKeepsSubtree | src/utils/build_scoping.py:35-62 | a glob that ends in slashes keeps exactly what lies below a directory it matches |
| GlobLiterals.NameKeepsSubtree | src/utils/build_scoping.py:35-62 | without such slashes it does so if and only if it holds no wildcard and no dot, and else keeps exactly the paths it matches |
| GlobSegments.GlobMatchesSegments | src/utils/build_scoping.py:26-30 | with every `**` a segment of its own, a compiled glob means segment-wise matching |
| GlobSegments.WildcardsKeepTheDepth | src/utils/build_scoping.py:49-54 | without `**` a glob matches only paths with as many segments as it has |
| GlobSegments.TightMeansSegments | src/utils/build_scoping.py:26-30 | reading every double star inside a longer segment as a star is segment-wise matching, for every glob and one-line path |
| GlobAgreement.SegmentWiseIsAbsorbed | src/utils/build_scoping.py:42-59 | a glob that agrees with its segments on all one-line paths has no `**/` inside a longer segment, and from each `**` inside one only stars and slashes lead to a `**` segment |
| GlobAbsorption.SegmentWiseIffAbsorbed | src/utils/build_scoping.py:42-59 | for a glob without empty segments that condition is exact |
| GlobAbsorption.SegmentWiseIffPlainStars | src/utils/build_scoping.py:43-48 | a glob without a `**` segment agrees with its segments if and only if it holds no `**` |
| GlobAbsorption.AbsorbedThoughNotPlain | src/utils/build_scoping.py:43-48 | `**/***` agrees with its segments on every one-line path though its second `**` is no segment |
| GlobAbsorption.EmptySegmentStopsAbsorption | src/utils/build_scoping.py:43-48 | `**//***` meets the condition and does not agree, so empty segments have to be excluded |
| GlobAbsorption.GlobKeepsMatchingSegments | src/utils/build_scoping.py:23-63 | where every `**` is a segment or absorbed, the emitted regex keeps a one-line path if and only if the segments match, or for a directory those of a directory above it |
| GlobAbsorption.EmittedTextIsSegmentWiseIff | src/utils/build_scoping.py:23-63 | for a glob without empty segments that names no directory the emitted regex keeps exactly the segment matches if and only if its double stars are absorbed |
| GlobSegments.HiddenPathsAreNeverKept | src/utils/build_scoping.py:31 | unless it starts with a wildcard no glob keeps a path that starts with a dot |
| ScopeRegex.NoScopeIffNothingUsable | src/utils/build_scoping.py:73-80 | there is no scope if and only if no glob or no extension is usable |
| ScopeRegex.ScopeExcludesOutOfScopeSources | src/utils/build_scoping.py:66-85 | the emitted regex drops a path if and only if it is one line, ends in a source extension and no glob keeps it |
| GlobLiterals.ScopeDropsOtherSources | src/utils/build_scoping.py:66-85 | said of the entries as written: the emitted regex drops a path if and only if it is one line, ends in a dot and an extension listed with or without dots before it, and the text of no glob keeps it |
| ScopeRegex.CombinedMatchesUnion | src/utils/build_scoping.py:88-99 | the combination parses and full-matches exactly the union of its parts |
| ScopeRegex.ScopingDropsOnlySources | src/utils/build_scoping.py:66-99 | combined with any other exclusions, scoping never drops a kept path or one without a source extension |
| RateLimiter.TokenBucket.constructor | src/api/rate_limiter.py:25-29 | a new bucket is full |
| RateLimiter.TokenBucket.Consume | src/api/rate_limiter.py:31-47 | refill, decision, debit and wait of one call |
| RateLimiter.GrantedIffEveryWindowFits | src/api/rate_limiter.py:31-42 | a request is granted if and only if it fits the capacity and every window since an earlier request |
| RateLimiter.WindowIsBounded | src/api/rate_limiter.py:31-42 | any window of length d takes at most the capacity plus d times the fill rate, for every run |
| RateLimiter.RefusalsLeaveNoTrace | src/api/rate_limiter.py:33-47 | leaving out any refused requests, wherever they stand in a run, changes none of the other answers |
| RateLimiter.RetryAfterSuffices | src/api/rate_limiter.py:44-47 | waiting as told is enough if and only if the bucket refills and can hold the amount, and then no shorter whole wait is |
| ClientRates.ClientHasOneBucket | src/api/rate_limiter.py:88-93 | whatever the others do, a client is answered as by one bucket of its own, full at its first call |
| ClientRates.ClientRateIsBounded | src/api/rate_limiter.py:88-93 | in any window of length d a client is granted at most the capacity plus d times the fill rate |
| ClientRates.ClientGrantedIffEveryWindowFits | src/api/rate_limiter.py:88-93 | a call is granted if and only if it fits the capacity and every window since an earlier call of the same client |
| ClientRates.ClientsDoNotInterfere | src/api/rate_limiter.py:88-93 | what a client is answered depends on its own calls only |
| MemoryEnvelope.TierForCpgSizeGb | src/utils/recommend.py:99-104 | the loop finds the first covering tier, else the last, and fails only on an empty list |
| MemoryEnvelope.TierIsSmallestCovering | src/utils/recommend.py:89-104 | on ascending tiers, as the defaults are, the chosen one needs the least memory of all that cover the CPG, and a larger CPG never gets less |
| MemoryEnvelope.DefaultTiersBySize | src/utils/recommend.py:91-104 | which default tier a size gets, with its heap and container |
| MemoryEnvelope.Compute | src/utils/recommend.py:139-223 | the recommendation for every host and heap choice; it fails exactly on a zero divisor |
| MemoryEnvelope.PerTierCapacity | src/utils/recommend.py:192-194 | the loop fills the capacity of every tier |
| MemoryEnvelope.DefaultsFollowTheHost | src/utils/recommend.py:155-171 | headroom and build workers that are not set by hand: 15% within 12 to 24 GB, one for 16 cores within 2 to 6; headroom always leaves 4 GB |
| MemoryEnvelope.RecommendationSharesTheHost | src/utils/recommend.py:126-175 | headroom and budget share out the host; builds reserve at most half, which covers the workers if and only if they need no more; reserve plus query budget equals the budget if and only if one query server fits beside the reserve, with the defaults from 9 GB on and never below a 21 GB host |
| MemoryEnvelope.CapacitiesAreLargest | src/utils/recommend.py:177-194 | the server count and each tier's entry are the largest numbers that fit the query budget, and the servers fit beside the builds if and only if one does |
| MemoryEnvelope.Config.GuardPoolMemory | src/startup_tuning.py:30-58 | the clamp of the worker budget |
| MemoryEnvelope.Config.GuardBuildConcurrency | src/startup_tuning.py:66-89 | the clamp of the build workers |
| MemoryEnvelope.Config.ApplyStartupTuning | src/startup_tuning.py:133-160 | only unset values are filled in, then the guards apply |
| MemoryEnvelope.GuardRestoresTheBoundIff | src/startup_tuning.py:30-58 | the two pools fit after the guard if and only if the cap leaves room for the smallest tier; then a fitting budget is kept and a larger one cut to the largest that fits; with the recommended cap that is when half the budget, or what the builds leave, holds that tier |
| MemoryEnvelope.GuardedBuildsFitIff | src/startup_tuning.py:66-89 | guarded builds fit the container if and only if one does or none run, and are cut no further than needed |
| MemoryEnvelope.TunedBuildsFitIff | src/startup_tuning.py:148-156 | after the tuning that is so of the live container's limit, else of the configured one, else of the recommended cap |

## Left out

- Docker, HTTP probes, subprocesses, sleeping and logs: how a start and a wait end, whether a server is healthy and whether memory is under pressure are inputs.
- Container liveness against the ledger: a worker evicted from the ledger may still be booting; nothing is claimed about containers.
- Lock expiry, Redis failures and clock skew: locks stay held and each pipeline is atomic. The two reads of the shared `allocate_port` are one step, since only the lock holder registers ports.
- `reserve`, `set_port`, `idle` and the getters of the ledger: single reads and writes.
- The in-process tables of a process in Redis mode, where the ledger decides.
- The map of worker container names and the HTTP clients kept per server: nothing else depends on them.
- The health check and the look-up of a registered server are one step, and so is a container's readiness and the touch that follows it.
- The Redis spawn outside the admit lock (spawn lock, adoption of a running worker, container start): its effects on the ledger are the releases and touches any process may make.
- SQL, connection pools and the sqlite variant: the table is a map with a uniqueness rule on active rows, a claim is one step, and an error return of the database changes nothing.
- Job payloads, results, error texts and the project-version rows updated beside a requeue.
- A restart's requeue runs while no worker is live, as one step: it updates by id without checking the status again.
- LineAdvances: asks that there is no restart, that workers finish nothing that still waits, and that no other job of the type has the job's own creation time; a restart requeues jobs under their old creation times, and ties are handed out in no fixed order.
- LoadIsSimultaneous: one way only. It asks for keys without braces, values without NUL, and a template in which no opening brace and no string placeholder touches another; that a brace before a string placeholder or a touching pair must fail is proved for all templates, but an opening brace right after a string placeholder, or a brace pair that opens none, fails only if something later in the template can close it, and that is not characterised.
- WindowIsBounded: asks for a limit and amounts that are not negative and for clock readings that never go back, as the monotonic clock gives them; so do `GrantedIffEveryWindowFits`, `ClientRateIsBounded` and `ClientGrantedIffEveryWindowFits`, and but for the amounts `RefusalsLeaveNoTrace`.
- ServerBudget.BudgetHolds: asks what `AgreementHolds` does, since a removal that breaks the agreement also loses a reservation; `PoolProtocol.BudgetHolds` asks nothing of a run.
- AgreementHolds: asks that no codebase is spawned twice at once, that no termination, eviction or make-room takes out one that is booting, and that a touch or the end of an eviction finds its codebase as its look-up did. `ServerRaces.dfy` proves what each of these does otherwise, but not over all runs that contain several of them.
- GlobMatchesSegments: asks that every `**` is a segment of its own and that the path is one line; `GlobCompilesCorrectly` has neither condition.
- SegmentWiseIffAbsorbed: asks that no segment before the last is empty. `SegmentWiseIsAbsorbed` does not; with empty segments the converse fails (`EmptySegmentStopsAbsorption`), and no condition is given for them. No normalised path has an empty segment.
- Whitespace and case beyond Latin-1 and ASCII in `strip` and `lower`; how `int()` reads a string is an input.
- Regular expressions beyond those the compiler emits (other classes, counted repetition, flags): a part using them does not parse here, and `CombinedMatchesUnion` is about parts that do. Backtracking cost is no part of a full-match meaning.
- Float rounding: arithmetic is exact, and the rounded 15% of the host's RAM is an input.
- `parse_mem_to_mb`, host detection and the rendering of the recommendation: the parsed limits are inputs.
- Client keys and exempt paths of the rate limiter.
- Authentication, REST and MCP registration, the tool modules and the query texts.
