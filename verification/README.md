# Verified model of the scan service kernel

Dafny models of the parts of the OSINT scan service that carry state, order and time, with proofs of
what they keep over every run. Code that the program writes as loops, closures and module-level
variables is modelled by classes and methods with loops; each of these is tied to a function on
values, and the theorems are about that function. Input and output, sockets, clocks and schedulers
are arbitrary events or parameters, so every statement holds for all of them.

| file | what it models |
|---|---|
| `WorkerPool`, `PoolRun`, `PoolTiming` | the shared-counter worker pool: its steps, its in-place form, its time bound |
| `SocketMachine` | one TCP probe: events, timers, settling once |
| `TimedScan`, `ScanDeadline`, `AbortedScan` | pool and probes together: under the probe timers, against the 45 s global timer, and under the abort signal |
| `ScanHistory`, `PortScan` | from the events of every probe to the results, and from the results to the report |
| `PortList`, `PortText` | from a setting to a port list, as code and as written numbers and ranges; the built-in profiles |
| `WhoisCache`, `CacheInclusion`, `CacheRecency`, `CacheMembership` | the LRU and TTL cache: against a log of writes, across capacities, over whole runs, and exactly which keys it holds |
| `WhoisParser`, `WhoisText` | the WHOIS reply parser, and what it reads from every reply in terms of names, values and bare lines |
| `ModuleRunner`, `RunnerHistory` | one module run: deferred timer, race, abort, promise reaction queue; and what it reports in terms of what happened |
| `SingleFlight`, `FlightHistory` | the nested download and parse locks, and what became of every attempt in terms of what happened |
| `SecurityTxt`, `FieldLoss`, `FieldText` | the field renaming of security.txt, exactly when it loses a value, and parsing as the inverse of rendering |
| `Redaction`, `UrlDecoding` | the two-pass key redaction, and the URL encoding of the key against a decoder |
| `CertificateChain`, `ChangeTimeline`, `ToastThrottle` | the issuer walk, the run grouping, the error toast throttle |
| `Basics`, `Text`, `Sorting` | options, counting, string operations, an insertion sort standing for a correct sort |

`dafny verify dfyconfig.toml` checks everything.

Assumptions that the statements make explicit: the pool's time bounds and its map result are for a
width of at least 1; the probe timers fire on time and queued continuations run before the clock
moves; `lower` stands for lower-casing and may be any function; `infinity` is the least number that
reads as infinite. Cache theorems that need non-empty keys say so, and one theorem shows what happens
without them.

Where the code differs from its documentation, or from what one would expect of it, the model follows
the code:

- Section 2.2 of RFC 9116 allows lines to end in CRLF. The field pattern does not match a carriage
  return, so every such line is dropped (`SecurityTxt.CarriageReturnLineIsDropped`).
- The comment on the WHOIS cache promises eviction of the least recently used key. An empty key is
  never evicted (`WhoisCache.EmptyKeyOverflows`); only a direct call can write one, since the handler
  returns early without a domain (backend/scan/whois.js:263). A capacity below 1 behaves like 1.
- Renaming repeated security.txt fields loses a value when a renamed line gets a key that is in use
  (`FieldText.RenamedRepeatOverwrites`). `FieldLoss.NothingLostIffNoKeyTaken` gives the exact condition
  for every list of lines. Keeping every line under its name and repeat number needs more:
  `SecurityTxt.AllAsPromisedIffUnambiguous`, and `FieldText.DisplacedNameMovesOn` for the difference.
- Redaction can leave a key in the text if the mark can complete it (`Redaction.StarKeyComesBack`,
  `Redaction.MarkKeysSurvive`).
- The 45 s timer of the port scan can cut off a native scan whose probes all behave, exactly when the
  port list is longer than 144 (`ScanDeadline.DeadlineHoldsUpTo144Ports`).

## Model

| member | source | states |
|---|---|---|
| `WorkerPool.EachIndexCalledOnceIntoItsSlot` | backend/scan/ports.js:294-312 | over every interleaving of settlements, continuations and an abort, calls are made once per index in index order and a slot only ever holds what its own call resolved to |
| `WorkerPool.FulfilledIsMap` | backend/scan/ports.js:295-311 | when the promise over the workers fulfils, every index has been called and the result array is the sequential map |
| `WorkerPool.WorkConserving` | backend/scan/ports.js:298-308 | while nothing has failed exactly min(width, items not stored) calls are in flight |
| `WorkerPool.InvRun` | backend/scan/ports.js:294-312 | the pool invariant survives every run: distinct tasks, slots, history, and claimed = stored + held |
| `WorkerPool.PoolTerminates` | backend/scan/ports.js:300-307 | no run has more than two events per item and one abort |
| `WorkerPool.StepDoesWork` | backend/scan/ports.js:300-307 | every pool step lowers 2 × unclaimed + 2 × pending + ready |
| `WorkerPool.RestsOnlyWhenSettled` | backend/scan/ports.js:310-311 | the pool can always move until its promise has settled, and is at rest once it has fulfilled |
| `WorkerPool.SettlementIsFinal` | backend/scan/ports.js:310-311 | the settled promise never changes and a fulfilled result array is never written again |
| `WorkerPool.AbortedBeforeTheStart` | backend/scan/ports.js:301-302 | with a signal that has already fired nothing is called and nothing more happens; the pool has rejected unless it had no items or no workers |
| `WorkerPool.AbortFreezesClaims` | backend/scan/ports.js:301-304 | once the signal has fired the claim counter and the call history never move again |
| `WorkerPool.AbortRejectsOrCameTooLate` | backend/scan/ports.js:300-310 | after an abort the drained pool has rejected or had already called every index, and, for any pool whose pending calls all hear the signal, it has rejected or every call had already settled |
| `WorkerPool.AbortOutcome` | backend/scan/ports.js:300-310 | for such a pool without an earlier failure, the drained pool has fulfilled if and only if every call had already settled, and has rejected otherwise |
| `PoolRun.Run.constructor` | backend/scan/ports.js:295-308 | creating the workers one after the other reaches exactly the launched state |
| `PoolRun.Run.Loop` | backend/scan/ports.js:301-305 | the loop head: finish, throw, or claim the next index and call |
| `PoolRun.Run.Settle` | backend/scan/ports.js:305 | the awaited call settles and the worker's continuation is queued |
| `PoolRun.Run.Resume` | backend/scan/ports.js:301-305 | store, then loop head, as one atomic step; or fail on a rejection |
| `PoolRun.Run.Abort` | backend/scan/ports.js:302 | the signal fires: calls that hear it reject, the others stay pending |
| `PoolRun.UnabortedQuietIsMap` | backend/scan/ports.js:300-311 | a drained, unaborted pool has fulfilled if and only if every call resolves, with each value in its own slot, and has rejected otherwise |
| `PoolRun.MapWithConcurrency` | backend/scan/ports.js:294-312 | under any schedule the call ends; it rejects if and only if fn rejects some item, and otherwise gives fn of the items in item order; with concurrency 0 it gives the unfilled array |
| `PoolTiming.ListSchedulingBound` | backend/scan/ports.js:294-312 | with W workers and calls of at most D ms, item i starts by floor(i/W)·D and the pool has fulfilled past ceil(n/W)·D, under every schedule |
| `PoolTiming.SomeCallIsOld` | backend/scan/ports.js:298-305 | while items are unclaimed, some worker holds a call at least W places back |
| `PoolTiming.NextStartBound` | backend/scan/ports.js:300-305 | the next claim comes at most D after the start W places before it |
| `SocketMachine.SettlesOnceByTheFirst` | backend/scan/ports.js:319-410 | for every event order the promise settles at most once, exactly when some event settles it, and as the first such event says: state, reason, banner, whether a latency is reported, abort |
| `SocketMachine.ConnectTimeIsFirstConnect` | backend/scan/ports.js:359-362 | the connect time is that of the first connect event |
| `SocketMachine.LatencyFromFirstConnect` | backend/scan/ports.js:318-369 | for every event order a reported latency is the time from the start of the probe to its first connect event |
| `SocketMachine.RefusedStays` | backend/scan/ports.js:315-316 | a probe started after the signal has rejected, and no event changes that |
| `SocketMachine.ProbeInvHandle` | backend/scan/ports.js:323-409 | every event keeps the probe's flags and its one outcome consistent, and a settled probe ignores everything |
| `SocketMachine.CheckPort` | backend/scan/ports.js:314-413 | a probe driven through any events has at most one outcome, which is what the first settling event says, with the latency up to the first connect; one started after the signal only rejects |
| `SocketMachine.PortProbe.constructor` | backend/scan/ports.js:314-321 | a probe starts open, or rejects at once if the signal has already fired |
| `SocketMachine.PortProbe.Settle` | backend/scan/ports.js:323-351 | finish and abort act once and clear timers and listeners |
| `SocketMachine.PortProbe.Deliver` | backend/scan/ports.js:359-409 | the callbacks with their flags compute exactly the probe's step |
| `TimedScan.TimersGiveLimit` | backend/scan/ports.js:357-384 | the connect and banner timers bound every probe by 3500 ms, which is what the pool bound assumes |
| `TimedScan.ScanInvRun` | backend/scan/ports.js:294-413 | pool, probes and clock agree in every reachable state of a scan |
| `TimedScan.NativeScanEndsInTime` | backend/scan/ports.js:415-424 | an unaborted native scan of n ports has fulfilled past ceil(n/12)·3500 ms, with one well-formed result per port in list order |
| `TimedScan.GlobalTimeoutNeverWins` | backend/scan/ports.js:606-632 | up to 144 ports the scan has fulfilled once the clock is past 42000 ms, before the global timer |
| `TimedScan.ClockNeverStuck` | backend/scan/ports.js:357-394 | in every reachable state time can pass, or a continuation is queued, or a due timer settles its probe |
| `AbortedScan.PendingCallsHear` | backend/scan/ports.js:340-355 | in every reachable state the calls whose probe rejects on the signal are exactly the pending ones; each settles at once and no settled one changes |
| `AbortedScan.AbortSettlesTheScan` | backend/scan/ports.js:300-355 | for every scan and every moment of the signal: no probe is opened any more and all are settled at once; at most one continuation a worker is left and these run before the clock moves; then the scan has fulfilled if and only if all its ports had their result before the signal, and has rejected otherwise |
| `AbortedScan.OnlyContinuations` | backend/scan/ports.js:300-306 | after the signal the scan is the pool running its queued continuations |
| `ScanDeadline.SlowScanMissesTheDeadline` | backend/scan/ports.js:357-394 | any list of more than 144 ports has a run that is still pending when the 45 s timer is due |
| `ScanDeadline.DeadlineHoldsUpTo144Ports` | backend/scan/ports.js:606-632 | all runs of a list have fulfilled when the global timer is due if and only if it has at most 144 ports |
| `ScanDeadline.EveryProfileBeatsTheDeadline` | backend/scan/ports.js:15-33 | the quick, standard and deep lists all meet that deadline |
| `PortScan.SplitByState` | backend/scan/ports.js:425-451 | the result loop yields the open, closed and filtered rows in result order |
| `PortScan.HostStatus` | backend/scan/ports.js:456-457 | latency is the first finite one; the host is up iff some port gave a reason other than no-response |
| `PortScan.Summarize` | backend/scan/ports.js:425-475 | the report's lists are sorted permutations of the rows per state, with matching counts |
| `PortScan.StatesPartitionPorts` | backend/scan/ports.js:425-451 | open, closed and filtered ports together are the scanned ports, as multisets |
| `PortScan.ReportAccountsForEveryPort` | backend/scan/ports.js:415-480 | from socket events to report: a fulfilled scan reports exactly its ports, open iff connected, and the host is up iff some port is not filtered |
| `PortScan.ReportListsResults` | backend/scan/ports.js:429-451 | every result is listed under the heading of its state with its port, reason and, if open, banner, and nothing else is |
| `ScanHistory.EachProbeRanAlone` | backend/scan/ports.js:419-424 | in every run of a scan each probe is in the state that its own events, from its own start, would bring it to alone |
| `ScanHistory.ReportFollowsEvents` | backend/scan/ports.js:314-480 | in a fulfilled scan's report every result is what the first settling event of its probe says, and the latency is the first port's that has one, from the start of its probe to its first connect event |
| `PortText.IntegerReads` | backend/scan/ports.js:77-91 | a sign, a decimal numeral and whatever is no digit after it read as that number |
| `PortText.TokenReads` | backend/scan/ports.js:69-94 | a written number or range, in either order and with white space anywhere around its parts, covers exactly the ports it names within 1..65535; junk covers none |
| `PortText.ReadSetting` | backend/scan/ports.js:62-100 | the list for a written setting is exactly the ports its tokens name, strictly increasing, or the standard list when they name none |
| `PortList.AddToken` | backend/scan/ports.js:69-94 | one token adds exactly the ports it covers, as a number or as a range in either order |
| `PortList.ParsePortsSetting` | backend/scan/ports.js:62-100 | the strictly increasing list of exactly the covered ports in 1..65535, or the standard list when none is covered |
| `PortList.SortedDistinct` | backend/scan/ports.js:97-98 | sorting a list without repeats gives its strictly increasing arrangement |
| `WhoisCache.Cache.GetCached` | backend/scan/whois.js:31-43 | the read: miss, expiry, or delete and insert again |
| `WhoisCache.Cache.SetCache` | backend/scan/whois.js:45-54 | the write: replace, or evict the first key when full, then append |
| `WhoisCache.Serve` | backend/scan/whois.js:31-54 | a cache driven through any operations answers every read as its state says, and every hit with the latest write of the lower-cased key while it is fresh |
| `WhoisCache.AfterMembers` | backend/scan/whois.js:31-54 | which entries an operation can bring in and which it can remove, and why |
| `CacheMembership.ExpiredReadRemoves` | backend/scan/whois.js:35-38 | a read that finds its entry expired leaves exactly the other entries, in their order |
| `CacheMembership.DroppedIsGone` | backend/scan/whois.js:35-38 | a key that a read found expired is gone until it is written again |
| `CacheMembership.CachedIffNeverCrowded` | backend/scan/whois.js:31-54 | the cache holds a key if and only if it was used, no read found it expired since it was written, and since its last use there were never WHOIS_CACHE_MAX distinct newer keys that were not dropped |
| `WhoisCache.StepBounded` | backend/scan/whois.js:47-52 | an operation exceeds the limit if and only if it writes a new key to a full cache headed by the empty key |
| `WhoisCache.CacheNeverOverflows` | backend/scan/whois.js:45-54 | after any trace over non-empty keys, keys are distinct and at most WHOIS_CACHE_MAX |
| `WhoisCache.EmptyKeyOverflows` | backend/scan/whois.js:50-51 | a trace with an empty key makes a cache for one entry hold two |
| `WhoisCache.HitIsLatestFreshWrite` | backend/scan/whois.js:31-43 | a hit is the data of the latest write of that key, at most TTL old: reads extend nothing |
| `WhoisCache.BigCacheForgetsOnlyExpired` | backend/scan/whois.js:45-54 | with room for all written keys, a written key that is gone had expired |
| `WhoisCache.BigCacheIsTheLog` | backend/scan/whois.js:31-54 | with room for all written keys and a clock that does not run back, every read agrees with an unbounded log |
| `CacheInclusion.MoreCapacityNeverLosesAHit` | backend/scan/whois.js:29-54 | fed one trace, the smaller cache is an in-order part of the larger one, so more capacity never turns a hit into a miss |
| `CacheInclusion.IncludedStep` | backend/scan/whois.js:31-54 | every operation keeps the inclusion and the bound on the difference in size |
| `CacheRecency.MapOrderIsUseOrder` | backend/scan/whois.js:39-41 | after any trace map order is the order of last use |
| `CacheRecency.EvictedMeansStale` | backend/scan/whois.js:45-54 | a key is evicted only after at least WHOIS_CACHE_MAX distinct other keys were used since its last use |
| `CacheRecency.RecentKeysAreCached` | backend/scan/whois.js:31-54 | a key with fewer distinct keys used since its last use, not found expired since it was written, is in the cache |
| `WhoisParser.TakeLine` | backend/scan/whois.js:204-237 | one line: its name server, its status, the section flag, and at most one first field value |
| `WhoisParser.TakeField` | backend/scan/whois.js:227-229 | an ordinary field keeps its first non-empty value |
| `WhoisParser.ParseWhoisResponse` | backend/scan/whois.js:169-247 | fields hold the first non-empty value any line gives them, and only those; name servers and statuses are the first occurrences, in order, of what the lines contribute |
| `WhoisParser.HostNameIsThePattern` | backend/scan/whois.js:233 | what the pattern of bare host lines accepts |
| `WhoisParser.FirstOccurrencesGrow` | backend/scan/whois.js:218 | what occurred first stays first |
| `WhoisText.EveryTextIsWritten` | backend/scan/whois.js:199-212 | every reply is a list of names and values, and bare lines, with white space around them |
| `WhoisText.ReadReply` | backend/scan/whois.js:169-247 | on every reply: a field has the value of the first line whose lower-cased name is one of its keys and whose value is not empty, and is absent without one; the name servers and statuses are those the lines name and tell, once each, in line order |
| `WhoisParser.FirstOccurrencesOfDistinct` | backend/scan/whois.js:239-241 | the final set pass over the name servers changes nothing |
| `ModuleRunner.InvRun` | backend/scan/runner.js:103-132 | timer, race, queue and envelopes agree in every reachable state |
| `ModuleRunner.ExactlyOneEnvelope` | backend/scan/runner.js:103-141 | never two envelopes, and exactly one when the reactions have run after the handler settled or the timer fired |
| `ModuleRunner.TimeoutIsHard` | backend/scan/runner.js:32-45 | if the clock waits for a due timer, a run that got its slot has its one envelope once timeoutMs have passed, however the handler behaves |
| `ModuleRunner.ClockIsHeldOnlyByWork` | backend/scan/runner.js:32-40 | in every reachable state time can pass, or a reaction can run, or the timer can fire |
| `ModuleRunner.QueueDrains` | backend/scan/runner.js:105-117 | every reaction makes the queue lighter |
| `ModuleRunner.TimerCountsFromTheSlot` | backend/scan/runner.js:32-40 | without a slot the timer never runs, and it fires timeoutMs after the slot or later |
| `ModuleRunner.FiredTimerWins` | backend/scan/runner.js:103-132 | the envelope is the timeout one if the timer fired, and otherwise says what the handler settled with |
| `RunnerHistory.RunIsExplained` | backend/scan/runner.js:19-45 | clock, slot, handler outcome and timer of every reachable state are what the events say |
| `RunnerHistory.EnvelopeTellsWhatHappened` | backend/scan/runner.js:103-132 | by the events alone: a timeout envelope if the timer fired; else the handler's data if it returned, a timeout if it threw an error that reads as one, and a failure otherwise |
| `RunnerHistory.TimerFiresAfterTheSlot` | backend/scan/runner.js:32-40 | between the slot and the timer at least timeoutMs pass |
| `ModuleRunner.AbortReactionLoses` | backend/scan/runner.js:34-39 | whatever the handler does on hearing the abort, the timeout was first |
| `ModuleRunner.NoTimerSurvivesTheRun` | backend/scan/runner.js:130-132 | after the envelope no timer is armed or can fire, and no second envelope comes |
| `ModuleRunner.ModuleRun.AcquireSlot` | backend/scan/runner.js:106-115 | start arms the timer once, inside the slot |
| `ModuleRunner.ModuleRun.Fire` | backend/scan/runner.js:34-39 | reject first, then abort |
| `ModuleRunner.ModuleRun.HandlerSettles` | backend/scan/runner.js:106-115 | the handler's promise settles and its reaction is queued |
| `ModuleRunner.ModuleRun.RunNextJob` | backend/scan/runner.js:105-132 | the first reaction decides the race; the continuation builds the envelope and cancels the timer |
| `ModuleRunner.ModuleRun.RunQueue` | backend/scan/runner.js:103-132 | running the queued reactions leaves exactly one envelope once the handler settled or the timer fired, the timeout one if the timer fired, and no armed timer |
| `SingleFlight.InvStep` | backend/scan/legacy-rank.js:24-95 | every event keeps it that each slot holds the newest attempt unless that one was rejected, and that ranks are cached exactly from a successful parse |
| `SingleFlight.AttemptsAreConserved` | backend/scan/legacy-rank.js:24-95 | for both locks, attempts started = attempts failed + (1 if the slot is filled), and a slot never names a rejected attempt |
| `FlightHistory.OutcomesFollowEvents` | backend/scan/legacy-rank.js:24-95 | by the events alone: ranks are cached from a parse iff it ended well; a parse failed only because it or its download ended badly; a download did its work iff it ended well |
| `FlightHistory.CallerGetsRanksIffParsed` | backend/scan/legacy-rank.js:64-66 | the next caller gets a parse's ranks at once iff that parse ended well |
| `SingleFlight.CallersShareOneAttempt` | backend/scan/legacy-rank.js:28-31 | a second call changes nothing and gets the same attempt; at most one download and one parse are running |
| `SingleFlight.RetryIsNeverTheFailedAttempt` | backend/scan/legacy-rank.js:64-95 | a caller that saw an attempt fail is never handed it again |
| `SingleFlight.SuccessIsFinal` | backend/scan/legacy-rank.js:64-66 | after a successful parse nothing is started again and all callers get its ranks |
| `SingleFlight.AllSuccessesAgree` | backend/scan/legacy-rank.js:87-88 | every fulfilled parse is the cached one |
| `SingleFlight.PendingParseMoves` | backend/scan/legacy-rank.js:68-92 | a pending promise always has a reaction due: the nested locks do not hang |
| `SingleFlight.ReactionsRunOut` | backend/scan/legacy-rank.js:68-92 | between calls the reactions run out |
| `SingleFlight.RankStore.EnsureCsvDownloaded` | backend/scan/legacy-rank.js:28-62 | join the download in the slot, or start one |
| `SingleFlight.RankStore.EnsureRanksParsed` | backend/scan/legacy-rank.js:64-95 | cached ranks, or the parse in the slot, or a new parse behind a download |
| `SingleFlight.Drive` | backend/scan/legacy-rank.js:24-95 | the store driven through any run of callers and outcomes reaches the state of the run, hands out its tickets in order, and has lost no attempt |
| `SingleFlight.RankStore.DownloadFinished` | backend/scan/legacy-rank.js:31-55 | the download's work ends, well or badly |
| `SingleFlight.RankStore.DownloadHeard` | backend/scan/legacy-rank.js:69 | a waiting parse goes on with a download that succeeded and fails with one that failed |
| `SingleFlight.RankStore.DownloadReaction` | backend/scan/legacy-rank.js:56-59 | a failed download empties its slot before its promise rejects |
| `SingleFlight.RankStore.ParseFinished` | backend/scan/legacy-rank.js:70-88 | a finished parse fills the cache, a failed one does not |
| `SingleFlight.RankStore.ParseReaction` | backend/scan/legacy-rank.js:89-92 | a failed parse empties its slot before its promise rejects |
| `SecurityTxt.ParseResult` | backend/scan/security-txt.js:27-46 | the loop stores the accepted lines one by one, with a counter per repeated name; for unambiguous names every accepted line's value is under its promised key and nothing else is stored |
| `SecurityTxt.ValuePartMeaning` | backend/scan/security-txt.js:23 | what the field pattern accepts after the colon |
| `SecurityTxt.CarriageReturnLineIsDropped` | backend/scan/security-txt.js:23 | a line that ends in a carriage return is never taken |
| `SecurityTxt.TerminatedLineIsDropped` | backend/scan/security-txt.js:23 | so is a line that ends in one of the two Unicode line separators |
| `SecurityTxt.AllAsPromisedIffUnambiguous` | backend/scan/security-txt.js:39-43 | every accepted line sits, alone, under its name or its name and repeat number, all keys distinct, if and only if no name is another name with one of its repeat numbers, none is `__proto__`, and no inherited name repeats |
| `SecurityTxt.UnambiguousKeepsAll` | backend/scan/security-txt.js:28-45 | for unambiguous names the store, its keys and its counters are as promised |
| `FieldLoss.StoreFollowsNames` | backend/scan/security-txt.js:28-44 | for every list of lines the names alone determine each line's key, the entries and the counters |
| `FieldLoss.EntryPerLineIffNoKeyTaken` | backend/scan/security-txt.js:36-44 | the number of fields is the number of accepted lines if and only if no line is called `__proto__` and no renamed line gets a key that is in use |
| `FieldLoss.NothingLostIffNoKeyTaken` | backend/scan/security-txt.js:36-44 | under exactly that condition every accepted line has its own entry with its value |
| `FieldLoss.FirstOverwrite` | backend/scan/security-txt.js:39-43 | while all lines sit under their promised keys, the next line overwrites one if and only if its key is an earlier line's promised key |
| `FieldText.ParsingUndoesRendering` | backend/scan/security-txt.js:27-38 | a file rendered from plain fields, one a line, is read back as these fields in order |
| `FieldText.FileIsRead` | backend/scan/security-txt.js:27-38 | a file of entries with white space around names and values, comments, armour, blank and nameless lines gives exactly its entries, in order |
| `FieldText.RepeatedInherited` | backend/scan/security-txt.js:40-41 | the second line with an inherited name is stored under a key that ends in the source text of a function |
| `FieldText.RenderedFileKeepsAll` | backend/scan/security-txt.js:27-46 | a file of plain field lines keeps all its values if and only if no renamed line gets a key that is in use and none is called `__proto__` |
| `FieldText.RenamedRepeatOverwrites` | backend/scan/security-txt.js:39-43 | in a file with Contact1, Contact, Contact the second Contact overwrites Contact1 |
| `FieldText.DisplacedNameMovesOn` | backend/scan/security-txt.js:39-43 | in a file with Contact, Contact, Contact1 the last line moves on to Contact11 and nothing is lost |
| `Redaction.SplitOnExact` | backend/scan/features.js:26-28 | the parts of a split joined with the key are the text again: only the key is replaced |
| `Redaction.OnlyTheKeyIsReplaced` | backend/scan/features.js:25-28 | the text between the occurrences is kept by both passes |
| `UrlDecoding.DecodingUndoesEncoding` | backend/scan/features.js:25 | the encoded form of every text decodes to it |
| `UrlDecoding.EncodedAlphabet` | backend/scan/features.js:25 | encoded texts consist of letters, digits, nine marks and percent signs |
| `UrlDecoding.PlainIsKept` | backend/scan/features.js:25 | exactly the letters, digits and nine marks stand for themselves |
| `Redaction.PartsAreClean` | backend/scan/features.js:26-28 | no part holds the key, nor anything the text did not hold |
| `Redaction.JoinIsClean` | backend/scan/features.js:26-28 | joining clean parts with the mark makes no occurrence, across joins either |
| `Redaction.RedactionIsComplete` | backend/scan/features.js:21-29 | neither the key nor its encoded form is left at any position |
| `Redaction.RedactionIsIdempotent` | backend/scan/features.js:21-29 | a clean text is unchanged, so redacting twice is redacting once |
| `Redaction.CompleteIffOutsideTheWord` | backend/scan/features.js:21-29 | for keys without a star, redaction is complete on every text if and only if the key is no part of the word REDACTED |
| `Redaction.CompleteIfApartNotInMark` | backend/scan/features.js:21-29 | for every key, with stars or without: complete if the key and its encoded form are apart from the mark, and not complete if the mark holds the key |
| `Redaction.MarkKeysSurvive` | backend/scan/features.js:27-28 | any key inside the mark is put back by the mark |
| `Redaction.StarKeyComesBack` | backend/scan/features.js:27-28 | a key that ends in a star can come back across a join |
| `CertificateChain.BuildCertificateChain` | backend/scan/tls.js:121-135 | the walk ends on every finite graph, cyclic or not, with the fields along an issuer path that repeats nothing and cannot go on |
| `CertificateChain.PathIsLongest` | backend/scan/tls.js:126-133 | every repetition-free issuer path from the leaf is a beginning of that one |
| `CertificateChain.ChainIsUnique` | backend/scan/tls.js:121-135 | so there is exactly one such path |
| `ChangeTimeline.BuildFingerprintGroups` | components/monitor/monitor-change-timeline.tsx:84-110 | the rows flatten to the input; groups have at least two changes and one non-empty fingerprint; neighbours never share a non-empty one |
| `ChangeTimeline.NextRow` | components/monitor/monitor-change-timeline.tsx:88-107 | the row at an index takes its whole run |
| `ChangeTimeline.CanonicalIsUnique` | components/monitor/monitor-change-timeline.tsx:84-110 | no other list of rows has these properties |
| `ToastThrottle.SignatureIsInjective` | lib/query-error-handling.ts:30-56 | a signature determines its toast, since titles hold no line feed |
| `ToastThrottle.ToastTexts` | lib/query-error-handling.ts:30-52 | title and description for every kind of error |
| `ToastThrottle.Throttle.ToastGlobalError` | lib/providers.tsx:24-36 | shows the toast unless one with its signature was shown less than ten seconds ago, and remembers it |
| `ToastThrottle.ReportAll` | lib/providers.tsx:24-36 | over any trace of errors the toasts shown are those of the emitting ones, in order, and two equal ones are at least 10000 ms apart |
| `ToastThrottle.MemoryIsLatestEmission` | lib/providers.tsx:22-31 | what is remembered of a signature is its latest showing |
| `ToastThrottle.SameToastIsSpaced` | lib/query-error-handling.ts:58-67 | two showings of one toast are at least 10000 ms apart |
| `ToastThrottle.SuppressedWasJustShown` | lib/query-error-handling.ts:58-67 | a suppressed error has the identical toast shown before it, less than 10000 ms earlier |
| `ToastThrottle.WindowHoldsFewShowings` | lib/query-error-handling.ts:9 | a window of length L shows one toast at most L/10000 + 1 times |

## Left out

- Redaction.CompleteIffOutsideTheWord: the exact condition is for keys without a star. For starred keys there are a sufficient condition and a necessary one; which of the keys between them the second pass happens to repair is not characterised. Lone surrogates, on which encodeURIComponent throws, are not modelled.
- SocketMachine.PortProbe.Deliver: banner sanitising and formatting is not modelled; the data event carries the formatted text.
- TimedScan.NativeScanEndsInTime: timers are ideal, and name lookup is taken not to restart the socket's idle timer.
- ScanDeadline.DeadlineHoldsUpTo144Ports: the native path only; a preceding nmap attempt can use up the 45 s on its own.
- PortList.ParsePortsSetting: an absent setting is the empty one; rounding of numerals beyond 2^53 is not kept, which cannot move a number into or out of the port range.
- PortList.ProfilePorts: normalising the profile's name and the warning on an override are not modelled.
- PortScan.Summarize: durations, time stamps, the summary sentence and proxy detection are not modelled.
- WhoisParser.ParseWhoisResponse: input that is not a string is not modelled; lower-casing is a parameter.
- WhoisCache.CacheNeverOverflows: a `WHOIS_CACHE_MAX` or time to live that does not parse as a number is not modelled; the cache is then unbounded, or its entries never expire.
- ModuleRunner.TimerCountsFromTheSlot: a `timeoutMs` above 2^31 - 1, which makes the runtime's timer fire at once, is not modelled.
- PoolRun.MapWithConcurrency: a negative concurrency creates no worker, like 0.
- WhoisCache.Cache.GetCached: stored data is taken to be an object, so a hit is never mistaken for a miss by the caller.
- ModuleRunner.ExactlyOneEnvelope: the contents of a normalised envelope, durations, logging and metrics are not modelled, nor is a handler that is not a function.
- ToastThrottle.Throttle.ToastGlobalError: the callers' filters on cached data and on query metadata are not modelled.
- ModuleRunner: `invokeExpressHandler` is part of what settles the handler; its settle-once flag repeats that of the port probe.
- SingleFlight: the two file-existence checks, the archive and the CSV stream are the outcomes of an attempt.
- The order and stability of the source's sort beyond sortedness and permutation: ports in one report are distinct.
- The nmap path of `portsHandler`, the WHOIS query itself with its retry, the handlers around the modelled functions, and the HTTP endpoints.
- `_common/host-limiter.js` and p-limit: a slot is granted at an arbitrary time or never.
- `computeGrade`, `classifyCipher`, `hasForwardSecrecy`, `filterBySize`, `inferCategory`: single expressions, easy members.
- React components, hooks and charts, API clients, stores, and the Python scanner service.
