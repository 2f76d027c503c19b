# Verified models of the release tooling

This project models the protocols of the release tooling that carry whole-run arguments, and proves
what they promise. Every operating-system answer is free: clocks, polls, signals, short writes,
process inspections, scan orders and crashes are nondeterministic steps or parameters. What happened is
kept in traces, and the contracts say exactly what each call makes of it.

- **Attempt journal** (`Json`, `AttemptRows`, `AttemptIndex`, `AttemptReplay`, `AttemptFrame`,
  `AttemptCalls`, `AttemptRuns`, `AttemptLengths`, `AttemptReceipts`, `AttemptEntries`, `AttemptLaw`,
  `AttemptExact`, `AttemptHistory`, `AttemptTamper`, `AttemptDisk`, `HistoryMerge`, `AttemptMerge`). An append-only, hash-chained journal over a directory namespace.
  Rows are canonical JSON lines at the level of bytes. Replay is proved to accept exactly
  the files that keep a law told of the rows at once, to rebuild what completed calls built, to reject
  forever what a cut call left, and to admit one history for an anchored head.
- **Process custody** (`GroupLedger`, `LedgerCodec`, `LedgerFile`, `LedgerTruth`, `CustodyMachine`,
  `CustodyRuns`, `CustodySeal`, `OwnedProcesses`, `TerminalCensus`, `CustodyCensus`). Many spawners and one sealer interleave over a
  locked ledger. A census then drains what the ledger names. A spawner killed between starting its
  child and publishing it is a step of the machine, and the one case in which a started group is left
  to no one. One spawner is also modelled as it runs, on the ledger's bytes and over the drain itself.
- **Gate execution** (`GateRun`). One owned process group from start to receipt, and the verifier of
  that receipt. Termination of the waits is proved from the monotonic clock.
- **Compaction wait** (`Compaction`). Two fresh publications through a stale cache.
- **TLS listener** (`Listener`). Accept loop, permits, tasks, audits, drain and abort as interleaved
  steps.
- **Archive transport** (`TransportTree`, `TransportCensus`, `TransportManifest`, `TransportArchive`,
  `TransportRead`, `TransportWrite`, `TransportPack`, `TransportRestore`, `TransportDelivery`). Census,
  manifest, the writer's stream, strict reader and restoration; header bytes are a parameter.
- **Ledger preservation** (`Markdown`, `MarkdownTokens`, `MarkdownLaw`, `Citations`, `Fragments`, `Prefixes`, `Segments`, `Braces`,
  `BraceProduct`, `BraceSteps`, `EvidenceStore`, `EvidencePasses`, `EvidenceTree`, `Preservation`,
  `PreservationRun`, `LedgerSummary`). Line scan, citation lines, brace expansion, the create-only destination, the walk through cited
  directories, and the summary.
- **Supervisor** (`Backoff`, `SupervisorRun`). Restart schedule, launch rate and orderly stop.
- **Companions** (`LockProjection`, `ReleaseStreams`). Lock-file projection, soak and integrity
  streams.

`Basics`, `Text` and `JsonLength` hold shared vocabulary. Methods follow the loops and mutable objects
of the source; the functions beside them say what the methods compute, and the lemmas are about those
functions. `dafny verify dfyconfig.toml` checks the whole project.

Four promises turned out to hold only under a condition, and the condition is proved exact:

- `begin` measures its row only after its first effect, so a rejected `begin` changes the disk exactly
  when its checks pass and its row is over the limit (`RejectedBegin`), and a start time with a very
  long fraction is such an input (`LongStartKills`). `finish` is written in the same order, but its
  row always fits, so a rejected `finish` changes nothing (`RejectedFinish`).
- A completed `finish` is replayed exactly when its receipt is within the JSON limit
  (`FinishCompletes`): the limit is checked on reading and not on writing. A padded process list goes
  over it (`OversizedReceipt`).
- The group ledger stays readable when every admission reserves its row. An admission through
  `gate_process.run` alone reserves nothing: it keeps the ledger readable exactly when its row fits
  (`UnreservedExact`), and a run that overflows exists (`UnreservedUnreadable`).
- A citation is recorded under its own line of the document exactly when the repository's path, whose
  occurrences are removed before the scan, holds no newline (`RowsKeptExactly`, `NewlineInPath`).

A passed receipt is not always an accepted one: a signal that arrives after the exit code is chosen
stays in the receipt, and the verifier then refuses it (`VerifiedExactly`, `LateSignals`).

## Model

| member | source | states |
|---|---|---|
| Json.ReadUndoesDumps | scripts/attempt_index.py:97-98 | the strict reader gives back every value from its canonical text, before any text that does not begin with a digit |
| Json.CanonicalInjective | scripts/attempt_index.py:97-98 | two values with the same canonical bytes are the same value |
| Json.CanonicalOneLine | scripts/attempt_index.py:97-98 | canonical bytes hold exactly one newline, and it is the last byte |
| Json.DecodeExact | scripts/attempt_index.py:113-118 | a row is decoded to a value exactly when its bytes are the canonical bytes of that well-formed value and within 64 KiB |
| AttemptRows.RowOfExact | scripts/attempt_index.py:79-83 | the exact field sets: a value spells a row exactly when it is that row's own value |
| AttemptRows.DecodeRowExact | scripts/attempt_index.py:113-118 | one line is accepted as a row exactly when it is the bytes written for that row |
| AttemptDisk.ReplayRows | scripts/attempt_index.py:378-415 | the replay loop over lines gives, for every file content, the replay that AttemptLaw.ReplayExactly characterises |
| AttemptLaw.ReplayExactly | scripts/attempt_index.py:378-415 | replay accepts exactly the files that lawful rows spell (numbered, chained, the identity first, new ids with outputs apart, first ends whose receipt is in its place and borne out by the tree) and ends in the state those rows leave |
| AttemptLaw.OpenExactly | scripts/attempt_index.py:422-445 | a custody root opens exactly when lawful rows spell its index and its namespace holds a directory for each admission, a receipt for each end and nothing else; the journal is then those rows' identity, admissions with their ends, number and last digest |
| AttemptReceipts.BorneOutHolds | scripts/attempt_index.py:249-343 | every report the tree bears out makes a receipt the checks accept: status, times in order, evidence below the output naming the attempt, the roster's products or a passed assembly's observation with archives built twice alike |
| AttemptReceipts.HoldsBorneOut | scripts/attempt_index.py:360-375 | and every accepted receipt is that of a report the tree bears out |
| AttemptReceipts.RefExactly | scripts/attempt_index.py:196-205 | a reference is accepted exactly when it is the path, length and digest of a file below the root that only directories lead to |
| AttemptReplay.ReplayAppend | scripts/attempt_index.py:378-415 | replaying a journal with one more whole line is replaying the journal and then applying that line |
| AttemptReplay.TornRejected | scripts/attempt_index.py:113-118 | a journal that ends in any part of a line is rejected from every state |
| AttemptReplay.OpenSound | scripts/attempt_index.py:130-135 | in every accepted journal ids are unique, outputs are pairwise non-nested and outside the attempts namespace, and every terminal follows its own admission |
| AttemptReplay.ReplayKeeps | scripts/attempt_index.py:397-410 | no later row removes an entry, changes an admission or replaces a terminal event |
| AttemptFrame.ReplayFrame | scripts/attempt_index.py:378-415 | replay reads only the index, the receipts and the retained files of finished attempts: any disk that keeps those gives the same result |
| AttemptFrame.ReplayDetermined | scripts/attempt_index.py:378-415 | two disks that both accept the same rows rebuild the same state |
| AttemptCalls.BeginCutDead | scripts/attempt_index.py:541-566 | begin cut after its first effect and before its whole row, at any byte, leaves a journal rejected by every replay from then on |
| AttemptCalls.FinishCutDead | scripts/attempt_index.py:569-593 | finish cut inside the receipt, between receipt and row, or inside the row leaves a journal rejected by every replay from then on |
| AttemptCalls.DeadIsFinal | scripts/attempt_index.py:430-445 | on such a journal create, begin, finish and replay all reject and change nothing, and nothing done outside the namespace revives it |
| AttemptCalls.RejectedBegin | scripts/attempt_index.py:448-450 | a rejected begin changes the disk exactly when its checks pass and its row is over the limit, and then leaves a dead journal |
| AttemptLengths.LongStartKills | scripts/attempt_index.py:143-152 | such an input: a start with 65536 fraction digits, wherever the timestamp reader takes it, kills a freshly founded journal |
| AttemptLengths.IdentityFits | scripts/attempt_index.py:458-493 | the identity row of every valid identity fits the row limit |
| AttemptLengths.TerminalFits | scripts/attempt_index.py:582-593 | a terminal row of 64-character digests and 64-bit numbers fits the row limit |
| AttemptLengths.RejectedFinish | scripts/attempt_index.py:569-593 | finish is rejected exactly when its checks fail, and a rejected finish leaves the disk as it was |
| AttemptExact.CreateExactly | scripts/attempt_index.py:458-493 | create returns the identity row exactly for a well-formed identity and a namespace that is unused or already a journal of that identity, and what it then leaves |
| AttemptExact.BeginExactly | scripts/attempt_index.py:541-566 | begin returns a row exactly when the journal opens, the admission is well formed for a new id with its output apart from all others, nothing is there yet, and the row fits |
| AttemptExact.BeginLeaves | scripts/attempt_index.py:541-566 | a completed begin leaves one directory and that row, field by field, and nothing else |
| AttemptExact.FinishExactly | scripts/attempt_index.py:569-593 | finish returns a row exactly when the attempt is open, has no receipt yet, and the tree bears the receipt out |
| AttemptExact.FinishLeaves | scripts/attempt_index.py:569-593 | a completed finish leaves that receipt and one row naming its path, digest and length, and nothing else |
| AttemptExact.FinishedSays | scripts/attempt_index.py:360-375 | a finished receipt has the attempt's own id and start, one of the three statuses and a finish no earlier than the start, and its evidence lies below the output with the same id, status and times |
| AttemptExact.OpenedSays | scripts/attempt_index.py:378-415 | the same of the receipt behind every terminal row of a journal that opens |
| AttemptExact.RosteredFinish | scripts/attempt_index.py:249-285 | an open attempt of a rostered kind finishes, passed, failed or interrupted, on a record stored below its output, times in order and the roster's files |
| AttemptRuns.BeginCompletes | scripts/attempt_index.py:541-566 | after a completed begin, replay gives the old journal with exactly that admission added, the next sequence and the digest of the new row |
| AttemptRuns.FinishCompletes | scripts/attempt_index.py:569-593 | after a completed finish, replay gives the old journal with exactly that terminal event exactly when the receipt is within the JSON limit, and rejects it otherwise |
| AttemptLengths.OversizedReceipt | scripts/attempt_index.py:360-375 | from every receipt that may be finished, one with a padded process list that may be finished too, is reported as finished, and leaves a dead journal |
| AttemptRuns.CreateCompletes | scripts/attempt_index.py:458-493 | after a completed create, replay gives the journal of that identity with no entries |
| AttemptLengths.FreshAdmits | scripts/attempt_index.py:541-566 | a fresh root is founded by create and then admits any well-formed first attempt |
| AttemptHistory.WorkKeepsJournal | scripts/attempt_index.py:360-375 | work confined to the output of an open attempt, with the missing directories above it, leaves the replayed journal unchanged |
| AttemptHistory.HistoryReplays | scripts/attempt_index.py:378-415 | for every sequence of completed calls and confined work, replay rebuilds exactly the identity, entries, sequence and chain digest those calls built |
| AttemptTamper.ChainDetermines | scripts/attempt_index.py:384-390 | with no digest collision among the two journals' own bytes, the same sequence and head digest mean the same index bytes |
| AttemptTamper.HeadDetermines | scripts/attempt_index.py:502-512 | two accepted journals with the same head hold the same rows byte for byte and, through the nested references, the same receipts, outcomes and retained files |
| AttemptDisk.Custody.Write | scripts/attempt_index.py:448-455 | writes of any sizes leave a prefix of the data after the old index at every moment, and all of it when they succeed |
| AttemptDisk.Custody.AppendRow | scripts/attempt_index.py:448-455 | appending to a dead journal leaves it dead up to the last byte of the row |
| AttemptDisk.Custody.WriteReceipt | scripts/attempt_index.py:576-587 | at every moment of writing a receipt the journal is dead |
| AttemptDisk.Custody.Begin | scripts/attempt_index.py:541-566 | stopped at any effect, begin has changed nothing, left a dead journal, or completed; unless a write or a sync failed it is exactly the call of AttemptExact.BeginExactly, and if one failed it returns no row |
| AttemptDisk.Custody.Finish | scripts/attempt_index.py:569-593 | the same for finish, against AttemptExact.FinishExactly |
| AttemptDisk.Custody.Create | scripts/attempt_index.py:458-493 | the same for create, whose only other intermediate state is the empty namespace |
| AttemptMerge.ReplayJournals | scripts/attempt_index.py:515-538 | the merge accepts exactly the lists that are one history, and returns every attempt of every journal with its owner |
| AttemptMerge.SuppliedOrderFree | scripts/attempt_index.py:515-538 | every permutation of the supplied journals is accepted alike and gives the same map |
| AttemptMerge.AnchoredExactly | scripts/attempt_index.py:502-512 | a journal is accepted against its anchor exactly when lawful rows end at that head and, if it must be complete, admit something and end all they admit |
| HistoryMerge.Merge | scripts/attempt_index.py:521-538 | the loop with its roots, journal ids and attempts accepts exactly the pairwise compatible, individually accepted, non-empty lists |
| HistoryMerge.MergesOnce | scripts/attempt_index.py:521-538 | the merged map is determined by the list |
| HistoryMerge.OneOwner | scripts/attempt_index.py:531-533 | each attempt in the merged map belongs to exactly one journal |
| HistoryMerge.OrderFree | scripts/attempt_index.py:515-538 | acceptance depends only on which journals are supplied and how often |
| GroupLedger.CheckRows | scripts/gate_process.py:39-63 | the row loop accepts exactly groups, each once, then at most one closure, and says whether it is closed |
| GroupLedger.ShapeMore | scripts/gate_process.py:45-61 | exactly which rows may follow an accepted ledger |
| GroupLedger.BirthExactly | scripts/gate_process.py:52-54 | a birth witness is one decimal number after linux: or two after darwin: |
| GroupLedger.DigitsExactly | scripts/gate_process.py:53 | a number is one decimal digit or more |
| LedgerCodec.ReadWritten | scripts/gate_process.py:34-39 | any written rows followed by any torn rest are read back as those rows exactly when nothing is torn, they are in shape and within the limit |
| LedgerCodec.WordWidth | scripts/gate_process.py:66-70 | with fields of machine width a group row takes at most 243 bytes |
| LedgerCodec.ClosureWidth | scripts/gate_process.py:81 | the closure row takes 29 bytes |
| LedgerFile.ReadRows | scripts/gate_process.py:34-63 | reading the file equals decoding its whole lines and checking their shape |
| LedgerFile.SharedLedger.Append | scripts/gate_process.py:66-70 | one append leaves the whole row or exactly as much of it as was taken, and succeeds exactly when all of it was taken and synced |
| LedgerFile.SharedLedger.Seal | scripts/gate_process.py:73-85 | sealing succeeds exactly for a readable, open ledger whose closure is written whole and synced, returns exactly the rows it closes over, writes nothing otherwise, and leaves a readable ledger exactly when the closure fits |
| CustodyMachine.RunKeeps | scripts/gate_process.py:288-319 | in every interleaving of spawners, failures, kills and one sealer the ledger is groups then at most one closure, every admitted group is in it, and every group in it has its spawner |
| LedgerTruth.EveryReader | scripts/gate_process.py:28-63 | in every interleaving, with every partial write cut anywhere, the bytes of the file are read as exactly the machine's rows, or refused exactly where the machine calls them unreadable |
| CustodyRuns.StaysPublished | scripts/gate_process.py:288-319 | a group whose row was written whole stays published, under the same group, whatever happens later |
| CustodyRuns.SpawnCompletes | scripts/process_ha_owned.py:104-138 | from every open state with the lock free and room left a new spawner can admit, start, publish, release and drain |
| CustodyRuns.SealCompletes | scripts/gate_process.py:73-85 | and the sealer can close it |
| CustodySeal.AfterSeal | scripts/gate_process.py:292-300 | once sealed, the ledger never changes again and no process is started under it |
| CustodySeal.SealedCovers | scripts/gate_process.py:288-319 | at the seal every started group is in the ledger, or its admission failed and its own spawner answers for it, or that spawner was killed |
| CustodySeal.ReservedReadable | scripts/process_ha_owned.py:110-123 | if every admission reserves, then in every interleaving the ledger with its closure stays within the limit and readable unless a write was cut short |
| CustodySeal.UnreservedExact | scripts/gate_process.py:292-300 | without the reservation an admission keeps the ledger readable exactly when its row fits and its group is new, and a seal exactly when the closure fits |
| LedgerFile.OwnedLedgerReadable | scripts/process_ha_owned.py:110-137 | the same for the bytes on disk, with 64-bit fields and the 512 byte reservation |
| LedgerFile.UnreservedUnreadable | scripts/gate_process.py:288-319 | a run of admissions without reservation that leaves an unreadable ledger |
| OwnedProcesses.Controller.DrainGroup | scripts/process_ha_owned.py:187-193 | the cleanup kept of a process is what drain found at its last inspection; an exception from drain leaves no cleanup |
| OwnedProcesses.Controller.Finish | scripts/process_ha_owned.py:187-213 | whatever the drain comes to, its exception included, only that record changes and the name is free again; the record has the cleanup, the signals, an error exactly for an earlier one or changed bytes, and is drained and stable exactly when the group drained; it succeeds exactly when drained, flushed and saved |
| OwnedProcesses.Controller.Reserve | scripts/process_ha_owned.py:110-123 | an admission goes on exactly under an enclosing ledger that is locked, readable, open and has 512 bytes left |
| OwnedProcesses.Controller.Start | scripts/process_ha_owned.py:104-138 | a process is started exactly if the receipt is saved and the ledger admits it; its record then has that process and birth, is running exactly when its whole row is written and synced, and the ledger gained exactly what was taken of that row |
| OwnedProcesses.Controller.Spawn | scripts/process_ha_owned.py:77-146 | it succeeds exactly when every step does; the record has the name, the admitted bytes, the process and its birth, and an error exactly on failure; the row that the ledger gains names that group, this owner, those bytes and that birth; a failed attempt went through finish and owns nothing |
| OwnedProcesses.GrownReadable | scripts/process_ha_owned.py:117-123 | a row of machine width for a new group leaves an admitting ledger readable and with room for the closure |
| OwnedProcesses.Controller.Close | scripts/process_ha_owned.py:215-225 | closing finishes every attempt still owned even when some fail, and succeeds exactly when each drained and was flushed and saved |
| TerminalCensus.Round | scripts/run_repeatable_assembly_owned.py:170-193 | one round asks for the leader again, stops unless it is alive with its registered birth, else sends that signal and polls up to the first failure or empty answer; it has no error exactly when none of its acts went wrong |
| TerminalCensus.CensusGroup | scripts/run_repeatable_assembly_owned.py:145-199 | one group's record and its acts: nothing for the own group or an empty one, else the identity, SIGTERM, and SIGKILL unless the first round was final; an error exactly for the own group or an act that went wrong, terminal exactly when last found empty without one |
| TerminalCensus.Take | scripts/run_repeatable_assembly_owned.py:140-206 | every group is recorded so, one after the other; a complete census found the ledger closed and each group empty as the last thing done to it; no signal went to an unregistered group, to a changed leader or to the own group |
| CustodyCensus.CompleteCensusCovers | scripts/run_repeatable_assembly_owned.py:306-317 | whatever happened before the seal and after it, a complete census has seen every admitted group empty, and every other started group is answered for by its own spawner |
| CustodyCensus.CensusOfSealed | scripts/run_repeatable_assembly_owned.py:306-317 | the same concluded from the complete flag of a census taken of the sealed rows |
| GateRun.OwnedGroup.Drain | scripts/gate_process.py:204-251 | each signal directly follows an inspection that did not find the group empty, SIGTERM is sent unless the second inspection did and SIGKILL unless the last but one did; the record tells the first and last inspection, each made right after a poll, the signals delivered, and an error for exactly each unanswered inspection and each refusal that stands |
| GateRun.OwnedGroup.Wait | scripts/gate_process.py:321-332 | the wait ends at a signal, the deadline, an exception or the child's exit, and says which; after a signal the clock is read at most once more; it always ends |
| GateRun.OwnedGroup.Run | scripts/gate_process.py:254-378 | over everything that happened: 124 for a deadline passed, else 128 and the first signal before the decision, else 125 for an exception or an unclean group, else the child's own code; timed out, failed, executable, group, exit and signals are exactly what happened; passed exactly when the child exited 0 in time with no signal before the decision, no exception, and the group found empty and drained |
| GateRun.VerifiedExactly | scripts/package_release.py:234-264 | the verifier accepts exactly the gate of a record, under its timeout, that passed as run makes it pass, names its command's executable, and holds no late signal and no cleanup signal |
| GateRun.RecordVerified | scripts/package_release.py:234-264 | so of the records of run it accepts those that passed, name their executable, saw no signal at all and had none delivered |
| GateRun.LateSignals | scripts/gate_process.py:355-378 | a verified record that, with any signals arrived after the decision, is still passed and as run makes them, and is refused |
| Compaction.FreshIsLater | benchmarks/redis-comparison/run.py:241-242 | with any response delay a fresh answer was published after the reference time |
| Compaction.PairIsEnough | benchmarks/redis-comparison/run.py:231-242 | with two fresh idle answers and no busy one between, the second was captured after the first was published, so after the request returned |
| Compaction.Wait | benchmarks/redis-comparison/run.py:227-256 | the wait finishes exactly with the first such pair, each fresh against the clock after the busy answer or the confirmation before it, and otherwise goes on past the deadline |
| Compaction.Compact | benchmarks/redis-comparison/run.py:213-256 | which of the five outcomes it has, exactly; if it returns in finish mode, some status captured after the request returned shows it consumed and the store idle, for every publisher schedule and delay |
| Compaction.OneIsNotEnough | benchmarks/redis-comparison/run.py:235-238 | a trace in which one fresh idle publication was captured before the request |
| Compaction.DelayMatters | benchmarks/redis-comparison/run.py:239-242 | a trace in which, without response delay, one publication counts twice |
| Listener.ReachKeeps | benchmarks/results/listener-startup-20260905/tls-after.rs:385-444 | every reachable state keeps the permit count, the audit order and the reason for the end |
| Listener.RunSafe | benchmarks/results/listener-startup-20260905/tls-after.rs:373-459 | in every run live connections never exceed the limit, service starts only after its accepted audit succeeded, an audit is tried for every connection that got a permit and ended while listening (one dropped for lack of a permit gets none, and a failed audit counts), only a shutdown or a failed accept ends the loop, and on return no task is left and the error is exactly the failed accept's |
| Listener.ConnectionServed | benchmarks/results/listener-startup-20260905/tls-after.rs:396-441 | while the loop accepts and a permit is free, a connection can come to its service: configured, audited, started, with one permit less |
| Listener.LimitsRefused | benchmarks/results/listener-startup-20260905/tls-after.rs:373-379 | limits are refused exactly when one of them is zero |
| Listener.TaskKeeps | benchmarks/results/listener-startup-20260905/tls-after.rs:405-441 | whatever a connection task does, a failed socket setup included, the accept loop goes on |
| Listener.EndingProgresses | benchmarks/results/listener-startup-20260905/tls-after.rs:447-457 | after the loop no connection is taken and every step brings the return closer |
| Listener.EndingReturns | benchmarks/results/listener-startup-20260905/tls-after.rs:447-457 | however tasks are scheduled after the loop, a bounded number of steps is left and a run is stuck exactly when it has returned |
| TransportCensus.Census | scripts/transport_assembly_evidence.py:91-129 | census accepts exactly the trees within every limit and records each node once and the sum of lengths, for every scan order |
| TransportTree.GoodPathExactly | scripts/transport_assembly_evidence.py:204-218 | a path is good exactly when its name splits at its slashes into those at most 64 parts, none empty or dotted, without a backslash and within 4096 bytes |
| TransportTree.Utf8Exactly | scripts/transport_assembly_evidence.py:106 | one byte for seven bits, two for eleven, three for sixteen, four for the rest |
| TransportTree.ModesExactly | scripts/transport_assembly_evidence.py:209-218 | permission bits only, with all of the owner's for a directory and the owner's read for a file |
| TransportManifest.Validate | scripts/transport_assembly_evidence.py:182-242 | the validation loops accept exactly the manifests with good rosters, housed paths, exact counts and total |
| TransportManifest.SumFiles | scripts/transport_assembly_evidence.py:213-223 | stopping early at the cap refuses only manifests whose whole total is over it |
| TransportManifest.NoFileAbove | scripts/transport_assembly_evidence.py:224-232 | in an accepted manifest no file is an ancestor of another path |
| TransportManifest.DescribesTree | scripts/transport_assembly_evidence.py:182-242 | an accepted manifest with matching file bytes is a tree whose census gives the manifest back |
| TransportManifest.CensusValid | scripts/transport_assembly_evidence.py:91-129 | the census of a tree is an accepted manifest that describes that very tree |
| TransportArchive.ChecksExact | scripts/export_functional_evidence.py:241-257 | the member checks pass exactly the member the writer makes, extended headers included |
| TransportArchive.LongExactly | scripts/export_functional_evidence.py:244 | a name needs an extended header exactly when it has more than a hundred characters, or more bytes than characters |
| TransportArchive.RecordSizeLeast | scripts/transport_assembly_evidence.py:373-374 | the archive size is the least multiple of 10240 that holds the data and two zero blocks |
| TransportRead.CheckDirs | scripts/transport_assembly_evidence.py:332-340 | the directory loop accepts exactly the directory members of the manifest, in order |
| TransportRead.CheckFiles | scripts/transport_assembly_evidence.py:341-371 | the file loop accepts exactly the listed files in order with matching bytes, none extra and none missing |
| TransportRead.CheckArchive | scripts/transport_assembly_evidence.py:305-378 | the reader accepts exactly the archives whose members are the sequence their manifest fixes, with the canonical size and trailer |
| TransportWrite.LimitedWriter.Write | scripts/export_functional_evidence.py:191-202 | nothing is written past the limit, and a failed write leaves a part of its bytes |
| TransportWrite.LimitedWriter.WriteAll | scripts/export_functional_evidence.py:191-202 | however a stream is cut into writes, success means all of it within the limit, and a refusal for size that the whole is over it |
| TransportPack.TrailerExact | scripts/transport_assembly_evidence.py:373-374 | two zero blocks and padding only of a begun record give the size the reader computes |
| TransportPack.TarStream.AddFiles | scripts/transport_assembly_evidence.py:270-274 | each file is read from the tree in manifest order; refused for size only if the whole member sequence is over the limit |
| TransportPack.TarStream.Close | scripts/transport_assembly_evidence.py:255-277 | the closed stream is the members one after the other and zeros, of the least whole number of records |
| TransportPack.ArchiveWrite | scripts/transport_assembly_evidence.py:245-285 | what is published is accepted for the given manifest and the files the tree held; it fails for size only when the least whole number of records is over the cap, and never succeeds then; the check refuses nothing that matches its manifest |
| TransportDelivery.Produce | scripts/transport_assembly_evidence.py:420-438 | a tree is refused exactly when it is over a limit of the census or the manifest, and its archive is accepted for that tree's own manifest and files |
| TransportDelivery.Deliver | scripts/transport_assembly_evidence.py:305-398 | from census to restoration: the tree arrives exactly as it was, unless its archive is over the cap or a write fails |
| TransportWrite.AcceptedOnce | scripts/transport_assembly_evidence.py:305-378 | an archive is accepted for one manifest and one set of files only |
| TransportRestore.MakeDirectories | scripts/transport_assembly_evidence.py:325-331 | in depth order every mkdir finds its parent made and its path free |
| TransportRestore.Restore | scripts/transport_assembly_evidence.py:325-386 | restoring an accepted archive never fails and leaves exactly the tree its manifest describes |
| TransportWrite.RestoredCensus | scripts/transport_assembly_evidence.py:388-391 | the census of the restored tree is the manifest's inventory, so the final comparison never fails |
| Markdown.ScanKeeps | scripts/preserve_ledger_evidence.py:119-161 | every line gets one kind, the list-item stack is strictly increasing, and an open fence is a run of at least three |
| MarkdownLaw.KindsExactly | scripts/preserve_ledger_evidence.py:110-161 | the kinds of a document's lines are the only ones that keep this law: in a fence code up to the line that closes it; outside, blank is prose, code exactly when no paragraph is open and the line is four columns past every item it is still inside, a delimiter exactly when it opens a fence, else prose |
| MarkdownTokens.IndentExactly | scripts/preserve_ledger_evidence.py:97-107 | a line is its spaces and tabs, as wide as tab stops every four columns make them, and its content |
| MarkdownTokens.ItemExactly | scripts/preserve_ledger_evidence.py:64 | a list item is a marker, then all the spaces there are, at least one unless the line ends |
| MarkdownTokens.FenceExactly | scripts/preserve_ledger_evidence.py:63 | a fence opens with a whole run of three or more backticks or tildes, and no other backtick after backticks |
| MarkdownTokens.ClosesExactly | scripts/preserve_ledger_evidence.py:126-129 | it is closed by a run of its character at least as long, with nothing but white space after |
| Markdown.FencedDocument | scripts/preserve_ledger_evidence.py:125-133 | in any document the line that opens a fence is a delimiter, every line after it is code, and the first line that closes it is a delimiter again |
| Markdown.UnclosedDocument | scripts/preserve_ledger_evidence.py:125-133 | a fence that is never closed makes code of every line to the end |
| Segments.ScanLines | scripts/preserve_ledger_evidence.py:119-161 | with the kinds that law fixes, code lines go out whole under their own numbers, prose lines stay where they were, all others are emptied |
| Segments.CodeLineExact | scripts/preserve_ledger_evidence.py:125-146 | a fragment is a code line exactly when it is a whole line of kind code under its number |
| Fragments.CutSpans | scripts/preserve_ledger_evidence.py:163-172 | spans go out with the line their content starts on; blanking keeps length and newlines |
| Citations.BisectRow | scripts/preserve_ledger_evidence.py:164-168 | the search among line starts gives the number of newlines before an offset |
| Segments.Segment | scripts/preserve_ledger_evidence.py:110-172 | the fragments cover the document, and every token in a fragment starts at its own column of the document line recorded for it |
| Prefixes.LinesKept | scripts/preserve_ledger_evidence.py:213-222 | with newline-free prefixes removed, the scanned text has the document's lines one for one, each with its own occurrences taken out |
| Prefixes.SameCharacter | scripts/preserve_ledger_evidence.py:213-222 | every character of the scanned text is the one at its place in the document |
| Prefixes.RowsKeptExactly | scripts/preserve_ledger_evidence.py:213-222 | every place keeps its line number exactly when no removed prefix holds a newline |
| Prefixes.NewlineInPath | scripts/preserve_ledger_evidence.py:213-222 | every repository whose path holds a newline has a document whose first token is recorded too high |
| Segments.Scan | scripts/preserve_ledger_evidence.py:219-229 | prefixes removed first, every token still stands in the line of the original document that is recorded for it |
| Fragments.RecordedRow | scripts/preserve_ledger_evidence.py:224-229 | the recorded line is the fragment's number plus the newlines before the token |
| BraceSteps.ExpandExact | scripts/preserve_ledger_evidence.py:175-180 | for every token: the expansion holds exactly the group-free texts reached by replacing groups by choices, in any order |
| BraceProduct.ExpandProduct | scripts/preserve_ledger_evidence.py:175-180 | brace expansion of a flat template is the full product of its choices, in order |
| BraceProduct.Expanded | scripts/preserve_ledger_evidence.py:175-180 | expansion ends for every token, nested groups included, and leaves no group |
| EvidenceStore.Destination.Publish | scripts/preserve_ledger_evidence.py:440-451 | publishing never replaces a file, and succeeds exactly when what is there matches |
| EvidenceStore.Destination.Write | scripts/preserve_ledger_evidence.py:453-472 | generated bytes are stored once; the same bytes again change nothing, other bytes are refused |
| EvidenceStore.Destination.CopyFile | scripts/preserve_ledger_evidence.py:507-544 | a still source is copied, matched, recorded by hash or refused, and the destination changes only by its creation |
| EvidenceStore.Destination.Pass | scripts/preserve_ledger_evidence.py:684-781 | after a whole pass every earlier file is unchanged and every record of a copy is true of the destination |
| EvidenceStore.SecondPass | scripts/preserve_ledger_evidence.py:684-781 | a second pass over unchanged sources ends in the same results and leaves the destination as it was |
| EvidenceStore.SecondPassSame | scripts/preserve_ledger_evidence.py:653-681 | so the second pass makes the same operations, inventories and manifest included |
| EvidenceStore.SecondRun | scripts/preserve_ledger_evidence.py:684-781 | both for any plan of operations whose copies lie under target and whose generated files lie elsewhere |
| EvidencePasses.RunKeeps | scripts/preserve_ledger_evidence.py:433-472 | however passes interleave and sources change, a published file never changes and every record of a copy stays true |
| EvidencePasses.AloneIsSequential | scripts/preserve_ledger_evidence.py:507-544 | a pass left alone does to the destination, and records, exactly what one operation does |
| EvidenceTree.WalkMore | scripts/preserve_ledger_evidence.py:287-306 | a path leads on through directories that open, and through nothing else |
| Preservation.VisitCovers | scripts/preserve_ledger_evidence.py:585-619 | everything below a cited directory is in its inventory, refused by way of it, or under a pruned cache directory |
| Preservation.SameAnswer | scripts/preserve_ledger_evidence.py:621-681 | what a cited path came to once it comes to again, however the destination has grown since |
| Preservation.AnswerTold | scripts/preserve_ledger_evidence.py:621-681 | a cited path is absent exactly when nothing is there, has one entry or one refusal of its own otherwise, and every other refusal it causes names it as the way |
| PreservationRun.Run.File | scripts/preserve_ledger_evidence.py:495-505 | one record for each path in a run: the digest and length of the file there, copied exactly when the destination holds matching bytes, or nothing because it could not be read or other bytes are in its place |
| PreservationRun.Run.Directory | scripts/preserve_ledger_evidence.py:585-619 | the recursion with its cache and shared list finds what the tree and the destination it leaves decide, and writes nothing where nothing is left to copy |
| PreservationRun.Run.Reference | scripts/preserve_ledger_evidence.py:621-681 | the same for a cited path, its inventory file included |
| LedgerSummary.FiledParted | scripts/preserve_ledger_evidence.py:721-738 | one more cited path adds exactly itself to entries, missing, phrases and cited refusals together |
| LedgerSummary.ExactlyOnce | scripts/preserve_ledger_evidence.py:721-738 | each cited path is in exactly one of entries, missing, known phrases and cited refusals, and once, whatever else the shared list of refusals holds |
| LedgerSummary.Preserve | scripts/preserve_ledger_evidence.py:721-756 | every cited path is filed as the checkout decides, and the stated count of references is entries plus missing plus cited refusals |
| LedgerSummary.PreserveTwice | scripts/preserve_ledger_evidence.py:684-781 | a second run over the same checkout, on the destination the first one left, gives the same lists and writes nothing |
| Backoff.DelayIs | scripts/dev_standalone.py:345-347 | delays double up to the ninth failure and then stay at the cap |
| Backoff.NewDue | scripts/dev_standalone.py:362-375 | a new process has not run or failed, and its first start is due from the beginning |
| Backoff.TriedGood | scripts/dev_standalone.py:427-447 | a launch attempt keeps an entry never both running and scheduled, and its attempts spaced |
| Backoff.ExitedGood | scripts/dev_standalone.py:449-475 | so does every exit |
| Backoff.ExitedExactly | scripts/dev_standalone.py:449-475 | a process that ended is due again after its delay unless it ended cleanly and is not the one that keeps the machine awake; ten minutes of running clear the failures before |
| Backoff.TriedExactly | scripts/dev_standalone.py:427-447 | a start runs from then on, or is due again after one failure more |
| Backoff.LaunchRate | scripts/dev_standalone.py:420-425 | any n consecutive attempts with no healthy run between them, whatever came before, take at least 2^(n-1)-1 seconds up to ten and 511+300(n-10) beyond |
| SupervisorRun.Supervisor.Launch | scripts/dev_standalone.py:427-447 | a launch changes one entry exactly as its start went and keeps every schedule invariant |
| SupervisorRun.Supervisor.ReapOne | scripts/dev_standalone.py:449-475 | one entry changes exactly if its process ended, as it ended; a clean end of the server, and nothing else here but a request, starts the stop |
| SupervisorRun.Supervisor.Reap | scripts/dev_standalone.py:449-475 | every process that ended is handled once, every other entry is unchanged |
| SupervisorRun.Supervisor.LaunchDue | scripts/dev_standalone.py:499-502 | every start due when the round began is tried, and no other |
| SupervisorRun.Supervisor.StopKind | scripts/dev_standalone.py:517-533 | every running process of a kind is signalled and reaped, others are untouched |
| SupervisorRun.Supervisor.Shutdown | scripts/dev_standalone.py:515-535 | shutdown leaves nothing running; the server is signalled only with every watcher reaped, the rest last |
| SupervisorRun.Supervisor.Run | scripts/dev_standalone.py:482-513 | once a stop is seen, which somebody requested or a clean end of the server caused, nothing more is launched, and at the end nothing runs; an exception in a round ends it with no process signalled |
| LockProjection.CutConcat | scripts/path_patch_projection.py:145-151 | a lock cut at its package headers is joined and cut again the same way |
| LockProjection.Project | scripts/path_patch_projection.py:145-175 | the projection is accepted exactly when every block is, erasing the inserted pairs gives back the original, and every row reads as before but for the two fields of vendor rows, which is the comparison the code itself makes |
| LockProjection.ProjectionUndone | scripts/path_patch_projection.py:147-165 | erasing the pairs from the joined pieces gives back the original lines |
| ReleaseStreams.CheckSoak | scripts/verify_release_acceptance.py:392-410 | the streaming loop accepts exactly the heartbeat streams of a whole soak |
| ReleaseStreams.SoakedExactly | scripts/verify_release_acceptance.py:392-410 | an accepted soak, without its count: a day or more from zero in steps of at most a minute, work done in each, no error and no mismatch |
| ReleaseStreams.GapsForceCount | scripts/verify_release_acceptance.py:401-410 | the gap rule alone already forces 1441 heartbeats |
| ReleaseStreams.NeverSilent | scripts/verify_release_acceptance.py:392-410 | no instant of an accepted soak is more than 30 seconds from a heartbeat |
| ReleaseStreams.CheckIntegrity | scripts/verify_release_acceptance.py:339-350 | the streaming loop accepts exactly the contiguous streams with the exact totals |
| ReleaseStreams.VerifiedExactly | scripts/verify_release_acceptance.py:339-350 | an accepted stream, without its sum: each batch begins where the one before it ends, the last at the number of documents |
| ReleaseStreams.Tiles | scripts/verify_release_acceptance.py:339-350 | in an accepted stream every document lies in exactly one batch |

## Left out

- Digests, timestamps, the loading of referenced JSON and the table of kinds are parameters of the journal model; the tamper theorem assumes no collision among the bytes hashed in the two journals, since a digest of fixed length is not injective.
- JSON numbers with a fraction.
- LedgerFile.ReadRows: reads canonical rows only, because only rows that the tools write reach it; the JSON reader itself is more lenient.
- Symbolic links, the resolution of `begin`'s output path, and the window in `create` between the index's creation and its lock.
- Durability below `fsync`: an effect is on disk when it is made.
- LedgerFile.SharedLedger.Seal: the lock is not in this contract, because mutual exclusion is stated by the machine in CustodyMachine.
- The receipt files of `OwnedProcesses`, its crash injection and the experiment deadline's value: record updates. How far a `drain` got before it raised is not recorded there and not modelled.
- AttemptLengths.LongStartKills: the timestamp reader is a parameter, so the lemma speaks of the readers that take more than six fraction digits.
- TerminalCensus.Round: the five seconds of polling are any number of polls.
- `child_ledger` and the launcher callbacks around the seal and the census: a roster comparison over seven fixed receipts.
- `executable_identity` and the callbacks of `run` appear as free successes and failures.
- The JSON file of a receipt and its digest: verification starts from the parsed record.
- Floating point: times are reals. The rounding of a run's length is a free slack of 0.05 seconds.
- GateRun.LateSignals: the record is one that `Run` may return by its contract; that some run returns it is not stated.
- EvidenceStore.SecondRun: is about any plan over results; the loop itself is in LedgerSummary.PreserveTwice.
- TLS, HTTP and certificate handling in the listener; `accept` and each task's progress are steps.
- Tar header bytes, and the buffering of the tar stream: the header bytes of a member are a parameter, and an archive is its members, its size and its trailer.
- TransportRead.CheckArchive: does not state the comparison of the archive file's own digest before and after reading, because the archive is a value here.
- TransportManifest.Validate: does not state the checks of the identity fields, which compare fixed fields; that the bytes are canonical is left to the decoder.
- TransportPack.ArchiveWrite: the temporary file and its link into place are one value here.
- Regular expressions for code spans and tokens: spans are any ordered matches, tokens any stretch without blanks, and occurrences of the repository's path any pieces of the document.
- Segments.Segment: list markers take ASCII digits only.
- File metadata, the manifest's own copy and the exceptions that abort a preservation run.
- PreservationRun.Run.Reference: does not carry the citations themselves, which are copied; what the system refuses is a parameter of the run, one answer for each path.
- EvidenceStore.Destination.CopyFile: is about a source that holds still; a source that changes while it is read is in EvidencePasses.
- TOML parsing in the lock projection is a parameter, applied block by block; the lock is its newline-terminated lines, and the vendor roster is given.
- LockProjection.Project: does not state the roster checks of vendor and workspace packages, which are set comparisons.
- Soak maintenance events and the capacity checks around the integrity stream: field comparisons.
- State files, log lines and the wake-up pipe of the supervisor; the wait between rounds is free.
- `crates/kasumi-authority` and the storage engine are not part of this model.
