# A model of servicrab's coordinating code, and proofs about it

servicrab supervises a stack of processes.  This project models the parts of it
that other parts rely on without being able to check: the one-daemon lock, the
bounded event channel, the dependency graph and the plans built on it, the
include loader, the two small text languages, the log writer and the log
follower, restart decisions, health counters, and the file watcher.  Each module
says in Dafny what the code does, branch by branch, and proves what the rest of
the program takes for granted about it.

`dafny verify dfyconfig.toml` checks everything.

| module | models |
|---|---|
| `Prelude`, `Order`, `Text` | options and results; lists of names in order; lines and white space |
| `ProjectLock` | `ProjectLock::acquire` and its `Drop` as system calls of any number of processes |
| `EventProtocol` | the event channel's two atomics and its queue, one atomic operation a step |
| `EventChannel` | the same channel with sends and receives taken whole |
| `EventRelay` | the channels of a whole stack and the relays that pass their events on to the global one |
| `Graph` | the topological sort and the search for a cycle |
| `Validation` | the cross-service dependency checks and the graph they hand to the sort |
| `Plan` | what a stack command starts, and which dependents are held back |
| `Include` | the loader that merges configuration fragments |
| `Subst` | `${VAR}` expansion |
| `EnvFile` | the dotenv parser |
| `Stopped` | the file of hand-stopped services |
| `LogWriter` | rotating log files |
| `LogFollow` | showing and following a log file |
| `Lifecycle` | backoff, restart decisions, the service state machine |
| `Health` | the health monitor's counters |
| `TreeScan`, `FileWatch` | the scan of a watched tree; comparing scans and debouncing |

Code that changes things in place is a class or a method with loops, proved
against a function of the old state; the properties are lemmas about those
functions, over all inputs and all runs.

## Where the code and its words differ

The model follows the code.

- `subst.rs:225` has an arm for `$$` whose comment says that an escaped brace
  does not count.  The arm never changes the depth, so a brace after `$$` counts
  like any other: `Subst.SplitIsFirstBalance`.  A default that is just an
  escaped opener, `${X-$${}`, is refused for want of a brace
  (`Subst.AnEscapedBraceCounts`); a reference ends where its author ends it
  exactly when its default opens and closes its braces in turn
  (`Subst.ReferenceEndsExactlyWhen`).
- `lifecycle.rs:336-340` promises `min(restart_delay * 2^attempt,
  restart_max_delay)`.  The factor stops at 2^32 - 1, so the promise holds
  exactly when the attempt is below 32, or the delay is zero, or the delay times
  2^32 - 1 reaches the ceiling: `Lifecycle.ClosedFormHoldsExactlyWhen`, with
  1 ns and 10 s at attempt 40 as the failing input.  The ranges that
  `validation.rs` enforces are on the good side of it.
- `health.rs:292-294` says that once the counter sits at its ceiling nothing is
  reported any more.  From 100 000 retries up the ceiling is `retries` itself,
  and every later failure is reported and signalled again:
  `Health.SignalsAlternateExactlyWhen`, `Health.LargeBudgetsPublishForEver`.
- `plan.rs:179-186` computes dependents in one pass.  That is right because the
  plan is in start order; out of order it can miss one:
  `Plan.OnePassNeedsTheOrder`.
- `filewatch.rs:126-129` looks at the file limit before it looks at the entry,
  so a scan of exactly 20 000 files says it was cut short when one more entry
  follows, even an ignored one: `TreeScan.ACompleteScanCanSayItWasCut`.  The
  flag is set exactly when an entry comes after 20 000 recorded files
  (`TreeScan.CutShortExactlyWhen`), and a file is missed exactly when there are
  more than 20 000 (`TreeScan.NothingIsMissedExactlyWhen`).
- `stopped.rs:50-54` counts an unreadable file as one service started too many.
  A stop recorded while it cannot be read replaces it, and every other service
  in it is forgotten for good: `Stopped.TheLastChangeDecides`.

## Model

| member | source | states |
|---|---|---|
| ProjectLock.AtMostOneDaemon | crates/servicrab-cli/src/daemon/lock.rs:57-117 | in every interleaving of any number of starting, exiting and killed processes, a process past the check is the only one that has acquired and not yet unlinked, the file it locked is the one at the path, and once `acquire` returned that file holds its pid |
| ProjectLock.OneClaim | crates/servicrab-cli/src/daemon/lock.rs:94-96 | two processes past the check are the same process |
| ProjectLock.ClaimantIsTheDaemon | crates/servicrab-cli/src/daemon/lock.rs:89-107 | the invariant alone already makes a claimant the one daemon |
| ProjectLock.InvKept | crates/servicrab-cli/src/daemon/lock.rs:57-128 | every single system call, and every sudden death, keeps the invariant |
| ProjectLock.InvOverRuns | crates/servicrab-cli/src/daemon/lock.rs:57-128 | so every interleaving of system calls does |
| ProjectLock.EveryRetryIsPaidFor | crates/servicrab-cli/src/daemon/lock.rs:57-107 | a process that gave up after eight rounds met, since it began, at least eight unlinks by others or failures to look at the path, and no unlink of its own |
| ProjectLock.RoundsNeedUnlinks | crates/servicrab-cli/src/daemon/lock.rs:65-101 | a process in round r has met at least r of those already |
| ProjectLock.FinishedOwnsNothing | crates/servicrab-cli/src/daemon/lock.rs:110-117 | a process that ended or failed owns no lock |
| ProjectLock.DeathReleasesTheLock | crates/servicrab-cli/src/daemon/lock.rs:1-28 | however a process dies its lock is free, nobody else's is touched and the path stays as it was |
| ProjectLock.Machine.Acquire | crates/servicrab-cli/src/daemon/lock.rs:57-107 | with any steps of the others before each system call: the lock means being the one daemon, a refusal that somebody else owns a file, giving up eight removals by others, any other failure a system call that failed, and no error keeps a lock; with nobody about the answer is read off the lock table |
| ProjectLock.Machine.StillAt | crates/servicrab-cli/src/daemon/lock.rs:120-128 | yes exactly when the look worked and the path named the locked file at that moment; a file that is not the one is closed |
| ProjectLock.Machine.Drop | crates/servicrab-cli/src/daemon/lock.rs:110-117 | the process does two things and no more: it unlinks the path, which is gone at that moment unless the call failed, and then it gives up the lock, after which it owns nothing |
| EventProtocol.InvKept | crates/servicrab-core/src/runtime/event.rs:209-287 | every atomic operation, push, pop, clone and the receiver's leaving keep the counting invariant |
| EventProtocol.InvOverRuns | crates/servicrab-core/src/runtime/event.rs:209-287 | so it holds in every interleaving of any number of senders and the receiver |
| EventProtocol.TheQueueIsBounded | crates/servicrab-core/src/runtime/event.rs:150-163 | the channel never holds more than 1024 log lines, those being pushed and the one being handed out included |
| EventProtocol.ThereIsRoomFor1024 | crates/servicrab-core/src/runtime/event.rs:209-226 | a line that counts itself in with fewer than 1024 before it is admitted, in every interleaving, and any other is one too many |
| EventProtocol.FloodsEndBelow512 | crates/servicrab-core/src/runtime/event.rs:209-240 | an admitted line reports the drops first exactly when fewer than 512 were counted before it and there are any; a dropped one exactly when it is the 1024th |
| EventProtocol.TheCounterNeverUnderflows | crates/servicrab-core/src/runtime/event.rs:209-287 | `queued` is never negative, every subtraction finds at least one, and it overshoots 1024 by at most the senders about to back out |
| EventProtocol.EveryLineIsAccountedFor | crates/servicrab-core/src/runtime/event.rs:209-287 | while the receiver lives, lines sent = queued + delivered + reported dropped + pending dropped + in flight |
| EventProtocol.TheAllowanceComesBack | crates/servicrab-core/src/runtime/event.rs:283-287 | with every call returned and the channel drained the counter is zero and delivered plus dropped is what was sent |
| EventProtocol.LinesStayInOrder | crates/servicrab-core/src/runtime/event.rs:209-240 | in every run, the receiver's leaving included, the lines of one sender enter the channel in the order they were sent, and none enters twice, delivered or still queued |
| EventChannel.ReportsAreRare | crates/servicrab-core/src/runtime/event.rs:163-256 | over any sends and receives, reports of other channels among them, the reports that the channel writes number at most one per 1024 lines it lost plus one per 513 log lines delivered, and every relayed one is there once |
| EventChannel.NothingElseIsDropped | crates/servicrab-core/src/runtime/event.rs:172-180 | every event that is no log line enters the channel as it was sent and in that order |
| EventChannel.EveryLineIsKnown | crates/servicrab-core/src/runtime/event.rs:209-287 | every line asked for is queued, delivered or counted as lost by this channel, whatever else is sent through it |
| EventChannel.LossIsReported | crates/servicrab-core/src/runtime/event.rs:209-256 | fewer than 1024 lost lines are ever unreported, and a line sent with fewer than 512 queued leaves none unreported |
| EventChannel.ThereIsRoomFor1024 | crates/servicrab-core/src/runtime/event.rs:209-240 | in every run a line is let in, last and without loss, exactly while fewer than 1024 are queued, and is the one lost otherwise; what is reported when, with all the numbers written out |
| EventChannel.SendAloneIsSend | crates/servicrab-core/src/runtime/event.rs:209-240 | uninterrupted, the atomic steps of one `send` are the sequential send, of a line and of anything else |
| EventChannel.ReceiveAloneIsReceive | crates/servicrab-core/src/runtime/event.rs:267-287 | and those of one receive the sequential receive |
| EventChannel.Channel.Publish | crates/servicrab-core/src/runtime/event.rs:209-240 | sending any event refines the sequential specification and keeps the ration that the two bounds rest on |
| EventChannel.Channel.TryReceive | crates/servicrab-core/src/runtime/event.rs:276-287 | so does receiving |
| EventRelay.InvKept | crates/servicrab-core/src/runtime/stack.rs:1081-1110 | every send of a service or the supervisor, every receive and send of a relay and every read at the global end keeps lines, reports and the rations of all channels |
| EventRelay.InvOverRuns | crates/servicrab-core/src/runtime/stack.rs:1081-1110 | so they are kept in every interleaving of any number of services |
| EventRelay.NoLineIsLostSilently | crates/servicrab-core/src/runtime/event.rs:193-197 | through two channels and the relay between them every line sent is one the user got, or one a report he got stands for, or still on its way as a line, in a report or in a count |
| EventRelay.ReportsAreRareInAStack | crates/servicrab-core/src/runtime/event.rs:163-183 | the reports in the global channel, read or not, number at most one per 1024 lines lost and one per 513 delivered, summed over all the channels, besides reports that somebody sent as such |
| EventRelay.RelayedReportsAreExtra | crates/servicrab-core/src/runtime/stack.rs:1106 | the global channel's own losses do not bound what it reports: a relayed report is in it although it lost and delivered nothing |
| EventRelay.TheStackIsBounded | crates/servicrab-core/src/runtime/event.rs:159-163 | all the channels together hold at most 1024 log lines for each run of a service and 1024 for the global one |
| Graph.TopologicalSort | crates/servicrab-core/src/graph.rs:16-81 | succeeds exactly when every dependency is a service and there is no cycle; the result lists every service once with dependencies first and always takes the least ready name; an error on a closed graph is a genuine cycle |
| Graph.GreedyIsLeast | crates/servicrab-core/src/graph.rs:45-67 | taking the least ready name each time gives the lexicographically least of all start orders |
| Graph.StartOrderMeansAcyclic | crates/servicrab-core/src/graph.rs:16-81 | a graph with a start order has no cycle and no dangling dependency |
| Graph.CountEdges | crates/servicrab-core/src/graph.rs:22-43 | in-degrees and reversed edges hold every dependency as often as it is declared |
| Graph.Schedule | crates/servicrab-core/src/graph.rs:45-67 | the queue always holds exactly the ready services in order, until none is ready |
| Graph.FindCycle | crates/servicrab-core/src/graph.rs:84-113 | what is found is a cycle among the remaining services; the fallback listing is only reached when some remaining service waits on none of them |
| Graph.StuckMeansLeft | crates/servicrab-core/src/graph.rs:69-78 | when the sort is stuck on a closed graph every remaining service depends on a remaining one, so the fallback is not reached |
| Graph.CycleFinder.Dfs | crates/servicrab-core/src/graph.rs:115-154 | the search returns a cycle, or has finished everything reachable without closing a loop |
| Validation.Validate | crates/servicrab-core/src/validation.rs:341-415 | a configuration loads exactly when no step found anything, every dependency entry is sound and the graph has no cycle; it is then in the least start order; otherwise every unsound entry is reported, in order and for the first thing wrong with it, or the one error is a genuine cycle |
| Validation.NoFaultsMeansSound | crates/servicrab-core/src/validation.rs:341-396 | something is reported exactly when some entry names itself, nobody or somebody twice, or sets a condition its target cannot meet |
| Validation.WhatIsWrongWithAnEntry | crates/servicrab-core/src/validation.rs:342-395 | for each entry the one thing that is said of it, conditions and restart policies written out |
| Validation.SoundIsClosed | crates/servicrab-core/src/validation.rs:341-410 | passing the checks gives the sort the closed graph it relies on |
| Validation.DependenciesComeFirst | crates/servicrab-core/src/validation.rs:366-415 | in the start order of a loaded configuration every service comes after all its dependencies, and asks for health only where it is checked and for completion only of what is not restarted for ever |
| Validation.CheckService | crates/servicrab-core/src/validation.rs:342-395 | the loop with its set of names seen reports what the specification says |
| Plan.CollectWithDependencies | crates/servicrab-core/src/runtime/plan.rs:216-231 | ends by its visited set alone and, despite its early return, adds exactly what is reachable |
| Plan.CollectAll | crates/servicrab-core/src/runtime/plan.rs:118-131 | several roots collected in turn give the least dependency-closed set that contains them |
| Plan.PlanStack | crates/servicrab-core/src/runtime/plan.rs:101-143 | a plan is the closure of the selected roots in start order; on a loaded configuration it holds every autostart service without profiles or with a selected one, or else every service named, and besides those only what a later one needs; it is refused exactly for an unknown profile, an unknown service or when nobody was asked for |
| Plan.TheFilterPlansAsAsked | crates/servicrab-core/src/runtime/plan.rs:73-143 | the filtered closure plans exactly who is asked for and what they need, profiles and autostart spelled out |
| Plan.UndeclaredMeans | crates/servicrab-core/src/runtime/plan.rs:106-117 | a profile is known exactly when some service lists it |
| Plan.ThePlanIsComplete | crates/servicrab-core/src/runtime/plan.rs:87-143 | on a loaded configuration the plan lists the closure once each, every dependency earlier |
| Plan.FilterKeepsOrder | crates/servicrab-core/src/runtime/plan.rs:137-142 | keeping a dependency-closed part of a start order keeps dependencies first |
| Plan.OnePassIsTheFixpoint | crates/servicrab-core/src/runtime/plan.rs:179-214 | on a plan in start order the single pass gives the least set that holds the seeds and everything depending on something held |
| Plan.OnePassNeedsTheOrder | crates/servicrab-core/src/runtime/plan.rs:179-214 | out of start order one pass can miss a dependent |
| Plan.ComputeWithDependents | crates/servicrab-core/src/runtime/plan.rs:187-214 | the loop computes that pass |
| Plan.HeldBack | crates/servicrab-cli/src/daemon/stopped.rs:210-231 | the held services are the pass from the remembered `unless-stopped` ones, and none when there are none |
| Plan.TheRestCanStart | crates/servicrab-cli/src/daemon/stopped.rs:204-231 | the plan without them is still dependency-closed, and whoever is held was stopped by hand under `unless-stopped` or needs someone who is held |
| Include.LoadsExactlyWhenFaultless | crates/servicrab-core/src/include.rs:29-139 | for every include graph, cycles included, the load ends, and reports nothing exactly when the files form a tree of readable fragments without version or project, no file twice and no service name twice |
| Include.FaultlessMergeIsTheUnion | crates/servicrab-core/src/include.rs:77-139 | the result is then the disjoint union of the root's services and every file's, each with its file as origin |
| Include.RootServicesStay | crates/servicrab-core/src/include.rs:108-130 | even in a faulty set of files the root's services are never overridden |
| Include.EveryErrorIsTrue | crates/servicrab-core/src/include.rs:58-139 | every error reported of a faulty set of files is so: cycles, files included twice, unreadable and unparsable ones, forbidden fields, and services declared in both files named, the first of which is the one kept |
| Include.ReportedCyclesAreCycles | crates/servicrab-core/src/include.rs:77-97 | a reported include cycle is one: each file includes the next and the last is the first |
| Include.Merge | crates/servicrab-core/src/include.rs:29-47 | the loader's services and errors are those of the recursive specification |
| Include.Loader.MergeOne | crates/servicrab-core/src/include.rs:77-139 | one include, its chain restored afterwards, refines the specification |
| Subst.SplitIsFirstBalance | crates/servicrab-core/src/subst.rs:211-235 | a reference ends at the first brace that balances its opening one, `$$` making no difference, and has no end exactly when none does |
| Subst.ReferenceEndsExactlyWhen | crates/servicrab-core/src/subst.rs:211-235 | whatever follows it, a printed reference is split at its own closing brace if and only if its default, as printed, is balanced |
| Subst.BodyIsFoundExactlyWhen | crates/servicrab-core/src/subst.rs:211-235 | and so any text between the braces, if and only if it is balanced |
| Subst.AnEscapedBraceCounts | crates/servicrab-core/src/subst.rs:224-228 | the failing input: a default that is an escaped opener is refused whatever the variables are, where its author means `${` when the variable is unset |
| Subst.PrintedTemplatesExpand | crates/servicrab-core/src/subst.rs:182-275 | for every well-formed template of literals, escapes and references with nested defaults, expanding what it prints to gives the template's value or its first undefined variable |
| Subst.ValuesAreNotRescanned | crates/servicrab-core/src/subst.rs:182-275 | whatever a reference resolves to is copied behind the text before it as it is, and only what follows the reference in the input is expanded on |
| Subst.EscapedTextSurvives | crates/servicrab-core/src/subst.rs:182-206 | writing every `${` as `$${` is undone by expansion, for all strings |
| Subst.ScanBraced | crates/servicrab-core/src/subst.rs:211-235 | the scanning loop finds that brace |
| Subst.ExpandValue | crates/servicrab-core/src/subst.rs:182-206 | the copying loop computes the expansion, and its recursion through defaults ends |
| Subst.ReferencesAreAsInTheShell | crates/servicrab-core/src/subst.rs:238-275 | a bare name has to be defined, `-` replaces what is undefined and `:-` also what is empty, a default is only expanded when it is needed, and any other text after a name is refused |
| Subst.AnyWordCanBeReferredTo | crates/servicrab-core/src/subst.rs:238-292 | any letter or underscore followed by letters, digits and underscores can be referred to: its value, its default in either form, or its name as undefined |
| Subst.OthersNameNothing | crates/servicrab-core/src/subst.rs:238-250 | a reference that begins with anything else has no name |
| Subst.ANameEndsAtTheFirstOther | crates/servicrab-core/src/subst.rs:277-292 | a name ends at the first character outside that class, and what follows has to be a default |
| Subst.ExpandList | crates/servicrab-core/src/subst.rs:138-155 | each element of a list is expanded in place, one that fails stays as it was and is reported |
| EnvFile.LaterAssignmentsWin | crates/servicrab-core/src/envfile.rs:62-100 | a text that parses has no wrong line and gives each key the value of the last line assigning it, and no other key |
| EnvFile.TheFirstWrongLineIsReported | crates/servicrab-core/src/envfile.rs:62-100 | a text is refused exactly for its first wrong line, with that line's number and reason |
| EnvFile.QuotedIsRead | crates/servicrab-core/src/envfile.rs:112-153 | any value, written in double quotes with backslash, quote, newline, carriage return and tab escaped, is read back |
| EnvFile.WrittenIsRead | crates/servicrab-core/src/envfile.rs:62-100 | a written line is read as the assignment it was, for every admissible key |
| EnvFile.WrittenFilesAreReadBack | crates/servicrab-core/src/envfile.rs:62-100 | so is every list of assignments, repeated keys included: behind a byte-order mark always, and without one unless its own first character is one |
| EnvFile.EnvironmentsRoundTrip | crates/servicrab-core/src/envfile.rs:62-100 | a map written key by key in any order is read back as it was if and only if the first key written does not begin with a byte-order mark |
| EnvFile.MarkedEnvironmentsRoundTrip | crates/servicrab-core/src/envfile.rs:62-100 | behind a byte-order mark of its own every map with admissible keys is read back |
| EnvFile.AMarkIsTakenForTheFiles | crates/servicrab-core/src/envfile.rs:62-64 | the failing input: a mark at the start of the first key is taken for the file's and the key comes back without it |
| EnvFile.SingleQuotesAreLiteral | crates/servicrab-core/src/envfile.rs:102-153 | between single quotes nothing is special, and after them only white space and a comment are accepted |
| EnvFile.UnquotedEndsAtAComment | crates/servicrab-core/src/envfile.rs:102-166 | an unquoted value ends before any white space whose last character is an ASCII one and a `#`, while a `#` inside a word belongs to it |
| EnvFile.UnquotedIsItself | crates/servicrab-core/src/envfile.rs:102-166 | an unquoted value without a comment is itself without the white space behind it |
| EnvFile.PlainAssignmentsAreRead | crates/servicrab-core/src/envfile.rs:66-110 | plain `KEY=value` assigns the value as it stands |
| EnvFile.BackslashesMean | crates/servicrab-core/src/envfile.rs:112-142 | what a backslash and each character after it stand for between double quotes, and what is refused |
| EnvFile.WrongLines | crates/servicrab-core/src/envfile.rs:76-93 | a line is refused for want of an `=`, and for what stands before the first one exactly when that is no key |
| EnvFile.NoKey | crates/servicrab-core/src/envfile.rs:83-89 | what is no key: nothing, and what holds white space or a NUL |
| EnvFile.SilentLines | crates/servicrab-core/src/envfile.rs:66-71 | a line says nothing exactly when it is blank or begins with a `#` |
| EnvFile.ExportMakesNoDifference | crates/servicrab-core/src/envfile.rs:66-97 | any line that assigns assigns the same with `export` in front of it, white space included, unless it says so already |
| EnvFile.ReadQuoted | crates/servicrab-core/src/envfile.rs:112-153 | the scanning loop computes the quoted value and refuses a dangling backslash, a missing quote and text after the quote |
| EnvFile.StripTrailingComment | crates/servicrab-core/src/envfile.rs:156-166 | an unquoted value ends before the first `#` that begins it or follows white space |
| EnvFile.ParseFile | crates/servicrab-core/src/envfile.rs:62-100 | the loop over the lines computes the specification, byte-order mark dropped |
| Stopped.WrittenNamesAreRead | crates/servicrab-cli/src/daemon/stopped.rs:61-78 | a rendered set of names parses to that set, whatever the order and despite the version line |
| Stopped.ParsedNamesAreNames | crates/servicrab-cli/src/daemon/stopped.rs:61-67 | whatever a hand edit leaves in the file, the names read from it can be rendered and read again |
| Stopped.NamesAreReadFromLines | crates/servicrab-cli/src/daemon/stopped.rs:61-67 | a name is read exactly when some line, trimmed, is that name and no comment |
| Stopped.RenderedLineByLine | crates/servicrab-cli/src/daemon/stopped.rs:70-78 | the file is the version line and then one name a line |
| Stopped.Memory.WriteAtomically | crates/servicrab-cli/src/daemon/stopped.rs:125-164 | wherever the write fails or the machine stops, and whatever unsynced bytes a power cut then loses, the name stands for the old contents or the whole new ones |
| Stopped.TheSyncIsNeeded | crates/servicrab-cli/src/daemon/stopped.rs:147-153 | the same write without the sync can leave neither the old contents nor the new, unless the new ones have no other beginning; with it, never |
| Stopped.Memory.Record | crates/servicrab-cli/src/daemon/stopped.rs:88-105 | a change adds one name to what was read, removes one, or leaves the file as it was, and one that changes nothing writes nothing; a file that cannot be read counts as empty and is replaced |
| Stopped.Memory.Reconcile | crates/servicrab-cli/src/daemon/stopped.rs:177-202 | exactly the unknown names among those read are forgotten, and a file left empty is removed |
| Stopped.TheLastChangeDecides | crates/servicrab-cli/src/daemon/stopped.rs:50-105 | over any history a service is remembered as its own last successful change left it, unless a stop recorded after a failed reading came later, which forgets every other service |
| Stopped.RecordAll | crates/servicrab-cli/src/daemon/stopped.rs:88-105 | what the file says after a history of changes is that |
| LogWriter.OnlyWholeGenerationsAreLost | crates/servicrab-core/src/runtime/logs.rs:87-154 | after any writes and flushes, what fell out, the rotated files oldest to newest, the current file and the buffer are the whole history in order; only whole generations fall out, no line is split, each file is at most `max_size` or a single entry, and the disk lacks at most the last 255 lines |
| LogWriter.NothingIsLostWhileASlotIsFree | crates/servicrab-core/src/runtime/logs.rs:113-154 | nothing falls out while one of the `max_files` numbers is free |
| LogWriter.ALineThatFitsStays | crates/servicrab-core/src/runtime/logs.rs:87-110 | a line that fits, or finds an empty file, is appended and moves no file; any other begins a new file; every 256th line flushes and none before it |
| LogWriter.GenerationsArePacked | crates/servicrab-core/src/runtime/logs.rs:87-92 | a rotation happens only for want of room: every file closed since the log was opened was too full for the line that the next one begins with |
| LogWriter.NothingMovesWhileItFits | crates/servicrab-core/src/runtime/logs.rs:87-104 | while everything written fits into the current file no file moves and the current one holds it all |
| LogWriter.NothingIsLostWhileItFits | crates/servicrab-core/src/runtime/logs.rs:87-104 | and nothing falls out |
| LogWriter.Writer.Rotate | crates/servicrab-core/src/runtime/logs.rs:113-154 | every file takes the next number, the last one falls out, the flushed current file becomes the first and nothing beyond `max_files` is touched |
| LogWriter.Writer.MoveAll | crates/servicrab-core/src/runtime/logs.rs:134-144 | the renaming loop moves each file up by one and overwrites none |
| LogWriter.Writer.WriteLine | crates/servicrab-core/src/runtime/logs.rs:87-104 | a line is appended whole, after a rotation when it would not fit a file that is not empty, and every 256th flushes |
| LogWriter.Writer.Flush | crates/servicrab-core/src/runtime/logs.rs:107-110 | everything buffered is on disk and the log is otherwise as it was |
| LogWriter.Writer.Perform | crates/servicrab-core/src/runtime/logs.rs:87-110 | any sequence of writes and flushes refines the specification the two theorems are about |
| LogFollow.EveryLineIsPrintedOnce | crates/servicrab-cli/src/commands/logs.rs:178-284 | over an append-only file growing anywhere between and within passes, the last `count` lines and then every later complete line are printed once, whole and in order, and the offset is the end of the last complete line |
| LogFollow.FollowingIsOneRead | crates/servicrab-cli/src/commands/logs.rs:231-284 | with `count` large enough that is what one read of the final content gives |
| LogFollow.LinesOfMore | crates/servicrab-cli/src/commands/logs.rs:178-210 | reading on from the end of the last complete line loses and repeats nothing |
| LogFollow.WrittenLinesAreRead | crates/servicrab-cli/src/commands/logs.rs:178-217 | lines written whole are read whole, and an unfinished one is not taken for a line |
| LogFollow.EndingsAreDropped | crates/servicrab-cli/src/commands/logs.rs:178-217 | a line loses its newline and one carriage return in front of it, and nothing else |
| LogFollow.WrittenLinesAreShown | crates/servicrab-cli/src/commands/logs.rs:231-253 | all lines are shown, and the unfinished one behind them only when it will not be followed |
| LogFollow.TheLastOnesAre | crates/servicrab-cli/src/commands/logs.rs:231-253 | the last `count` of them are an end of the list of that length |
| LogFollow.AShorterFileIsReadAgain | crates/servicrab-cli/src/commands/logs.rs:256-278 | a file that became shorter than what was read of it is read from its start |
| LogFollow.ReadLines | crates/servicrab-cli/src/commands/logs.rs:178-210 | the reading loop returns the complete lines, where the last one ends, and the rest if there is any |
| LogFollow.ReadTail | crates/servicrab-cli/src/commands/logs.rs:231-253 | the last `count` lines, the unfinished one among them only without following; a missing file has none |
| LogFollow.Source.Pass | crates/servicrab-cli/src/commands/logs.rs:256-278 | one pass over a source refines the specification the theorem is about |
| Lifecycle.ClosedFormHoldsExactlyWhen | crates/servicrab-core/src/lifecycle.rs:336-348 | the documented closed form holds at an attempt if and only if the attempt is below 32, the delay is zero, or the delay times 2^32 - 1 reaches the ceiling |
| Lifecycle.TinyDelaysStopShort | crates/servicrab-core/src/lifecycle.rs:341-348 | 1 ns and 10 s at attempt 40 give 2^32 - 1 ns, not 10 s |
| Lifecycle.ValidDelaysDouble | crates/servicrab-core/src/validation.rs:174-241 | under the validated ranges it holds for every 32-bit attempt |
| Lifecycle.BackoffNeverShrinks | crates/servicrab-core/src/lifecycle.rs:341-348 | the delay never decreases with the attempt and never passes the ceiling, whatever the delays |
| Lifecycle.EveryDecisionFollowsTheBurst | crates/servicrab-core/src/lifecycle.rs:354-420 | over every history a restart's number is the saturating count of restarts since the last stable run; the supervisor gives up exactly at a non-zero `max_restarts`, never at zero; it stops exactly when the user asked or the policy says so |
| Lifecycle.EveryPolicyStopsExactlyHere | crates/servicrab-core/src/lifecycle.rs:354-420 | over every history a service is left alone exactly when the user asked in one of four ways, under `never`, after code 0 under `on-failure`, and after a start that cannot be retried |
| Lifecycle.AlwaysIsUnlessStopped | crates/servicrab-core/src/lifecycle.rs:402-412 | `always` and `unless-stopped` decide alike over every history |
| Lifecycle.AStableRunStartsOver | crates/servicrab-core/src/lifecycle.rs:366-390 | after a run of at least `stable_after` the restart is the first again with the first delay and is never the one given up on; after a shorter one the count goes on |
| Lifecycle.DelaysInABurstNeverShrink | crates/servicrab-core/src/lifecycle.rs:354-420 | inside a burst attempts rise and delays never fall |
| Lifecycle.DelaysInABurstDouble | crates/servicrab-core/src/lifecycle.rs:354-390 | under validated delays the n-th restart of a burst waits the first delay doubled n - 1 times, or the ceiling |
| Lifecycle.TheUserIsObeyed | crates/servicrab-core/src/lifecycle.rs:354-364 | a shutdown the user asked for always stops and leaves the counter as it was |
| Lifecycle.RestartTracker.Decide | crates/servicrab-core/src/lifecycle.rs:354-390 | the decision and the new counter are those of the specification |
| Lifecycle.RestartTracker.DecideAll | crates/servicrab-core/src/lifecycle.rs:354-390 | and so over a whole history |
| Lifecycle.TerminalMeansNoWayOut | crates/servicrab-core/src/lifecycle.rs:39-75 | the terminal states are exactly those without a legal transition |
| Lifecycle.TheWaysOut | crates/servicrab-core/src/lifecycle.rs:39-67 | from which states each state can be entered |
| Lifecycle.TerminalIsForEver | crates/servicrab-core/src/lifecycle.rs:39-146 | whatever is requested of the machine, a terminal state once reached is never left |
| Lifecycle.NoRunWithoutAStart | crates/servicrab-core/src/lifecycle.rs:39-146 | whatever is requested, between a state in which the service neither runs nor starts and a later one in which it runs there is one in which it starts |
| Lifecycle.StateMachine.Request | crates/servicrab-core/src/lifecycle.rs:133-146 | requests made one after the other take the machine through the states these two are about |
| Health.SignalsAlternateExactlyWhen | crates/servicrab-core/src/runtime/health.rs:242-351 | `Ready` and `Unhealthy` strictly alternate for all probe sequences if and only if there are fewer than 100 000 retries |
| Health.UnhealthyExactlyAtTheBudget | crates/servicrab-core/src/runtime/health.rs:284-347 | `Unhealthy` is signalled exactly at the failure that makes the counted streak as long as the budget, and from 100 000 retries up at every later one too |
| Health.APassIsReady | crates/servicrab-core/src/runtime/health.rs:256-283 | after a probe that passed the last signal is `Ready` |
| Health.ALongStreakIsUnhealthy | crates/servicrab-core/src/runtime/health.rs:284-347 | while a streak is as long as the budget the last signal is `Unhealthy` |
| Health.TheCounterIsTheStreak | crates/servicrab-core/src/runtime/health.rs:256-315 | the counter is the counted failures since the last success, up to the ceiling |
| Health.FailuresAreHeardOf | crates/servicrab-core/src/runtime/health.rs:284-330 | the first failure of a streak and the one that exhausts the budget are always published, and every report bears the length of the streak |
| Health.NoLongSilence | crates/servicrab-core/src/runtime/health.rs:284-330 | of every hundred failures below the ceiling one is published |
| Health.AStreakPublishesLittle | crates/servicrab-core/src/runtime/health.rs:53-57 | one failure streak of any length publishes at most 1001 reports |
| Health.TheBoundIsReached | crates/servicrab-core/src/runtime/health.rs:53-57 | and with two retries it can publish that many |
| Health.LargeBudgetsPublishForEver | crates/servicrab-core/src/runtime/health.rs:292-330 | from 100 000 retries up there is no bound |
| Health.Monitor.Tick | crates/servicrab-core/src/runtime/health.rs:278-350 | one probe result changes the counters and emits what the specification says |
| Health.Monitor.Run | crates/servicrab-core/src/runtime/health.rs:242-351 | and so for any number of ticks |
| TreeScan.ACompleteScanIsExact | crates/servicrab-core/src/runtime/filewatch.rs:95-178 | a scan that was not cut short has recorded exactly the files at most 64 levels below a root with nothing ignored on the way, each with the stamp of the last root leading to it |
| TreeScan.TooDeepIsExact | crates/servicrab-core/src/runtime/filewatch.rs:144-157 | such a scan says that it stopped at a depth exactly when a directory 64 levels down was reached |
| TreeScan.FoundIsWhatIsVisible | crates/servicrab-core/src/runtime/filewatch.rs:125-178 | below one node the recursion finds the visible files and no others |
| TreeScan.Scan.Walk | crates/servicrab-core/src/runtime/filewatch.rs:125-178 | the recursion in place makes the visits of an unlimited walk in their order, until one begins with the limit met |
| TreeScan.Scan.Run | crates/servicrab-core/src/runtime/filewatch.rs:95-104 | and so over all roots |
| TreeScan.TheFirstFilesAreHeld | crates/servicrab-core/src/runtime/filewatch.rs:95-178 | a scan holds exactly what its first visits record, with their stamps, up to the visit that found the limit met; it is never more than 20 000 files |
| TreeScan.TheLeastFilesAreHeld | crates/servicrab-core/src/runtime/filewatch.rs:157-166 | of one root a scan cut short holds the least files in the order of paths |
| TreeScan.CutShortExactlyWhen | crates/servicrab-core/src/runtime/filewatch.rs:126-129 | a scan says that it was cut short if and only if the visits before the last one already record 20 000 files |
| TreeScan.NothingIsMissedExactlyWhen | crates/servicrab-core/src/runtime/filewatch.rs:95-178 | it is in want of a file if and only if there are more than 20 000 |
| TreeScan.AScanIsCompleteOrFull | crates/servicrab-core/src/runtime/filewatch.rs:95-178 | one that does not say it was cut short is complete, one that does holds 20 000 files |
| TreeScan.ACompleteScanCanSayItWasCut | crates/servicrab-core/src/runtime/filewatch.rs:126-137 | the failing input: a directory of 20 000 files and then one ignored entry is recorded whole and said to be cut short |
| TreeScan.RootsRecordTheFound | crates/servicrab-core/src/runtime/filewatch.rs:95-178 | the visits together record what is to be found below the roots |
| FileWatch.Changes | crates/servicrab-core/src/runtime/filewatch.rs:65-83 | exactly the paths that appeared, disappeared or changed, in order, each once |
| FileWatch.NoDifferencesMeansEqual | crates/servicrab-core/src/runtime/filewatch.rs:65-83 | there are none exactly when the file maps are equal |
| FileWatch.StepsCoverTheWhole | crates/servicrab-core/src/runtime/filewatch.rs:210-245 | what differs between the first and the last of a series of scans differs at some step |
| FileWatch.ATriggerCoversTheChange | crates/servicrab-core/src/runtime/filewatch.rs:210-245 | a trigger names every path that differs between the baseline and the last scan taken, and none that did not change on the way |
| FileWatch.Debounce | crates/servicrab-core/src/runtime/filewatch.rs:220-245 | at most ten rounds; it ends at the first scan equal to the one before, and reports the union of all steps |
| FileWatch.NextTrigger | crates/servicrab-core/src/runtime/filewatch.rs:207-256 | scans like the baseline are passed over; the event carries the least changed path and the number of them |

## Left out

- The stack supervisor and Unix process handling: `runtime/stack.rs` but for the relay of events, and `runtime/unix`, are not part of this model.
- The socket server and client, the peer and signal handling, the wire protocol and `runtime/status.rs`: plumbing and one-to-one mappings.
- Configuration parsing and the field-by-field checks of `validation.rs` beyond the dependency checks and the ranges the backoff relies on; what the other steps report is an input.
- Rendering, the command line, path handling, and the parsing of sizes and durations.
- Probes, clocks, UTF-8 decoding and the file system's answers are inputs; error message texts are reduced to their kind.
- Service names are ranks in the order of names in `Graph`, `Validation`, `Plan`, `Include` and `TreeScan`; only their order and identity matter there.
- The atomics of `EventProtocol` are sequentially consistent and unbounded; the acquire and release orderings and the wrap of a 64-bit counter are not modelled.
- `EventProtocol.EveryLineIsAccountedFor`: is about the time while the receiver lives, as the channel discards its contents with the receiver.
- `ProjectLock`: the directory of the pidfile, its permissions and anything but the protocol touching the path.
- `Include`: a file's identity and the resolving of a relative path are functions of the path, fixed during a load.
- `EnvFile`: keys the written form cannot carry (white space, NUL, `=`, a leading `#`) are outside the round trip.
- `EventRelay`: sends and receives are whole there; the readiness and the process group a relay derives from what passes, and a relay that dies with the runtime.
- `LogWriter`: an I/O failure part-way through a rotation; the router over several services and the queue in front of it.
- `LogFollow`: a file replaced while it is followed, of which the code only notices that it shrank; several sources differ only in the name printed.
- `LogFollow`: lines stay bytes; undecodable bytes are replaced one line at a time when a line is printed, which changes no line's end.
- `TreeScan`: a directory's entries are given in the order the source sorts them into; the ignore rules are any predicate on relative paths.
- `FileWatch`: the restart request and its acknowledgement, after which the next baseline is simply another scan.
- `Stopped`: why a reading fails; a failing one is an input. Whether a rename has reached the disk when the power goes, which decides only between the old contents and the new; the mutex that serialises the writers, and the name of the temporary file.
