# Verified model of the LXC Docker daemon's core

The daemon answers the Docker API on a Proxmox or plain LXC host. This project models its stateful
cores in Dafny and proves what they promise over every input, every run and every interleaving:

- **Builds** (`Llb`, `LlbCacheability`, `LlbSolver`): the evaluator of BuildKit operation graphs, with its
  per-build memo and the cache on disk that outlives builds. It is compared with a plain recursive
  meaning that has neither.
- **Published ports** (`NatText`, `NatTable`, `PortReconciler`, `PortOrders`): the text of nft listings, the two NAT
  chains, the periodic reconciler that heals and prunes them, and where its ticks lead when the container records
  come in a new order every time.
- **Container lifecycle** (`Lifecycle`, `LifecycleHandlers`): API stop, kill, start, restart and remove and the
  restart watcher under one guard per container, with the lock-free exit monitor beside them; the stop
  handlers and the watcher also as sequential code that follows the protocol. `Vmid`: the guest-id
  allocator and the creates that use it.
- **Self-contained algorithms**: the detach-key reader (`Detach`), POSIX shell quoting (`ShellQuote`), the managed
  block of `/etc/hosts` (`Hosts`), the event broker (`Events`), the health watcher (`Health`), and image tags over
  shared backing storage (`Images`).

`Wrappers`, `Seqs` and `Text` hold what the others share. `dafny verify dfyconfig.toml` checks everything.

A module takes the form of the code it models: objects whose methods update fields are classes whose
`ensures` tie the new state to the old, loops are loops with invariants, protocols are state machines whose
steps are the atomic actions of the code, and expressions are functions with lemmas.

## Where the code does not do what one would expect

For each of these there is an input that shows it, and a lemma or contract that says exactly when the code does
behave.

- A copy from the build context or a secret does not keep an operation out of the build cache, so a second build can
  return the first one's tree although its own context means another (`SolveStale`). `StaleBuildsExactly` says for
  which results: those that can succeed and have such a read below them. `SolveLocals` and `SolveAgain` say what the
  solver then returns; the theorems that a build returns its plain meaning ask for graphs without such operations
  (`Sealed`), and `SealedExactly` says that this is exactly what they need.
- Two running containers that publish one host port for different targets make the port reconciler evict and re-add
  the forward without end, although the comment at `internal/lxc/manager.go:283-292` rules that out: the records are
  listed in map order, and the first one listed is applied before the conflict is seen (`TwoOnOnePortChurn`,
  `Alternate`). `ChurnsExactly` says which ports can churn, and `RestsExactly` for which records ticks in any orders
  come to rest.
- The exit code of a stop need not last until the next start: a second stop that succeeds, or fails and cannot
  save its rollback, replaces it (`SecondStopOverwrites`). `StopCodeSticks` says which code stands.
- A create that fails removes its config before it releases its id. If an unpinned create came by in between, the
  id can be handed out twice (`CleanUpFirstGivesTwice`). `Vmid.KeptExactly` says which steps allow that, and
  `PinnedIsCareful` that pinned ids never do.
- Some key sequences can be typed without detaching, when a prefix of the keys recurs in them; the exact
  condition is `BordersContinue` (`NoticesAllExactly`). The default keys are always noticed (`DefaultKeys`). Input
  that ends in a partial match is withheld for good (`Conserved`), and so is decided output that does not fit the
  buffer of a read that also brings an error (`CutOff`; `Copy` says exactly when).
- A container seen down while its status is "starting" keeps its failing streak, although the comment at
  `internal/lxc/manager.go:466` says the watcher resets (`OneFailureAfterRestart`, `CarriedExactly`).
- Tagging an image that has no ID, or deleting the last ref of an image by a name that is not its exact ref,
  can leave a listed image without its backing (`TaggedWithoutId`, `DeletedByShortName`). `Images.KeptExactly`
  says that nothing else can. Untagging one of several refs by such a name is accepted and removes nothing
  (`UntagsExactly`).
- Events published between the replay and the subscription of an event stream are lost to it; every other
  matching event is written, waits, or met a full queue (`EventsStream`, `FateExact`).

## Model

| member | source | states |
|---|---|---|
| `LlbCacheability.CacheableExact` | internal/api/buildkit_cache_store.go:24-47 | the analysis accepts a digest iff every digest reachable from it is known and every reachable source is an image |
| `LlbCacheability.NonInterference` | internal/api/buildkit_cache_store.go:24-47 | in a sealed graph the outputs of a cacheable operation in one build are its outputs in every build |
| `LlbCacheability.EvalGrows` | internal/api/buildkit_exec.go:145-197 | a cacheable operation means the same in a larger graph, so entries may be shared between builds |
| `LlbCacheability.StaleExactly` | internal/api/buildkit_exec.go:284-602 | an operation can have outputs in one build that are wrong in another iff every step of it can run and it reads a local source, the context or a secret |
| `LlbCacheability.FreshIsAlike` | internal/api/buildkit_exec.go:284-602 | the outputs of any other operation are the same in every build |
| `LlbCacheability.EvalSucceeds` | internal/api/buildkit_exec.go:145-197 | an operation that succeeds in any build is feasible, and its outputs are exactly those it exposes |
| `LlbCacheability.EdgeStaleExactly` | internal/api/buildkit_cache_store.go:24-47 | the result of a graph that the analysis accepts can differ between builds iff it can succeed with the output asked for and something below it reads the build |
| `LlbCacheability.SealedExactly` | internal/api/buildkit_cache_store.go:24-47 | no accepted result differs between builds iff no accepted operation that can succeed with an output reads the build |
| `LlbSolver.StoredIsCorrect` | internal/api/buildkit_cache_store.go:92-116 | a cacheable result computed in one build is the meaning of its digest in every context |
| `LlbSolver.StoredIsFresh` | internal/api/buildkit_cache_store.go:58-90 | a correct entry is what the present build would compute |
| `LlbSolver.CorrectIsForetold` | internal/api/buildkit_exec.go:158-165 | over a correct cache a build computes its plain meaning, whatever it finds or fails to find |
| `LlbSolver.FoundIsForetold` | internal/api/buildkit_exec.go:158-165 | over any cache, if file operations succeed, a build computes its meaning with the entries found taken as they are |
| `LlbSolver.SourcedIsCorrect` | internal/api/buildkit_exec.go:193-196 | what a build adds to a correct cache is correct |
| `LlbSolver.Executor.IsCacheable` | internal/api/buildkit_cache_store.go:24-47 | the memoising recursion answers exactly the analysis and keeps its memo correct |
| `LlbSolver.Executor.Snapshot` | internal/api/buildkit_exec.go:203-217 | a new directory with the contents of the source, all others as before |
| `LlbSolver.Executor.ExecSource` | internal/api/buildkit_exec.go:220-281 | a directory holding the local source or the image's rootfs, with the same error cases |
| `LlbSolver.Executor.SnapshotRoots` | internal/api/buildkit_exec.go:284-315 | every root mount gets its own fresh directory; the last is the root of the run |
| `LlbSolver.Executor.StageMounts` | internal/api/buildkit_exec.go:316-350 | all other mounts are staged into the root directory and nowhere else |
| `LlbSolver.Executor.ExecExec` | internal/api/buildkit_exec.go:284-360 | a RUN yields exactly the trees of its plain meaning and writes no directory that existed before |
| `LlbSolver.Executor.ApplyFileAction` | internal/api/buildkit_exec.go:506-602 | the tree and the errors of one file action |
| `LlbSolver.Executor.ExecFile` | internal/api/buildkit_exec.go:463-498 | the actions in order yield exactly the plain outputs, each on a fresh directory |
| `LlbSolver.Executor.CacheGet` | internal/api/buildkit_cache_store.go:58-90 | fresh copies of a non-empty entry, if file operations succeed exactly when there is one |
| `LlbSolver.Executor.CachePut` | internal/api/buildkit_cache_store.go:92-116 | the entry becomes the copied outputs; a failure leaves or loses it; no other entry changes |
| `LlbSolver.Executor.Recall` | internal/api/buildkit_exec.go:158-165 | a hit memoises the entry, which is what this build makes of the digest |
| `LlbSolver.Executor.Store` | internal/api/buildkit_exec.go:193-196 | every entry was there before or is what the build makes of a digest it may keep |
| `LlbSolver.Executor.Compute` | internal/api/buildkit_exec.go:167-193 | inputs first, then the operation, run at most once |
| `LlbSolver.Executor.InputDir` | internal/api/buildkit_exec.go:130-140 | the directory of an edge holds what the build makes of the edge |
| `LlbSolver.Executor.InputDirs` | internal/api/buildkit_exec.go:167-174 | the directories of all inputs, in order, or the first failure |
| `LlbSolver.Executor.OutputsOf` | internal/api/buildkit_exec.go:145-197 | whatever memo and cache hold, the outputs are the meaning over the entries the build is sure to find; nothing existing is written; no operation runs twice; a hit runs nothing |
| `LlbSolver.SolveLocals` | internal/api/buildkit_exec.go:64-126 | a build returns its meaning over the entries it is sure to find; every entry it leaves was there or is such a meaning; a result in the cache runs nothing |
| `LlbSolver.SolveTrusted` | internal/api/buildkit_exec.go:64-126 | over a correct cache a build returns the plain result and leaves every entry correct |
| `LlbSolver.SolveAll` | internal/api/buildkit_exec.go:64-126 | over any sequence of builds with any contexts each returns what it would return alone, without memo and cache |
| `LlbSolver.SolveAgain` | internal/api/buildkit_exec.go:153-165 | over any cache, building a cacheable result again in another context runs nothing and returns the same tree |
| `LlbSolver.SolveStale` | internal/api/buildkit_exec.go:153-165 | if the plain results of two builds differ, the second build over one cache returns the first one's tree, not its own |
| `LlbSolver.StaleBuildsExactly` | internal/api/buildkit_cache_store.go:24-47 | there are such builds of a cacheable result iff it can succeed and something below it reads the build |
| `NatText.HostPortMatchExact` | internal/lxc/network.go:229-231 | a printed rule matches a protocol and port iff they are its own, never a longer or shorter number |
| `NatText.IpMatchExact` | internal/lxc/network.go:191-197 | a printed rule matches a container address iff it is its target |
| `NatText.LineHandle` | internal/lxc/network.go:237-256 | the handle extracted from a printed rule is the rule's handle |
| `NatText.NatHandlesToDelete` | internal/lxc/network.go:237-256 | the loop collects the handles of the matching lines, in order |
| `NatText.HandlesExact` | internal/lxc/network.go:237-256 | from a printed listing exactly the handles of the rules the matcher is meant for |
| `NatText.ParseDnatChain` | internal/lxc/network.go:261-281 | the loop records the forwards of the lines, in order |
| `NatText.ParseReadsRules` | internal/lxc/network.go:261-281 | from a printed listing, without handles as the parser gets it or with them, exactly the rules' keys and targets, in order |
| `NatText.ParsedIsLast` | internal/lxc/network.go:261-281 | the parse holds the last target of each key and marks exactly the keys that occur twice |
| `NatText.KeyRoundTrip` | internal/lxc/network.go:332-343 | a printed key is read back |
| `NatText.KeyTextInjective` | internal/lxc/network.go:265-277 | different keys print differently |
| `NatText.TargetTextInjective` | internal/lxc/network.go:265-277 | different targets print differently |
| `NatTable.DeletedExactly` | internal/lxc/network.go:371-385 | deleting by the extracted handles removes exactly the selected rules |
| `NatTable.Table.RemovePortForwardForHostPort` | internal/lxc/network.go:206-220 | both chains lose exactly the rules of the key |
| `NatTable.Table.RemovePortForwards` | internal/lxc/network.go:191-199 | both chains lose exactly the rules of the address |
| `NatTable.Table.AddPortForward` | internal/lxc/network.go:153-186 | the key's rules are evicted and, if nft accepts, one rule is appended to both chains |
| `NatTable.Table.CurrentPortForwards` | internal/lxc/network.go:308-327 | reports a forward iff each chain has exactly one rule for the key and both have that target |
| `NatTable.Table.PublishedHostPorts` | internal/lxc/network.go:349-366 | reports exactly the keys with a rule in either chain |
| `NatTable.RunHoldsLatest` | internal/lxc/network.go:153-220 | over every run a rule is in the table iff it is the latest add not followed by a matching remove |
| `NatTable.RunIsUnambiguous` | internal/lxc/network.go:153-220 | over every run there is at most one rule per key, and every rule is reported as installed |
| `NatTable.Perform` | internal/lxc/network.go:153-220 | each operation acts on both chains as its specification says |
| `NatTable.Replay` | internal/lxc/network.go:153-220 | after any run from empty chains both chains hold the same rules, those of the run |
| `PortReconciler.Reconciler.Heal` | internal/lxc/manager.go:283-340 | exactly the wrong or missing forwards of readable, unconflicted claims are re-applied; all claimed keys are desired |
| `PortReconciler.Reconciler.Prune` | internal/lxc/manager.go:342-372 | strikes are reset, counted and spent as specified, and exactly the keys at two strikes lose their rules |
| `PortReconciler.Reconciler.Tick` | internal/lxc/manager.go:271-373 | the effect of a tick on every key, and that it issues an add or a remove iff there is something to re-apply or prune |
| `PortReconciler.HealsExactly` | internal/lxc/manager.go:312-336 | a key is re-applied iff a readable claim of it precedes any conflict and it is not installed |
| `PortReconciler.StrikesCountStreak` | internal/lxc/manager.go:342-372 | strikes are the length of the current orphan streak since its last prune; a prune happens exactly at every second orphaned tick, never at a claimed one |
| `PortOrders.HealableIsOpening` | internal/lxc/manager.go:293-340 | in whatever order the records are listed, only the first binding of a live record is ever applied to a key |
| `PortOrders.LiveFirstIsHealable` | internal/lxc/manager.go:293-340 | a live record that is listed first has its first binding applied, whatever the others claim |
| `PortOrders.CoherentIsHealable` | internal/lxc/manager.go:293-340 | a key that live records open alike, and unreadable ones claim for nothing else, is applied in every order |
| `PortOrders.TickAdvances` | internal/lxc/manager.go:271-373 | in any order one tick brings every claimed key where it ends, the next removes the unclaimed ones, and both stay so |
| `PortOrders.RunSettles` | internal/store/store.go:505-513 | over ticks in any orders, from the second on an unclaimed key has no rule, one without a live claimant what it had, a coherent one its rule, and any other what it had or a live record's rule |
| `PortOrders.SettledIsQuiet` | internal/lxc/manager.go:271-373 | with coherent keys a settled table is left alone in every order |
| `PortOrders.RestsExactly` | internal/store/store.go:505-513 | two ticks in any orders leave nothing to do in any order, from every table, iff every key is coherent |
| `PortOrders.Restless` | internal/store/store.go:505-513 | with a key that is not coherent something can be left to do after any number of ticks |
| `PortOrders.ReappliedOnce` | internal/lxc/manager.go:283-340 | a key that live records open alike is re-applied at most once in any run |
| `PortOrders.Churns` | internal/lxc/manager.go:283-340 | any other key can be evicted and re-added at every tick of a run of any length, from any table |
| `PortOrders.ChurnsExactly` | internal/lxc/manager.go:283-340 | a key can be re-applied twice in a run iff two live records open it with different targets |
| `PortOrders.TwoOnOnePortChurn` | internal/lxc/manager.go:283-292 | two running containers that publish tcp port 8080 churn for as long as one likes |
| `PortOrders.AgreedConverge` | internal/lxc/manager.go:271-373 | for claims that agree, in any orders, each chain has exactly one correct rule per wanted key and nothing else from the second tick on |
| `PortOrders.RunTicks` | internal/lxc/manager.go:271-373 | the reconciler over any listings, chains and strikes: two readable ticks settle every key, later ones change nothing if all keys are coherent, and claims that agree end in exactly the wanted rules |
| `PortOrders.Alternate` | internal/lxc/manager.go:283-340 | two live records that open a key differently, listed now in one order and now in the other: every tick of the reconciler after the first changes the table |
| `Lifecycle.InvStep` | internal/api/containers.go:1112-1157 | every step of every party keeps the record as the guard's holder left it |
| `Lifecycle.WatcherRespectsStop` | internal/lxc/manager.go:638-786 | in every interleaving the watcher starts a container that the user stopped only under policy "always" |
| `Lifecycle.SuccessfulStopSticks` | internal/api/containers.go:1160-1210 | a successful stop or kill leaves the flag set until an API start or a re-create |
| `Lifecycle.StopCodeSticks` | internal/api/containers.go:1139-1157 | until a start stamps or lifts it, or a re-create, whatever the monitor reports, the recorded code is that of the latest stop that succeeded or could not save its rollback |
| `Lifecycle.TrailStands` | internal/api/containers.go:1139-1157 | with no such later stop it is the first one's 128+n |
| `Lifecycle.StopWrites` | internal/api/containers.go:1355-1398 | a stop or kill without failure writes its own code |
| `Lifecycle.SecondStopOverwrites` | internal/api/containers.go:1139-1157 | two stops without a start in between: the second code wins |
| `Lifecycle.FailedStopRestores` | internal/api/containers.go:1112-1157 | a failed stop restores flag and code to their values when intent was recorded, whatever happened meanwhile |
| `Lifecycle.RestartsBounded` | internal/lxc/manager.go:723-768 | under on-failure with maximum N the watcher restarts at most N times in a whole run, plus once per count that could not be saved |
| `LifecycleHandlers.Handler.Others` | internal/lxc/exit_monitor.go:88-113 | lock-free events never touch the flag or the restart count and never create a record |
| `LifecycleHandlers.Handler.StopRecordingExit` | internal/api/containers.go:1139-1157 | follows the protocol; a failure ends in a clean rollback if that could be saved |
| `LifecycleHandlers.Handler.Stop` | internal/api/containers.go:1160-1210 | stop and kill follow the protocol; failure restores, success leaves flag and code, with any events in between |
| `LifecycleHandlers.Handler.EnforceRestartPolicy` | internal/lxc/manager.go:638-740 | the watcher follows the protocol, starts only as the record it read allows, and counts its restarts |
| `LifecycleHandlers.Handler.NoteFinish` | internal/lxc/manager.go:689-707 | the first observed exit is stamped and the record read again |
| `Vmid.Allocator.Allocate` | internal/lxc/manager.go:2983-3018 | a pinned request gets exactly its id or fails with the reservations unchanged; an unpinned one gets the least free id from 100 |
| `Vmid.Allocator.FirstFree` | internal/lxc/manager.go:3011-3017 | the unbounded scan ends at the least free id |
| `Vmid.Allocator.DropCommitted` | internal/lxc/manager.go:3006-3010 | exactly the reservations that became configs are dropped |
| `Vmid.Allocator.Release` | internal/lxc/manager.go:3030-3034 | exactly that reservation is dropped |
| `Vmid.GrantIsUnique` | internal/lxc/manager.go:2983-3018 | a request has at most one possible grant |
| `Vmid.InvKeptExactly` | internal/lxc/pve_tarball.go:741-761 | a step keeps held ids distinct, covered and without leaked reservations iff it does not remove the config that alone protects a held id |
| `Vmid.ExposedRepeats` | internal/lxc/manager.go:2994-3002 | after such a removal a create that asks for that id is given it again |
| `Vmid.RepeatIsTwice` | internal/lxc/manager.go:2983-3018 | a grant of a held id is exactly what makes two creates hold one id |
| `Vmid.KeptExactly` | internal/lxc/pve_tarball.go:741-761 | a step lets some continuation without further removals of that kind hand a held id out iff it is one itself |
| `Vmid.HandedOutOnce` | internal/lxc/pve_tarball.go:363-369 | over every run without such a removal no two creates hold one id, a granted id has no config and no holder, and an idle daemon has no reservation |
| `Vmid.PinnedIsCareful` | internal/lxc/manager.go:2994-3002 | runs of pinned requests are safe whatever is removed |
| `Vmid.CleanUpFirstGivesTwice` | internal/lxc/pve_tarball.go:413-425 | a run in which two creates hold id 100 |
| `Detach.EscapeReader.Read` | internal/api/exec_detach.go:74-121 | the outcome depends on the bytes consumed, not on the cuts; at a detach nothing is pending; pending is shorter than the keys |
| `Detach.EscapeReader.Decide` | internal/api/exec_detach.go:89-115 | the loop computes the scan of the bytes |
| `Detach.EscapeReader.Copy` | internal/api/exec.go:407-407 | for every chunking the forwarded bytes are the scan of the stream, or at an error that scan but for what is pending; something is pending then iff the last arrival decides more bytes than the buffer holds |
| `Detach.CutOff` | internal/api/exec_detach.go:116-120 | two keys, a buffer of one byte, the first key and then another byte with an error: only the first byte is forwarded, though both are decided |
| `Detach.Conserved` | internal/api/exec_detach.go:89-120 | before a detach, output and withheld prefix are exactly the input |
| `Detach.FiresAfterKeys` | internal/api/exec_detach.go:92-106 | a detach comes right after a full occurrence, and the output is all that came before it |
| `Detach.NoticesAllExactly` | internal/api/exec_detach.go:108-115 | every occurrence is noticed iff the borders of the keys continue |
| `Detach.FiresAtFirst` | internal/api/exec_detach.go:89-120 | for such keys a detach happens iff they occur, at their first occurrence |
| `Detach.FirstKeyUnique` | internal/api/exec_detach.go:17-17 | keys whose first does not recur, and any two keys, are always noticed |
| `Detach.ParseDetachKeys` | internal/api/exec_detach.go:22-56 | the keys named by the tokens, or a token that names none |
| `Detach.NamesAreUnique` | internal/api/exec_detach.go:22-56 | a text names at most one key sequence |
| `Detach.NameableExactly` | internal/api/exec_detach.go:22-56 | the sequences that can be asked for are exactly the non-empty ones without a comma |
| `Detach.DefaultKeys` | internal/api/exec_detach.go:17-25 | the empty text names ctrl-p, ctrl-q, which are always noticed |
| `ShellQuote.ShellJoin` | internal/lxc/manager.go:2741-2750 | the joined text is read by a POSIX shell as exactly the arguments |
| `ShellQuote.WrapCmdWithCwd` | internal/api/exec.go:578-588 | the script is read as cd, the directory, &&, exec and exactly the arguments |
| `ShellQuote.EscapeLexes` | internal/api/exec.go:591-593 | an escaped text inside single quotes is read as the text |
| `ShellQuote.QuotedLexes` | internal/api/exec.go:591-593 | a quoted text adds exactly itself to the word being read |
| `Hosts.StripsBlock` | internal/lxc/dns_hosts.go:149-165 | stripping a managed block leaves exactly what was around it |
| `Hosts.StripsComposed` | internal/lxc/dns_hosts.go:149-178 | stripping undoes composing, up to a final newline |
| `Hosts.ReplacesBlock` | internal/lxc/dns_hosts.go:169-178 | a block is replaced wherever it sits in the file |
| `Hosts.RewritesKeepRest` | internal/lxc/dns_hosts.go:169-178 | any number of rewrites is one with the latest block; the rest of the file survives |
| `Events.Broker.Subscribe` | internal/api/events.go:72-78 | a new open channel that joins at the present end of the log |
| `Events.Broker.Forget` | internal/api/events.go:80-83 | the channel leaves the subscribers, before it is closed |
| `Events.Broker.Close` | internal/api/events.go:84-85 | only a channel that no publish can reach is closed |
| `Events.Broker.Publish` | internal/api/events.go:89-102 | history is the last 1024 events; every subscriber is offered the event in order and no closed channel is sent to |
| `Events.Broker.Take` | internal/api/events.go:373-378 | a receive gives the oldest event waiting |
| `Events.Broker.SnapshotSince` | internal/api/events.go:56-70 | exactly the events of the history at or after the cutoff, in order |
| `Events.OfferQueues` | internal/api/events.go:96-101 | a channel holds exactly the events sent and not yet read, in order |
| `Events.OfferAccounts` | internal/api/events.go:96-101 | a place of the log is missed by a subscriber iff exactly 64 places sent to it were unread when it was published |
| `Events.Follow` | internal/api/events.go:373-384 | everything read that matches is written, and how much is read and waits follows from the order of publishes and reads |
| `Events.ReplayExact` | internal/api/events.go:342-356 | a place of the history is replayed iff it is recent enough, in time and matching |
| `Events.WrittenInOrder` | internal/api/events.go:341-384 | what is written is in the order of the log and never twice |
| `Events.FateExact` | internal/api/events.go:341-384 | a matching event published since the replay is written, waits or met a full queue iff it came after the subscription |
| `Events.EventsStream` | internal/api/events.go:341-388 | the whole account of a stream: the replay, then the matching events read, in order and never twice, with the fate of every other event |
| `Health.Record.Tick` | internal/lxc/manager.go:452-484 | one turn for a container: skip, reset or probe; a change of status by a probe is told |
| `Health.Record.RunOne` | internal/lxc/manager.go:544-577 | the effect of one probe on status, streak and log |
| `Health.StreakIsTail` | internal/lxc/manager.go:544-577 | the streak is the number of failures the counted probes end with |
| `Health.UnhealthyExactly` | internal/lxc/manager.go:544-577 | unhealthy iff the last counted probes, as many as the effective retries, all failed since the last reset |
| `Health.LogIsLast` | internal/lxc/manager.go:544-551 | the log is always the last at most five results |
| `Health.CarriedExactly` | internal/lxc/manager.go:465-474 | after a restart the streak counts only the new life iff a probe succeeded in it, or the status was not "starting", or no failure was held |
| `Health.OneFailureAfterRestart` | internal/lxc/manager.go:465-474 | one failed probe of a new life can make a container unhealthy at three retries |
| `Images.Store.GetImage` | internal/store/store.go:585-600 | the exact record, or some record with the same bare ref, or none iff there is none |
| `Images.Store.TagImage` | internal/api/portainer.go:43-71 | a tag adds a copy of the found record under the new ref, also when the store cannot be saved; the error cases |
| `Images.Store.RemoveImage` | internal/api/images.go:639-702 | untag, refusal or destruction as specified, when nothing is found, and that an accepted delete that is not forced drops exactly the record keyed by the ref, if there is one |
| `Images.UntagsExactly` | internal/store/store.go:574-579 | deleting one of several refs drops that key and no backing, so nothing at all iff the ref is no key |
| `Images.Store.DestroyImage` | internal/lxc/manager.go:2507-2562 | which resources go and whether the record goes, for each kind of backing |
| `Images.InvKeptExactly` | internal/api/images.go:639-702 | a tag or delete keeps every record backed and sharing only by ID iff it neither tags an image without ID nor destroys by a ref that is no key |
| `Images.KeptExactly` | internal/api/images.go:639-702 | a tag or delete lets some continuation that is careful leave a listed image unbacked iff it is one of those |
| `Images.SurvivorsAreBacked` | internal/api/images.go:639-702 | over every run of such steps every surviving record's backing exists |
| `Images.DestroyedWithLast` | internal/api/images.go:655-668 | backing is destroyed only with the last ref of its ID, when no record needs it |
| `Images.TaggedWithoutId` | internal/api/portainer.go:43-71 | in any store, tagging an image without ID and deleting its own ref leaves the new ref unbacked |
| `Images.DeletedByShortName` | internal/store/store.go:585-600 | deleting by a short name destroys the backing and leaves the record |

## Left out

- HTTP routing, JSON shapes, LXC and Proxmox config emission, distro tables, stats parsing and list filters: long but shallow.
- External commands (`pct`, `lxc-*`, `zfs`, `nft`, `skopeo`, `tar`, `cp`) are oracles: a parameter or a field says whether they succeed.
- Building graphs from Dockerfiles, decoding and hashing: a digest is assumed to identify its operation, and graphs to be acyclic.
- RUN is a deterministic function of the operation and its input trees; the daemon's own environment (`internal/api/buildkit_exec.go:448`) and the contents of cache and tmpfs mounts are not part of the model.
- An image ref is assumed to fix its rootfs; the code drops a pinned digest (`internal/api/buildkit_exec.go:236-239`).
- The cache key directory is assumed to be different for different digests, and a cache entry to hold only numbered directories.
- Two builds at the same time on one cache, and the importer that moves the result directory after a solve, are not modelled.
- A source operation is taken to have no inputs, as BuildKit defines it; the analysis does not look at them.
- The fallback for a local source named "context" that is not among the local directories is not modelled, since the directories always include it.
- NatText.HandlesExact, NatText.ParseReadsRules and the table methods cover tcp and udp rules with IPv4 targets, the only ones the parser recognises.
- LlbSolver.Executor.ApplyFileAction: what a copy, mkdir, mkfile, rm or symlink does to a tree is an uninterpreted function of the action, the tree and the source.
- LlbSolver.Executor.CachePut: a removal of the old entry that stops part-way is not modelled; it could leave a damaged entry.
- NatTable.Table.RemovePortForwardForHostPort: listing and deleting by handle are taken to succeed; a failing delete in the middle of a chain is not modelled.
- NatTable.Table.RemovePortForwards: likewise.
- NatTable.Table.AddPortForward: the eviction is taken to succeed; only the insertion may fail.
- PortReconciler.Reconciler.Tick: one tick is one atomic step; API calls between the reads and the writes of a tick are not interleaved, and log messages are left out.
- PortOrders.RunTicks: the records and what their states answer stay the same from tick to tick; only their order and whether nft can be read change. A change of the population starts a new run.
- The lookup of a record by container name or VMID in the exit monitor, and parsing of its lines, are not modelled; an exit event names its container.
- Signal names are taken as resolved to numbers, so an unknown name is not modelled.
- LifecycleHandlers.Handler.Stop: the forced removal is covered by the protocol in `Lifecycle` and not as sequential code; start, restart and create likewise.
- Lifecycle.RestartsBounded: counts restarts of a record that is not created anew and keeps its policy and maximum.
- Clocks: grace periods, poll intervals and the start period appear only as booleans or abstract ticks.
- Vmid.HandedOutOnce: guests on other nodes appear and vanish as single events; the refusal of `pct` to create an existing id is not modelled.
- Detach.EscapeReader.Copy: the buffer of the copy is any positive size, and the writer never fails.
- What `cd` and `exec` do with a directory or command that looks like an option is not modelled, only how the shell splits the text.
- Hosts: the text of a block is any text without the end marker; collecting the peers and writing the file atomically are left out.
- Events.EventsStream: a client's writes succeed; other clients subscribe and unsubscribe between streams, not within one; heartbeats and the closing time are left out.
- Images.Store.TagImage, Images.Store.RemoveImage: what a restart loads after a save that failed is not modelled.
- Images: each handler is one atomic step; pulls, builds, commits and prunes, which follow other sharing rules, are left out, as is the sorting of refs.
