# Convergence of the weft micro-VM agent

The agent runs inside a micro-VM and turns whole desired states that arrive over a bus into local
state: a tree of property files, a set of running containers, a list of SSH keys, one first-boot
provisioning pass. This project models the parts of it that decide how those states are reached, and
proves what holds over every run: after partial failures, at every point where a crash or a concurrent
reader may look, and in every interleaving of its goroutines.

| file | models |
|---|---|
| `Keys.dfy`, `FileTree.dfy` | property keys as paths; a directory tree as a map from paths to nodes |
| `PropertySync.dfy`, `PropertyRuns.dfy` | the three passes of the property sync as functions on trees; histories of published sets |
| `PropertyTraces.dfy` | the states a sync goes through, what each shows and in which order they come |
| `PropertyTrees.dfy` | the sync itself, changing a tree in place one system call at a time |
| `PropertyHistory.dfy` | histories of published sets with crashes at any point |
| `Containers.dfy`, `Reconciler.dfy` | the container spec, its equality test, the reconciler over a runtime whose calls may fail |
| `Sessions.dfy` | the exec-session registry and the goroutines around it |
| `DropCounter.dfy` | the firewall drop accumulator against a kernel counter that resets |
| `BootConfig.dfy`, `BootRunner.dfy`, `BootWatcher.dfy` | reading the boot request, the sentinel-guarded pass over reboots and crashes, the polling loop |
| `BootRace.dfy` | reading the boot request while it is being published |
| `SshWire.dfy`, `SshSession.dfy` | SSH channel-request payloads and the session request loop |
| `GuestPlane.dfy` | one GuestPodPlane stream: handshake, heartbeats, control requests |
| `AuthStore.dfy`, `ProcStat.dfy` | the authorised-key index; the `/proc/<pid>/stat` parser |

`dafny verify dfyconfig.toml` checks all of it.

## Findings

Where a comment in the repository promises more than the code does, the model follows the code. Each
statement that fails has the exact condition under which it holds and a lemma at a concrete input.

- **Property sync.** `propertiesApplyer` succeeds exactly when no key of the set lies above another and
  no wanted path, nor its transient `.tmp` name, is a directory (`ApplyExact`). A directory in the way
  stays there for as long as the key is published, since the failing rename returns before the prune
  (`ConflictPersists`; publish `a/b`, then `a`: `DirectoryInTheWay`). From an empty root, after any
  history of failed and successful sets, only the directories can be in the way and a success leaves the
  set and nothing else (`HistoryConverges`). If applies were also cut off by crashes the condition is the
  same and readers see exactly the set, but transient files may remain (`CrashesConverge`). Foreign
  `.tmp` files are never removed, and they are all that a success leaves besides the set
  (`LeavesOnlyTheSetIff`, `CrashLeavesTransient`). An accepted key such as `.` names the root itself: its
  write always fails, and its transient file is the one path outside the root (`TransientUnderRootIff`).
- **Boot request.** Keys are put in place in sorted order, script first, while the four fields are read
  one by one. A reader of the first publication can therefore see the script alone: the watcher then runs
  it with nothing pulled and the machine counts as provisioned for good (`ScriptOutrunsKind`). It can
  also see the kind without its url (`KindOutrunsUrl`), though never the kind without the script. Every
  reader sees the whole request or an empty one exactly when nothing is requested, or only a kind, or
  only a script, without url and ref (`AlwaysWholeIff`). Over the states of the sync, from any tree without
  boot fields, that is the condition too, but for one more case: a key below the script turns it into a
  directory, and nothing is ever read (`NoReaderMisledIff`).
- **Boot watcher.** A failing read skips the deadline check. The watcher outlives its deadline for ever
  exactly when every read from the first poll past the deadline on fails (`StrandedIff`). Publishing the
  key `weft.boot` does that: it is accepted, and turns the directory of the boot keys into a file
  (`BootDirAsFileStrands`).
- **Boot runner.** A failing pass is said to leave no sentinel. It does exactly when writing the sentinel
  itself reports an error after the file is there (`FailureStampsIff`), and then no retry does anything
  (`FailedStampIsFinal`).
- **Containers.** The equality test is equality of the identity fields exactly when the first container's
  environment has no empty value (`EqualityTestIff`); otherwise it is neither symmetric nor transitive.
  A container that is down after a failed pull or start, be it new or stopped for a restart, stays down
  exactly as long as every later set looks unchanged for it (`DownAfterIff`, `DownWhileSkippedIff`,
  `FailuresThatLast`). The runtime's list of running names is never asked for: after a restart of the agent
  a container that is still running agrees exactly once some set has published its name, and otherwise runs
  on (`RestartAgreesIff`, `DroppedMeanwhile`).
- **Exec sessions.** The pump's deferred close is by id. It cancels another session exactly when that
  session holds the id, which makes it one opened while the pump was unfinished (`ForeignExitIff`).
- **Drop counter.** The published total is exact at a sample if and only if every sample so far was
  faithful: nothing was dropped and wiped between two samples, and no rebuild was hidden behind a higher
  count (`ExactIff`, `WipedDropsAreLost`).
- **SSH.** The sum `4+n` is a 32-bit one: exactly the four largest length prefixes make the decoder slice
  out of bounds (`StringFailures`, `LargestPrefixPanics`). A malformed `exec` uses up the channel's only
  start (`LaterStart`, `MalformedExecUsesUpStart`).
- **GuestPodPlane.** A callback error with an empty message reads as success on the host (`DispatchAcks`,
  `SilentError`).
- **Process times.** Digits too large for 64 bits give the largest value even when garbage follows them;
  other malformed numbers give 0, and so does any parent pid out of range (`UintExact`, `PpidExact`).

## Model

| member | source | states |
|---|---|---|
| `Keys.AcceptedKeyStaysUnderRoot` | pkg/properties/properties.go:48-66 | every key that validation accepts joins to a path below the root, made of the key's proper segments, whatever the root |
| `Keys.EscapeIsRejected` | pkg/properties/properties.go:48-66 | every key that would leave the root is rejected |
| `Keys.RejectedKeyEscapes` | pkg/properties/properties.go:57-62 | the key `../x` is rejected, and would leave the root |
| `Keys.HarmlessKeyRejected` | pkg/properties/properties.go:57-62 | the converse fails: `a..b` is rejected and would stay below any root |
| `Keys.TransientUnderRootIff` | cmd/weft-microvm-agent/properties_linux.go:66-74 | the transient file of an accepted key is below the root too, unless and only unless the key names the root itself |
| `Keys.DotNamesTheRoot` | pkg/properties/properties.go:48-66 | validation accepts a key that names the root |
| `FileTree.WithDirsWellFormed` | cmd/weft-microvm-agent/properties_linux.go:67-69 | creating parents that no file blocks keeps every ancestor of a node a directory |
| `PropertySync.WriteOneSucceeds` | cmd/weft-microvm-agent/properties_linux.go:65-78 | after some entries are in place, the next write goes through exactly when the longer list is prefix-free with nothing in the way |
| `PropertySync.WriteOneResult` | cmd/weft-microvm-agent/properties_linux.go:65-78 | one more write on the closed form of the tree gives the closed form for one more entry |
| `PropertySync.WritePass` | cmd/weft-microvm-agent/properties_linux.go:57-78 | the write loop succeeds if and only if the set is writable, and then leaves the tree given in closed form |
| `PropertySync.SweptIsWritable` | cmd/weft-microvm-agent/properties_linux.go:43-55 | after the sweep, whether the writes go through depends only on directories and on the set being prefix-free |
| `PropertySync.PruneLeavesFiles` | cmd/weft-microvm-agent/properties_linux.go:80-83 | pruning leaves exactly the files and the directories they need |
| `PropertySync.ApplyExact` | cmd/weft-microvm-agent/properties_linux.go:30-86 | on any tree: success if and only if the set is prefix-free and no directory is in the way, and then exactly the published files, foreign transient files and needed directories remain |
| `PropertySync.LeavesOnlyTheSetIff` | cmd/weft-microvm-agent/properties_linux.go:102-106 | a success leaves the published files and nothing else if and only if no foreign transient file was there |
| `PropertySync.TransientLingers` | cmd/weft-microvm-agent/properties_linux.go:102-106 | a foreign transient file survives every successful apply |
| `PropertyRuns.WritePassVisible` | cmd/weft-microvm-agent/properties_linux.go:65-78 | stopped or not, a write loop shows the old files overwritten by the entries it completed |
| `PropertyRuns.ConflictPersists` | cmd/weft-microvm-agent/properties_linux.go:74-83 | a directory where a key should be makes every later set with that key fail and is still there after it |
| `PropertyRuns.HistoryConverges` | cmd/weft-microvm-agent/properties_linux.go:30-86 | after any history of sets, the next succeeds exactly when it is prefix-free and none of its paths is still a directory, and then the tree is that set |
| `PropertyRuns.NextPublish` | cmd/weft-microvm-agent/properties_linux.go:30-86 | after a set has been applied, the next succeeds exactly when it is prefix-free and none of its keys lies above an old key |
| `PropertyRuns.Idempotent` | cmd/weft-microvm-agent/properties_linux.go:30-86 | applying a set again succeeds and changes nothing |
| `PropertyTraces.NeverTorn` | cmd/weft-microvm-agent/properties_linux.go:48-78 | in every intermediate state each published file holds one whole value, old or new, and a wanted file that was there is there |
| `PropertyTraces.EmptyShowsPrefix` | cmd/weft-microvm-agent/properties_linux.go:57-78 | from a tree with no published file, a state with n entries in place shows the set cut off after n of its sorted keys |
| `PropertyTraces.OrderHasPhases` | cmd/weft-microvm-agent/properties_linux.go:30-86 | every state of an apply is one that `NeverTorn` speaks of, with no directory but old ones and those the keys need |
| `PropertyTraces.CutsGrow` | cmd/weft-microvm-agent/properties_linux.go:57-78 | along an apply the number of entries in place never decreases |
| `PropertyTraces.EveryCutShows` | cmd/weft-microvm-agent/properties_linux.go:57-78 | and no number is skipped: each shows in some state, with no directory yet for a later key |
| `PropertyTraces.WriteOneOnTheWay` | cmd/weft-microvm-agent/properties_linux.go:65-78 | one write moves a state with k entries in place to one with k + 1, or, failing, leaves k |
| `PropertyTrees.EmptyIffNoFile` | cmd/weft-microvm-agent/properties_linux.go:120-132 | once its child directories are pruned, a directory is empty exactly when there was no file below it |
| `PropertyTrees.PropertyTree.MkdirAll` | cmd/weft-microvm-agent/properties_linux.go:67-69 | fails exactly when a file blocks the path; otherwise adds the missing directories, one at a time, top down |
| `PropertyTrees.PropertyTree.WriteTransient` | cmd/weft-microvm-agent/properties_linux.go:70-73 | fills the transient file through partial contents that no reader of published names sees |
| `PropertyTrees.PropertyTree.Publish` | cmd/weft-microvm-agent/properties_linux.go:74-77 | renames into place in one step, or, on a directory, removes the transient file |
| `PropertyTrees.PropertyTree.Place` | cmd/weft-microvm-agent/properties_linux.go:70-77 | all states before the last show what was published before |
| `PropertyTrees.PropertyTree.WriteEntry` | cmd/weft-microvm-agent/properties_linux.go:65-78 | one key: outcome and tree as specified, with no other visible state on the way |
| `PropertyTrees.PropertyTree.WriteEntries` | cmd/weft-microvm-agent/properties_linux.go:65-78 | the loop over the sorted keys stops at the first failure; every state on the way shows some first keys in place |
| `PropertyTrees.PropertyTree.CollectFiles` | cmd/weft-microvm-agent/properties_linux.go:90-111 | every regular file that is not transient, each once |
| `PropertyTrees.PropertyTree.SweepStale` | cmd/weft-microvm-agent/properties_linux.go:43-55 | removes exactly the stale files, one at a time, and no wanted file in any state on the way |
| `PropertyTrees.PropertyTree.PruneEmptyDirs` | cmd/weft-microvm-agent/properties_linux.go:115-133 | the recursion removes exactly the directories without a file below them, never the root, each when it is empty, and no file |
| `PropertyTrees.PropertyTree.PruneChildren` | cmd/weft-microvm-agent/properties_linux.go:120-125 | the same for the child directories of one directory, in any order |
| `PropertyTrees.PropertyTree.SweepAndWrite` | cmd/weft-microvm-agent/properties_linux.go:43-78 | garbage collection and writes together; its states are in order and, for a success, end with every entry in place |
| `PropertyTrees.PropertyTree.Apply` | cmd/weft-microvm-agent/properties_linux.go:30-86 | the whole sync has the specified outcome; its states are linked by single system calls and, from the first on, put the entries in place one by one in order, up to the number completed |
| `PropertyTrees.PropertyTree.HandleMessages` | pkg/properties/properties.go:72-83 | a stream of published sets, invalid ones turned away, leaves the tree of the run that the history lemmas speak of |
| `PropertyHistory.CrashesConverge` | cmd/weft-microvm-agent/properties_linux.go:9-12 | after any history, with failures and with crashes at any state of any apply, the next set succeeds exactly when it is prefix-free and none of its paths is still a directory; readers then see exactly the set, and only transient files remain besides |
| `PropertyHistory.DirectoryInTheWay` | cmd/weft-microvm-agent/properties_linux.go:74-83 | publish `a/b`, then `a`: `a` fails, however often it is published |
| `PropertyHistory.CrashLeavesTransient` | cmd/weft-microvm-agent/properties_linux.go:70-73 | a crash while `a` is written leaves `a.tmp`, which the empty set does not remove |
| `PropertyHistory.TmpKeyIsNeverSwept` | cmd/weft-microvm-agent/properties_linux.go:102-106 | the key `a.tmp` is accepted and written, and stays when it is no longer published |
| `BootConfig.TrimNewlines` | pkg/boot/boot.go:77 | removes exactly the trailing newlines |
| `BootConfig.ReadOptionalExact` | pkg/boot/boot.go:85-94 | a field can be read unless a directory or a file stands where it should not; a missing file reads as empty |
| `BootConfig.BootKeysLocated` | pkg/boot/boot.go:62-80 | the four boot keys live at the paths that are read |
| `BootConfig.ReadFromPropertiesDir` | pkg/boot/boot.go:62-80 | with the tree changing between the four reads: fails exactly when one of them does, otherwise returns what the four states show without trailing newlines |
| `BootRace.SeenAtCut` | pkg/boot/boot.go:62-80 | a field reads as nothing until its key is in place and as its final value from then on |
| `BootRace.KindNeverOutrunsScript` | pkg/boot/boot.go:62-80 | whoever sees a source kind, reading during the first publication, sees the final kind and script |
| `BootRace.AlwaysWholeIff` | pkg/boot/boot.go:62-80 | every four reads at ever later cuts of the set give the whole request or an empty one if and only if the request is empty, or has no url and no ref and not both kind and script |
| `BootRace.ReadsAreCuts` | pkg/boot/boot.go:62-80 | four reads in any states of an apply, in order, see the set cut off four times, ever later |
| `BootRace.CutIsRead` | pkg/boot/boot.go:62-80 | every cut that requests something, with no key below a boot field so far, is read in some state of a successful publication to a tree without boot fields |
| `BootRace.BelowFieldSorts` | pkg/boot/boot.go:62-80 | where a key below a boot field sorts: after the script, and before the kind only below the script |
| `BootRace.NoReaderMisledIff` | pkg/boot/boot.go:62-80 | over all readers of a successful publication, in clean keys, to any tree without boot fields: none gets part of the request if and only if the same condition on the request holds or some key lies below the script |
| `BootRace.LeafFieldsIff` | pkg/boot/boot.go:62-80 | the same for sets in which only the boot keys need be clean, if no key lies below a boot field |
| `BootRace.FirstPublication` | cmd/weft-microvm-agent/properties_linux.go:30-86 | the sync and the reader together: the states it goes through, from any tree without boot fields to the final one, mislead no reader exactly under those conditions, and an indivisible request not even if the sync fails |
| `BootRace.ScriptOutrunsKind` | pkg/boot/boot.go:177-189 | a reader between script and kind gets the script alone; a start with it runs it without a pull and stamps the sentinel |
| `BootRace.KindOutrunsUrl` | pkg/boot/boot.go:62-80 | a reader between kind and url gets the kind alone |
| `BootRunner.StampMeansProvisioned` | pkg/boot/boot.go:130-197 | a pass stamps the sentinel only after every pull and script step the request asks for succeeded |
| `BootRunner.FailureStampsIff` | pkg/boot/boot.go:117-120 | success means stamped, and a pass that stamped reports an error if and only if stamping itself reported one |
| `BootRunner.FailedStampIsFinal` | pkg/boot/boot.go:117-120 | a pass that fails at the end of stamping leaves a sentinel, and any retry does nothing and succeeds |
| `BootRunner.SentinelIffStamped` | pkg/boot/boot.go:130-197 | over any starts, the sentinel is there exactly when one of them would stamp it |
| `BootRunner.OneProvisioning` | pkg/boot/boot.go:130-197 | over every sequence of starts, failures and power cuts that ends with a sentinel: one start stamped it, having provisioned all it was asked for, none before it did, none after it does anything |
| `BootRunner.NoSentinelNoStamp` | pkg/boot/boot.go:130-197 | without a sentinel no start has stamped one, and each was free to do its whole pass |
| `BootRunner.Machine.TouchSentinel` | pkg/boot/boot.go:192-197 | the events of stamping, cut off where the power goes, and what is then reported |
| `BootRunner.Machine.RunScript` | pkg/boot/boot.go:177-189 | script then stamp; a failing script leaves no sentinel |
| `BootRunner.Machine.PullAndRun` | pkg/boot/boot.go:151-189 | pull, then script, then stamp, each only after the one before it succeeded |
| `BootRunner.Machine.Run` | pkg/boot/boot.go:130-190 | the log grows by exactly the events this start is to make; nothing at all once the sentinel is there; power loss, success or error exactly as the plan is cut off, ends in an error-free stamp, or does not |
| `BootRunner.Machine.Live` | pkg/boot/boot.go:130-190 | start after start, the sentinel and the log are those of the lives the lemmas speak of |
| `BootWatcher.Watch` | cmd/weft-microvm-agent/main.go:706-767 | stops at the first poll that can stop it; runs at most once, with the request just read, or with the empty one only past the deadline and when no read ever found a request |
| `BootWatcher.StopsWhenReadsRecur` | cmd/weft-microvm-agent/main.go:726-762 | it stops whenever the clock advances and reads keep succeeding, however rarely |
| `BootWatcher.StopsSoonAfterDeadline` | cmd/weft-microvm-agent/main.go:726-762 | and, with finitely many failing reads, within a bound given by the time left and the last failure |
| `BootWatcher.StrandedIff` | cmd/weft-microvm-agent/main.go:726-735 | it runs for ever exactly when every read from the first poll past the deadline on fails |
| `BootWatcher.BootDirAsFileStrands` | cmd/weft-microvm-agent/main.go:726-735 | the accepted key `weft.boot` makes every read fail, and no poll, however late, stops the watcher |
| `DropCounter.Recorder.RecordFirewallDrops` | internal/metrics/metrics.go:178-203 | the two accumulators move independently, each by its own step |
| `DropCounter.TotalIsRunEnds` | internal/metrics/metrics.go:185-202 | for every sequence of samples, the total is the sum of the last elements of its maximal non-decreasing runs |
| `DropCounter.Conservation` | internal/metrics/metrics.go:178-203 | at every point of every kernel trace, the packets dropped are those published, those lost at a sample, and those not yet sampled |
| `DropCounter.NeverOvercounts` | internal/metrics/metrics.go:178-203 | the published total never exceeds the true number |
| `DropCounter.PublishedMonotone` | internal/metrics/metrics.go:178-203 | and never decreases |
| `DropCounter.LostNothingIff` | internal/metrics/metrics.go:178-203 | nothing is lost exactly when every sample is faithful |
| `DropCounter.ExactIff` | internal/metrics/metrics.go:178-203 | at a sample the published total is the true one exactly when every sample so far was faithful |
| `DropCounter.WipedDropsAreLost` | internal/metrics/metrics.go:178-203 | a trace in which it is not: drop 2, rebuild, drop 1, sample publishes 1 of 3 |
| `Containers.EqualImpliesIdentity` | pkg/containers/containers.go:151-187 | without empty environment values in the first container, passing the test means equal identity fields, by the equal-size subset argument |
| `Containers.IdentityImpliesEqual` | pkg/containers/containers.go:151-187 | equal identity fields always pass, so the test is reflexive |
| `Containers.RenameGoesUnnoticed` | pkg/containers/containers.go:161-165 | any empty value can be renamed without the test noticing |
| `Containers.EqualityTestIff` | pkg/containers/containers.go:151-187 | the test is identity for all second containers if and only if the first has no empty environment value |
| `Containers.NotAnEquivalence` | pkg/containers/containers.go:161-165 | in general it is neither symmetric nor transitive |
| `Reconciler.ByNameExact` | pkg/containers/containers.go:95-98 | a valid set is indexed whole, each container under its own name, and nothing else is |
| `Reconciler.TrustedAgrees` | pkg/containers/containers.go:88-145 | over every run, failures included, a name whose latest calls all succeeded runs what was last published for it, across any number of skipped restarts |
| `Reconciler.Converges` | pkg/containers/containers.go:88-145 | on a runtime that does not fail, exactly the last published names run, each with the identity last published |
| `Reconciler.RepublishDoesNothing` | pkg/containers/containers.go:124-130 | publishing the same set again makes no call and changes nothing, whatever failed before |
| `Reconciler.DownAfterIff` | pkg/containers/containers.go:124-141 | exactly which failures leave a published name down, for new names and for restarts |
| `Reconciler.FailedStartIsNotRetried` | pkg/containers/containers.go:143 | a name that is down, however it came to be, stays down through any number of identical sets |
| `Reconciler.RevivedIff` | pkg/containers/containers.go:127-130 | on a runtime that works again, a name that is down agrees with the next set exactly when that set drops it or fails the equality test for it |
| `Reconciler.DownWhileSkippedIff` | pkg/containers/containers.go:124-143 | over every later run without failures the name is down exactly while every set passed the equality test against the one before, and from then on runs if and only if it is published |
| `Reconciler.AgreesAgainIff` | pkg/containers/containers.go:124-143 | and then runs what was last published for it |
| `Reconciler.RestartAgreesIff` | pkg/containers/containers.go:47-50 | an agent restarted over running containers: on a runtime without failures a name agrees exactly when nothing ran under it at the start or some set since has published it, and until then it is left as it was |
| `Reconciler.DroppedMeanwhile` | pkg/containers/containers.go:47-50 | a container dropped while no agent ran runs on through any sets without it |
| `Reconciler.FailuresThatLast` | pkg/containers/containers.go:124-143 | a new container whose pull fails and a changed one whose start fails, both still down after the same set again |
| `Reconciler.FirstFaultIff` | pkg/containers/containers.go:100-105 | no error is recorded exactly when every call succeeded, and otherwise it is that of the first failing call in time |
| `Reconciler.Runtime.StopContainer` | pkg/containers/runtime_stub.go:50-55 | a stop that succeeds leaves nothing running under the name |
| `Reconciler.Runtime.PullImage` | pkg/containers/runtime_stub.go:36-41 | a pull changes nothing that runs |
| `Reconciler.Runtime.StartContainer` | pkg/containers/runtime_stub.go:43-48 | a start that succeeds leaves exactly this container under the name |
| `Reconciler.Agent.Restart` | pkg/containers/containers.go:130-141 | a changed name is stopped, then launched whatever the stop reported |
| `Reconciler.Agent.Converge` | pkg/containers/containers.go:124-141 | the loop body for one name acts on that name alone and keeps the first error |
| `Reconciler.Agent.StopDropped` | pkg/containers/containers.go:107-114 | the drop loop settles exactly the dropped names, in any order |
| `Reconciler.Agent.ConvergeAll` | pkg/containers/containers.go:116-141 | the second loop settles every name of the new set |
| `Reconciler.Agent.Apply` | pkg/containers/containers.go:88-145 | an invalid set changes nothing; otherwise, for every name, the calls made and what then runs depend on that name's old spec, new spec and call outcomes only, whatever the order of the walk; the error is the first in time |
| `Reconciler.Agent.HandleMessages` | pkg/containers/containers.go:191-197 | a stream of published sets, invalid ones turned away, leaves the state of the run that the lemmas speak of |
| `Sessions.Registry.Open` | pkg/execsession/execsession.go:119-128 | cancels exactly the replaced session, then registers the new one |
| `Sessions.Registry.Close` | pkg/execsession/execsession.go:131-138 | cancels and removes exactly the holder of the id, if any |
| `Sessions.Registry.CloseAll` | pkg/execsession/execsession.go:141-148 | one cancel per id, every live session among them, each once unless it stands under two ids, and an empty registry |
| `Sessions.Subscriber.OnOpen` | pkg/execsession/subscriber_linux.go:49-66 | an open request takes the protocol's open step: registry first, then the goroutine, which knows the id only |
| `Sessions.Subscriber.OnExit` | pkg/execsession/subscriber_linux.go:57-65 | a goroutine's deferred close takes the exit step |
| `Sessions.Subscriber.Stop` | pkg/execsession/subscriber_linux.go:72-75 | the stop function takes the shutdown step |
| `Sessions.Subscriber.Play` | pkg/execsession/subscriber_linux.go:48-77 | any interleaving played on the registry ends with the live sessions, and for each session the number of cancel calls, that the lemmas speak of |
| `Sessions.EveryInterleaving` | pkg/execsession/subscriber_linux.go:48-77 | in every interleaving the sessions split into live ones, not cancelled and with an unfinished pump, and removed ones, cancelled exactly once; every cancellation has one of four explained causes |
| `Sessions.DrainsEmpty` | pkg/execsession/subscriber_linux.go:55-66 | once every pump has finished the registry is empty and each session was cancelled once |
| `Sessions.ShutdownReachesAll` | pkg/execsession/subscriber_linux.go:72-75 | a shutdown leaves no session uncancelled |
| `Sessions.WithoutOverlap` | pkg/execsession/subscriber_linux.go:55-66 | if no id is reopened over an unfinished pump, only a session's own exit or a shutdown cancels it |
| `Sessions.ForeignExitIff` | pkg/execsession/subscriber_linux.go:58 | a pump's exit cancels another session exactly when that one holds its id, and then it was opened over this unfinished pump |
| `Sessions.ReplacedExitKillsSuccessor` | pkg/execsession/subscriber_linux.go:58 | a run in which it does |
| `SshWire.ExitStatusRoundTrip` | pkg/sshd/server.go:292 | the exit-status payload decodes to the exit code, for every 32-bit code |
| `SshWire.StringIff` | pkg/sshd/server.go:366-375 | on payloads below 4 GiB a string decodes if and only if the payload is length, string, rest |
| `SshWire.StringFailures` | pkg/sshd/server.go:366-375 | exactly which payloads are refused and exactly which length prefixes make the sum wrap and the slice fail |
| `SshWire.LargestPrefixPanics` | pkg/sshd/server.go:371-373 | the prefix 0xFFFFFFFF alone makes the slice fail |
| `SshWire.LongPayload` | pkg/sshd/server.go:371-373 | for longer payloads, decoding inverts encoding exactly while the wrapped length still covers the string |
| `SshWire.PtyIff` | pkg/sshd/server.go:309-324 | pty-req is accepted with these fields exactly when their encoding is a prefix of the payload |
| `SshWire.EnvIff` | pkg/sshd/server.go:326-336 | the same for env |
| `SshWire.ExecIff` | pkg/sshd/server.go:338-344 | the same for exec |
| `SshWire.WinChIff` | pkg/sshd/server.go:351-361 | the same for window-change |
| `SshSession.HandleSession` | pkg/sshd/server.go:154-240 | the request loop performs exactly the actions of the session state machine |
| `SshSession.HandleMessage` | pkg/sshd/server.go:170-238 | the loop body updates the variables and acts as the state machine does for one request |
| `SshSession.StartOnce` | pkg/sshd/server.go:182-226 | a start request spawns with what was collected, or is refused if there was one before |
| `SshSession.Variables` | pkg/sshd/server.go:160-167 | while the loop runs, its variables are the last well-formed pty-req, the well-formed env pairs in order, and whether a start was requested |
| `SshSession.EveryActionJustified` | pkg/sshd/server.go:154-240 | every shell, reply and resize of every session follows from its request and the earlier ones: the reply each request gets, a grant of a start only with its shell, a resize only after a successful start |
| `SshSession.AtMostOneShell` | pkg/sshd/server.go:182-226 | at most one shell is started per channel |
| `SshSession.FirstStart` | pkg/sshd/server.go:182-226 | the first start request spawns exactly when it names a usable command, with the last pty-req and all env pairs before it |
| `SshSession.LaterStart` | pkg/sshd/server.go:182-226 | every later one is refused and changes nothing else |
| `SshSession.RepliesExact` | pkg/sshd/server.go:154-240 | every request the loop gets to is answered exactly as often as it is owed: once, except for window-changes, unknown requests that want no reply, and payloads that panic the parser; the others never |
| `SshSession.MalformedExecUsesUpStart` | pkg/sshd/server.go:202-215 | a malformed exec followed by a shell: both refused |
| `GuestPlane.DispatchAcks` | pkg/guestplane/client.go:329-380 | the response carries the request's call id, and reads as success exactly when the callback was wired and returned nil or an empty message |
| `GuestPlane.DispatchCalls` | pkg/guestplane/client.go:336-380 | the response to a wired operation carries the answer of exactly the call it asks for, with the request's own arguments and SIGTERM for a missing signal: callbacks that agree on that call give equal responses, and its message can be read off; an unwired one gets an error whatever the callbacks |
| `GuestPlane.SilentError` | pkg/guestplane/client.go:376-379 | an error without a message reads as success |
| `GuestPlane.EveryInterleaving` | pkg/guestplane/client.go:213-311 | the session invariant holds in every interleaving of main, reader and heartbeat |
| `GuestPlane.SilentUnlessAcked` | pkg/guestplane/client.go:213-243 | in every run in which no acknowledgement arrives, also after a failed handshake, at most the Hello is sent and no goroutine starts |
| `GuestPlane.HelloFirst` | pkg/guestplane/client.go:213-243 | Hello is the first frame, the only Hello, and the only frame before the acknowledgement or without one |
| `GuestPlane.ResponsesInOrder` | pkg/guestplane/client.go:277-302 | the responses sent are those due to the requests received, in order, one each, but for at most the last |
| `GuestPlane.NoReportBlocks` | pkg/guestplane/client.go:250-302 | at most two values are ever sent to the error channel, and none of those sends can block |
| `GuestPlane.FailureIsNoticed` | pkg/guestplane/client.go:304-310 | while the session is attached, a goroutine that gave up has left a report to take |
| `AuthStore.LastWithFound` | pkg/sshd/authstore.go:65-84 | the reference search returns the last line with a fingerprint, or there is none |
| `AuthStore.DecisionIff` | pkg/sshd/authstore.go:93-109 | only listed keys are accepted; a listed key is accepted exactly when the last line with its fingerprint is that key, so always without collisions |
| `AuthStore.Store.Replace` | pkg/sshd/authstore.go:65-84 | both indexes agree with a search of the new lines; accepted counts the parsing lines, accepted plus rejected is all of them, and the index is no larger than accepted |
| `AuthStore.Store.Authorize` | pkg/sshd/authstore.go:93-109 | the two lookups decide as the search of the latest lines does, comment included |
| `AuthStore.Store.Size` | pkg/sshd/authstore.go:113-117 | the number of different fingerprints in the latest set |
| `ProcStat.UintExact` | pkg/procps/procps.go:225-228 | on every string: digits too large give the largest uint64 whatever follows, a string of digits its value, anything else 0 |
| `ProcStat.PpidExact` | pkg/procps/procps.go:195-197 | on every string: signed digits that fit an int32 give their value, all others 0, malformed and out of range alike |
| `ProcStat.UintRoundTrip` | pkg/procps/procps.go:225-228 | every uint64 survives printing and parsing |
| `ProcStat.PpidRoundTrip` | pkg/procps/procps.go:191-196 | every int32 parent survives printing and parsing, negative ones included |
| `ProcStat.LineShape` | pkg/procps/procps.go:179-202 | whatever the command name, a printed line parses to that name and its fields, or is refused with fewer than twenty |
| `ProcStat.ProcessRoundTrip` | pkg/procps/procps.go:179-202 | so name, state, parent and times read back exactly |

## Left out

- PropertySync.ApplyExact: sets with a key segment ending in `.tmp` are excluded, as are symbolic links and I/O errors other than those the tree itself causes; a key of such a set is written like any other and then never swept.
- PropertyHistory.CrashesConverge: a crash state is any that the contract of the sync allows for its intermediate states; the sets exclude `.tmp` segments as above.
- PropertyTrees.PropertyTree.Apply: the sorted key list is an argument, listings come in an arbitrary order, and the root's own creation is one step. A key that names the root fails without its transient file being modelled, since that file lies outside the tree.
- BootRace.AlwaysWholeIff: assumes that no published key is an unclean spelling of a boot key, such as `weft.boot//script`.
- BootRace.NoReaderMisledIff: all keys are in clean form, since an unclean one below a boot field may sort anywhere; `LeafFieldsIff` covers unclean keys elsewhere.
- BootRace.FirstPublication: as `AlwaysWholeIff`, and without `.tmp` segments, as `ApplyExact`.
- BootRunner.Machine.Run: the check for an empty sentinel path, the timeout on the run's context and the choice of working directory are not modelled; writing the sentinel is one atomic step and reading it is truthful.
- BootWatcher.Watch: time is an integer clock sampled once per poll; the endless loop is modelled for environments in which some poll stops it, and the lemmas beside it say which those are.
- DropCounter.Conservation: counters are integers, not the floats of the exported metric, and the kernel counter is assumed not to overflow within a trace.
- Reconciler.Agent.Apply: the stub runtime's record of pulled images and the log lines are not modelled, and a failing stop or start may leave anything under its name. The second loop is sorted in the source; the model proves its results for every order.
- Reconciler.TrustedAgrees: needs environments without empty values, which is where the equality test is exact.
- Reconciler.RestartAgreesIff: on a runtime without failures and without empty environment values; what an earlier agent left is arbitrary.
- Sessions.EveryInterleaving: cancellation of the surrounding context by anyone but the registry, and the decoding of open requests, are not modelled; a pump may return at any time.
- SshWire.PtyIff: encodings are defined as the bytes that decode to a number, so they are specifications and not code.
- SshSession.HandleSession: whether a shell can be spawned is one answer per session, since at most one is ever asked for; the shell's own goroutines are left out.
- GuestPlane.EveryInterleaving: each Send is atomic, and dialling, attestation and reconnection are left out.
- AuthStore.Store.Replace: parsing and fingerprints are arbitrary functions; locking is not modelled, as each method is one step.
- ProcStat.ProcessRoundTrip: reading the files, the system clock and the process list are left out.
- NATS, JetStream, gRPC and vsock transport, mounts, mesh and firewall subscribers: a delivered message is a step here.
- JSON decoding, `firewallstatus`, the crun runtime, the pty pump, git, OCI and the shell interpreter: abstract outcomes at most.
- `introspectsrv`, flag wiring and the stubs for other platforms: they would only add easy members.
