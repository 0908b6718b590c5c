# Verified model of the live-room pipeline and of the Flink scripts it ships

The repository counts live-room events with Flink, keeps running totals in a Java backend that pushes them to
browsers over WebSockets, and carries a Flink 1.17.1 distribution whose shell scripts and examples keep state of
their own. This project models the stateful parts in Dafny and proves what they promise, or, where they do not
keep it, exactly when they do.

| file | modules | models |
|---|---|---|
| GpuCoordination.dfy | `GpuCoordination` | one call of the GPU allocator of gpu-discovery-common.sh on its coordination file |
| GpuRuns.dfy | `GpuRuns` | all runs of that allocator in which locked sections exclude each other, with parents starting, exiting and reusing pids |
| GpuInodeRuns.dfy | `GpuInodeRuns` | all runs with the lock as it is, on the inode a section has open, which `sed -i` replaces |
| StatsHandler.dfy | `StatsHandler` | StatsWebSocketHandler, called by one thread |
| StatsRuns.dfy | `StatsRuns` | all interleavings of connecting sessions with synchronized updates |
| PidFile.dfy | `PidFile` | flink-daemon.sh and flink-console.sh on a pid file, one script at a time |
| DaemonRuns.dfy | `DaemonRuns` | all interleavings of those scripts, of process exits and of other processes, with pids being reused |
| Cluster.dfy | `ClusterConfig`, `Cluster` | readMasters, readWorkers, start-cluster.sh, stop-cluster.sh |
| LivePipeline.dfy | `LivePipeline` | event mapping, window counting, the Kafka poll loop, and the three together |
| StreamAggregates.dfy | `StreamAggregates` | the count/sum and the two-largest aggregate of basic_operations.py |
| MavenWrapper.dfy | `MavenWrapper` | hash_string of mvnw (the other copy is the same) |
| FlinkConfig.dfy | `ClassPath`, `ConfigLookup` | constructFlinkClassPath and readFromConfig of config.sh |
| Options.dfy, Lists.dfy, Text.dfy, JavaInt.dfy | | shared: Option, sequences, cutting text, 32-bit ints |

The concurrent parts are state machines: a state, a datatype of events, `Apply` for one event (an event that is
not enabled changes nothing) and `Exec` for a sequence of them, so that a statement about every event sequence is
a statement about every run. `CallIsCoordinate`, `UninterruptedUpdate`, `UninterruptedConnect` and the
`Undisturbed…` lemmas say that steps nothing interrupts have the effect that the class methods ensure. What a
function picks out of a list is stated with `Lists.Filter`, and `Lists.FilterKeeps` and `Lists.KeptIsUnique` say
which positions that are.

What turned out not to hold, with the exact condition:

- The GPU allocator deletes records with an unanchored pattern. Even if locked sections exclude each other it is
  safe in every run exactly when no index of the pool ends in another one; 0 to 9 are fine, 0 and 10 together are
  not (`GpuRuns.SafeIffSuffixFree`).
- Its lock does not outlive a reclaim: `sed -i` puts a new file at the path, and a section that opens that one meets
  no lock. Runs that have reclaimed nothing are safe for any pool; every pool with an index in it has an unsafe run
  with a single reclaim (`GpuInodeRuns.SafeWithoutReclaim`, `GpuInodeRuns.SafeIffNothingToGive`).
- A page that shows the last message can stay behind the totals, because the snapshot sent on connecting is read
  and sent outside the monitor (`StatsRuns.StaleSnapshot`). It shows the totals exactly when a broadcast followed the
  reply or what was added to each field after it was read is 0 modulo 2^32 (`StatsRuns.ShowsTotalsIff`).
- `emit_value` of Top2 leaves out a zero (`StreamAggregates.EmitsTopTwoIff`, `StreamAggregates.ZeroIsLeftOut`).
- A masters line without a host gives every host behind it the port of an earlier line; behind the last host it
  does no harm (`ClusterConfig.MastersAlignedIff`, `ClusterConfig.MisalignedPorts`).
- stop-cluster does not undo start-cluster when starts failed above an older pid file
  (`Cluster.FailedStartPopsEarlier`), when a missing workers file keeps it from stopping the JobManagers
  (`Cluster.JobManagerIsLeft`), or when a missing masters file has kept start-cluster from starting TaskManagers and
  older ones are there to be stopped (`Cluster.EarlierTaskManagerIsStopped`); the exact conditions are
  `Cluster.StopRestoresIff` and, for starts that succeed, `Cluster.RestoredByConfigIff`.
- With reused pids one pid can be on two lines of a pid file (`DaemonRuns.ReusedPid`), though the log ids of the
  lines stay distinct (`DaemonRuns.LineNumbersAreLogIds`). It never is in a run exactly when no start appends a pid
  that is still on a line (`DaemonRuns.ListedOnceIff`).
- A stop can kill an unrelated process that got the pid of a recorded one (`DaemonRuns.StrangerIsKilled`). All
  processes signalled in a run are recorded ones exactly when no pid taken from the file has gone over to a running
  process that is not (`DaemonRuns.OnlyRecordedSignalledIff`).
- A dot in a configuration key matches any character, so a line for another key can set this one or, with a blank
  value, reset it (`ConfigLookup.OtherKeyShadowsIff`, `ConfigLookup.DashReadAsDot`).
- `echo` takes a word such as "-n" for its options, so a configuration value of that form is looked up as nothing
  (`ConfigLookup.OptionIsSwallowed`, `ConfigLookup.ValueIsGivenIff`) and a host line of that form is no entry
  (`ClusterConfig.HostOfLine`, `ClusterConfig.PlainEntry`).
- A colon in the path of a lone dist jar makes it count as several (`ClassPath.RejectedIff`,
  `ClassPath.LoneDistRejected`).

## Model

| member | source | states |
|---|---|---|
| GpuCoordination.CoordinationFile.CoordinationAllocate | flink-1.17.1/plugins/external-resource-gpu/gpu-discovery-common.sh:31-79 | The two loops and the final block, editing the file in place, leave exactly the file and the answer of `Coordinate`, for any file, pool (repetitions included) and amount, negative ones included; on a clean file and a distinct pool that is the first `amount` of the indexes without a record and then of those with a single record whose owner does not run, in pool order, or a refusal if there are too few, with every running owner's record kept in order. |
| GpuCoordination.ReclaimableIff | flink-1.17.1/plugins/external-resource-gpu/gpu-discovery-common.sh:59-60 | An index can be reclaimed if and only if exactly one record has it and that record's owner does not run. |
| GpuCoordination.CoordinateTakes | flink-1.17.1/plugins/external-resource-gpu/gpu-discovery-common.sh:42-78 | The call grants if and only if there are enough indexes without a record or with a lone record of a dead owner; it takes them in this order, deletes exactly the records of the latter that it has taken, and appends one record for each index granted. |
| GpuCoordination.RoundMeaning | flink-1.17.1/plugins/external-resource-gpu/gpu-discovery-common.sh:54-66 | On any file, clean or not, a round of the second loop takes an index with a lone record of a dead owner and deletes every record whose index ends in it, and otherwise does nothing. |
| GpuCoordination.AnchoredIsSameIndex | flink-1.17.1/plugins/external-resource-gpu/gpu-discovery-common.sh:46 | On the text of a line, the anchored grep pattern finds the records of that index and no others. |
| GpuCoordination.UnanchoredIsSuffix | flink-1.17.1/plugins/external-resource-gpu/gpu-discovery-common.sh:62 | On the text of a line, the sed pattern matches exactly the records whose index ends in the given one. |
| GpuCoordination.LineSaysRecord | flink-1.17.1/plugins/external-resource-gpu/gpu-discovery-common.sh:75 | A line is the index, a blank and the pid in decimal, and no two records have the same line. |
| GpuCoordination.SedDeleteExact | flink-1.17.1/plugins/external-resource-gpu/gpu-discovery-common.sh:62 | The deletion removes exactly the records of the reclaimed index if and only if no other recorded index ends in it. |
| GpuCoordination.CoordinateRefinesTake | flink-1.17.1/plugins/external-resource-gpu/gpu-discovery-common.sh:42-78 | The call grants if and only if amount is at most the number of unrecorded plus dead indexes, grants the first of them in that order, reclaims max(0, amount - unrecorded), and the file loses exactly the reclaimed records and gains the granted ones. |
| GpuCoordination.LiveRecordsSurvive | flink-1.17.1/plugins/external-resource-gpu/gpu-discovery-common.sh:54-76 | Granted or refused, the records of live owners stay, unchanged and in order, and only the caller's new ones join them. |
| GpuCoordination.EmptyFileAgrees | flink-1.17.1/plugins/external-resource-gpu/gpu-discovery-common.sh:20-29 | With an empty coordination file the coordinating form gives the same list, and fails in the same cases, as the plain one. |
| GpuRuns.SafeIffSuffixFree | flink-1.17.1/plugins/external-resource-gpu/gpu-discovery-common.sh:31-79 | For a pool without repetitions: no run ever has one index held by two live parents if and only if no index of the pool ends in another. |
| GpuRuns.SuffixFreePoolIsSafe | flink-1.17.1/plugins/external-resource-gpu/gpu-discovery-common.sh:31-79 | For a suffix-free pool, in every run each live holder's record is in the file and no index has two live holders, with processes exiting and pids being reused between the steps of a locked section. |
| GpuRuns.OneRecordPerIndex | flink-1.17.1/plugins/external-resource-gpu/gpu-discovery-common.sh:42-76 | For a pool without repetitions the file never holds two records of one index, in any run. |
| GpuRuns.FileStaysClean | flink-1.17.1/plugins/external-resource-gpu/gpu-discovery-common.sh:54-66 | In every run of a suffix-free pool the file meets the condition under which one call behaves as specified. |
| GpuRuns.CallIsCoordinate | flink-1.17.1/plugins/external-resource-gpu/gpu-discovery-common.sh:35-79 | A locked section nothing interferes with does what one call of coordination_allocate does. |
| GpuRuns.RestOfSection | flink-1.17.1/plugins/external-resource-gpu/gpu-discovery-common.sh:54-78 | From wherever a locked section is, and whatever has happened to processes meanwhile, its remaining steps do the rest of the call. |
| GpuRuns.LiveIsHistory | flink-1.17.1/plugins/external-resource-gpu/gpu-discovery-common.sh:60 | In every run a process exists exactly if it was spawned and has not exited since. |
| GpuRuns.HoldersAreHistory | flink-1.17.1/plugins/external-resource-gpu/gpu-discovery-common.sh:68-78 | In every run a parent holds an index exactly if a section that ended with enough handed it to the parent while it ran and the parent has not exited since. |
| GpuRuns.SuffixMakesUnsafe | flink-1.17.1/plugins/external-resource-gpu/gpu-discovery-common.sh:54-66 | For any distinct pool where one index ends in another there is a run that gives a held index to a second live parent. |
| GpuInodeRuns.SafeWithoutReclaim | flink-1.17.1/plugins/external-resource-gpu/gpu-discovery-common.sh:35-79 | With the lock tied to the inode: as long as nothing has been reclaimed, no index has two live holders, in every run and for every pool. |
| GpuInodeRuns.LockIsPerInode | flink-1.17.1/plugins/external-resource-gpu/gpu-discovery-common.sh:36 | A caller gets in if and only if no caller is inside on the inode that it has open. |
| GpuInodeRuns.CallerIsCoordinate | flink-1.17.1/plugins/external-resource-gpu/gpu-discovery-common.sh:35-79 | A caller that meets no lock and no interference does what one call of coordination_allocate does, and every reclaim replaces the inode. |
| GpuInodeRuns.HoldersAreHistory | flink-1.17.1/plugins/external-resource-gpu/gpu-discovery-common.sh:68-78 | In every run a parent holds an index exactly if a call that ended with enough handed it to the parent while it ran and the parent has not exited since. |
| GpuInodeRuns.OverlapIsUnsafe | flink-1.17.1/plugins/external-resource-gpu/gpu-discovery-common.sh:60-79 | For every non-empty distinct pool there is a run with one reclaim after which two live parents hold the first index. |
| GpuInodeRuns.SafeIffNothingToGive | flink-1.17.1/plugins/external-resource-gpu/gpu-discovery-common.sh:35-79 | With the lock tied to the inode the allocator is safe in every run if and only if the pool is empty. |
| StatsHandler.StatsWebSocketHandler.AddAndBroadcast | backend/src/main/java/com/ella/backend/service/StatsWebSocketHandler.java:48-62 | The four totals grow by the batch in 32-bit arithmetic, then every listed open session receives exactly one message with them and nobody else anything; the list does not change. |
| StatsHandler.StatsWebSocketHandler.Broadcast | backend/src/main/java/com/ella/backend/service/StatsWebSocketHandler.java:66-76 | The loop over the list snapshot delivers to the open sessions in turn. |
| StatsHandler.StatsWebSocketHandler.AfterConnectionEstablished | backend/src/main/java/com/ella/backend/service/StatsWebSocketHandler.java:28-36 | The session is listed once and, if open, receives the current totals; nothing else changes. |
| StatsHandler.StatsWebSocketHandler.AfterConnectionClosed | backend/src/main/java/com/ella/backend/service/StatsWebSocketHandler.java:39-41 | Exactly this session leaves the list; the others stay in order. |
| StatsHandler.DeliverAllReaches | backend/src/main/java/com/ella/backend/service/StatsWebSocketHandler.java:66-76 | Each open listed session's inbox grows by exactly the message; all other inboxes stay as they were. |
| StatsRuns.TotalsAreDelivered | backend/src/main/java/com/ella/backend/service/StatsWebSocketHandler.java:28-76 | For every interleaving, any batches and wrap-around: when no update runs, an open session that got its reply has received the exact totals in one message, and if its last message is a broadcast, it is that one. |
| StatsRuns.TotalsAreBatches | backend/src/main/java/com/ella/backend/service/StatsWebSocketHandler.java:48-62 | In every interleaving, when no update runs each total is the sum of the batches of all updates that were let in, as a 32-bit int. |
| StatsRuns.OnlySnapshotsGoBack | backend/src/main/java/com/ella/backend/service/StatsWebSocketHandler.java:28-90 | With non-negative batches whose sum fits an int: only the snapshot sent on connecting can be below an earlier message, and at rest the largest value received in each field is the total. |
| StatsRuns.ShowsTotalsIff | backend/src/main/java/com/ella/backend/service/StatsWebSocketHandler.java:28-90 | At rest, for any batches and wrap-around, the last message equals the totals if and only if a broadcast was sent to the session after its reply, or the sum of what was added to each field after the session had read it is a multiple of 2^32; and it is a broadcast exactly in the former case. |
| StatsRuns.ShowsTotalsIffNeverLate | backend/src/main/java/com/ella/backend/service/StatsWebSocketHandler.java:28-90 | If all batches are non-negative and their sum fits an int, the second condition says that no field was incremented after the session had read it. |
| StatsRuns.StaleSnapshot | backend/src/main/java/com/ella/backend/service/StatsWebSocketHandler.java:29-35 | A run in which the only viewer's last message shows no joins although one join had been broadcast to it. |
| StatsRuns.UninterruptedUpdate | backend/src/main/java/com/ella/backend/service/StatsWebSocketHandler.java:48-76 | The steps of an update nobody interrupts add up to one addAndBroadcast. |
| StatsRuns.UninterruptedConnect | backend/src/main/java/com/ella/backend/service/StatsWebSocketHandler.java:28-36 | The steps of a connect nobody interrupts add up to one afterConnectionEstablished. |
| StatsRuns.UninterruptedDisconnect | backend/src/main/java/com/ella/backend/service/StatsWebSocketHandler.java:39-41 | The steps of a disconnect nobody interrupts close the session and add up to one afterConnectionClosed. |
| StatsRuns.ListedIsHistory | backend/src/main/java/com/ella/backend/service/StatsWebSocketHandler.java:28-41 | In every run a session is listed exactly if it has connected and not, after its transport closed, left. |
| StatsRuns.ClosedHearNothing | backend/src/main/java/com/ella/backend/service/StatsWebSocketHandler.java:66-76 | A session whose transport has closed receives nothing more, in any run. |
| PidFile.Daemon.Start | flink-1.17.1/bin/flink-daemon.sh:86-150 | The log id is the number of lines, the running instances are counted, and the new pid is appended if and only if the process is still there. |
| PidFile.Daemon.Stop | flink-1.17.1/bin/flink-daemon.sh:152-176 | The last line goes, a file left empty is removed, and exactly that process is killed if it runs. |
| PidFile.Daemon.StopAll | flink-1.17.1/bin/flink-daemon.sh:178-192 | The file is gone and the listed running processes have been killed in file order. |
| PidFile.Daemon.ConsoleStart | flink-1.17.1/bin/flink-console.sh:91-111 | The file is dropped if and only if no listed process runs, the id is the number of lines left, and the own pid is appended if that can be written. |
| PidFile.PruneMeaning | flink-1.17.1/bin/flink-console.sh:92-100 | The pruning drops the file if and only if none of the pids in it runs. |
| PidFile.StopAllIsRepeatedStop | flink-1.17.1/bin/flink-daemon.sh:152-192 | stop-all and stopping until the pid file is gone leave no file, the same processes, and the same ones signalled, in opposite order if no pid is listed twice. |
| PidFile.StopTimesKills | flink-1.17.1/bin/flink-daemon.sh:152-176 | n stops remove the last n lines and kill those processes, last one first. |
| PidFile.StartsThenStops | flink-1.17.1/bin/flink-daemon.sh:139-176 | After any number of starts and any number n of stops the file is as before exactly when as many were pushed as popped and it was not an empty file, or there was none and no fewer were popped; then exactly the started processes are killed. |
| PidFile.KillAllEffect | flink-1.17.1/bin/flink-daemon.sh:96-112 | Killing a list signals exactly its running members and removes those that can be killed. |
| DaemonRuns.LineNumbersAreLogIds | flink-1.17.1/bin/flink-daemon.sh:74-88 | Over every interleaving, reused pids included, the process recorded on line k was given log id k, so no two lines share a log. |
| DaemonRuns.NoOrphans | flink-1.17.1/bin/flink-daemon.sh:141-191 | Whenever the lock is free, every recorded process that runs and was not signalled is in the pid file, on the line its log id names, and no two of them share a log id, with pids reused. |
| DaemonRuns.PruningKeepsTheLiving | flink-1.17.1/bin/flink-console.sh:92-100 | In every run, pruning by a console start never drops a recorded process that runs, although processes exit and pids are reused while it looks. |
| DaemonRuns.WithoutReuse | flink-1.17.1/bin/flink-daemon.sh:74-176 | If no pid is given out twice, no process is on two lines, each is on the line of its log id, pruning never drops a running pid, and only recorded processes are signalled. |
| DaemonRuns.ListedOnceIff | flink-1.17.1/bin/flink-daemon.sh:141-146 | In every state of a run no pid is on two lines, if and only if at no step of the run a script appends a pid that is on a line already. |
| DaemonRuns.OnlyRecordedSignalledIff | flink-1.17.1/bin/flink-daemon.sh:152-192 | In every state of a run the signalled processes are recorded ones, if and only if at no step a stop or stop-all meets a pid that a running, unrecorded process has. |
| DaemonRuns.UndisturbedStart | flink-1.17.1/bin/flink-daemon.sh:88-146 | The steps of an undisturbed start are the push with the line count as log id, of a process that now runs. |
| DaemonRuns.FailedStart | flink-1.17.1/bin/flink-daemon.sh:139-149 | A launched process that is gone before the check is not recorded, and the lock is free again. |
| DaemonRuns.UndisturbedStop | flink-1.17.1/bin/flink-daemon.sh:152-176 | The steps of an undisturbed stop leave the file and the processes that the stop of PidFile leaves. |
| DaemonRuns.UndisturbedStopAll | flink-1.17.1/bin/flink-daemon.sh:178-192 | The steps of an undisturbed stop-all leave no file and the processes that the stop-all of PidFile leaves. |
| DaemonRuns.UndisturbedConsole | flink-1.17.1/bin/flink-console.sh:91-114 | The steps of an undisturbed console start are the pruning and, if the file can be written, the push with the remaining line count as log id. |
| DaemonRuns.LockIsFreed | flink-1.17.1/bin/flink-daemon.sh:79-88 | From every state the script that holds the lock gets to its end by its own steps, in a bounded number of them. |
| DaemonRuns.LockIsExclusive | flink-1.17.1/bin/flink-daemon.sh:79-88 | While a script holds the lock no other script moves it or the file; only the death of a console script frees the lock early. |
| DaemonRuns.WhoLives | flink-1.17.1/bin/flink-daemon.sh:96-112 | A step changes exactly the processes that it starts, kills or lets exit. |
| ClusterConfig.ReadMasters | flink-1.17.1/bin/config.sh:443-476 | The arrays are the non-empty hosts and the ports ("0" when none is given) of the non-empty entries, and the flag says whether all hosts are local. |
| ClusterConfig.ReadWorkers | flink-1.17.1/bin/config.sh:478-500 | The array is the non-empty host names in order, and the flag says whether all are local. |
| ClusterConfig.HostOfLine | flink-1.17.1/bin/config.sh:431-441 | The entry of a line comes from its first word: the part before a '#' and, if that ends in '/' and a host name of letters, digits, dots and dashes, the host name; a word or result that is options to echo gives none. |
| ClusterConfig.EntriesAreFilter | flink-1.17.1/bin/config.sh:457-476 | The entries of a file are those of its lines that give one, in order, repetitions kept. |
| ClusterConfig.PortOfEntry | flink-1.17.1/bin/config.sh:461-468 | The port of an entry is the text between its first and second colon, or "0" if there is none. |
| ClusterConfig.WhereTheyComeFrom | flink-1.17.1/bin/config.sh:460-474 | The masters are the hosts of exactly the lines that have one, in order, and port i is the port of line i, for every file. |
| ClusterConfig.MastersAlignedIff | flink-1.17.1/bin/config.sh:460-474 | Master i and port i come from the same line, for every master, if and only if no line without a host stands before one with a host; the arrays keep the same length if and only if no line lacks a host, which all-local files never do. |
| ClusterConfig.MisalignedPorts | flink-1.17.1/bin/config.sh:460-474 | A line ":p" before "host:q" pairs host with port p; behind it, host keeps port q although the arrays differ in length. |
| Cluster.StartCluster | flink-1.17.1/bin/start-cluster.sh:25-53 | Pushes the JobManagers and TaskManagers on this machine that came up, none after a missing file has ended the script; after successful starts each pid file has as many more lines as daemons are meant here. |
| Cluster.JobManagersMeaning | flink-1.17.1/bin/start-cluster.sh:25-49 | One JobManager without high availability; with it, if all masters are localhost or 127.0.0.1, as many as are listed, and otherwise as many as there are positions at which a name of this machine is listed. |
| Cluster.TaskManagersMeaning | flink-1.17.1/bin/config.sh:502-527 | If all workers are localhost or 127.0.0.1, as many TaskManagers as are listed, and otherwise as many as there are positions at which a name of this machine is listed. |
| Cluster.UpMeaning | flink-1.17.1/bin/start-cluster.sh:33-42 | Recorded are the pids of those launches that came up, one each. |
| Cluster.StopCluster | flink-1.17.1/bin/stop-cluster.sh:25-47 | Pops the TaskManagers and then the JobManagers meant on this machine, none after a missing file has ended the script; each pid file has that many lines less, or none. |
| Cluster.RestoredByConfigIff | flink-1.17.1/bin/config.sh:443-527 | After successful starts each pid file comes back if and only if: for JobManagers, there were none to start, or there is a workers file and the pid file was not empty; for TaskManagers, there were none, or the masters file is missing and there was no pid file, or it is not missing and the pid file was not empty. |
| Cluster.StopUndoesStart | flink-1.17.1/bin/stop-cluster.sh:25-47 | After successful starts with the same configuration both pid files come back if and only if, for each kind with processes to start, the script reaches its stops and starts alike and the pid file was not an empty one (without a masters file: there was no TaskManager file); and then exactly the started processes that still run are signalled, in the opposite order of starting if pids are distinct, whatever exited in between. |
| Cluster.StopRestoresIff | flink-1.17.1/bin/stop-cluster.sh:25-47 | For any configuration, missing files included, and starts that fail: each pid file comes back if and only if as many were pushed as popped and it was not an empty file, or it was absent and no fewer were popped. |
| Cluster.RestoredMeansStopped | flink-1.17.1/bin/stop-cluster.sh:25-47 | Whenever both pid files come back, exactly the started processes that still run were signalled, and those that can be killed are gone. |
| Cluster.StartThenStop | flink-1.17.1/bin/start-cluster.sh:25-53 | Running both scripts on the pid files, with any processes exiting in between, has the outcome of the two lemmas above. |
| LivePipeline.ProcessWindow | flinkjob/src/main/java/com/ella/flinkjob/FlinkEventTypeAggregator.java:62-76 | The map holds the four known types and every type that occurs, each with its 32-bit sum over the non-null elements. |
| LivePipeline.ConsumePoll | backend/src/main/java/com/ella/backend/consumer/KafkaAggConsumer.java:42-60 | A poll adds the records before its first malformed one and nothing behind it. |
| LivePipeline.ConsumeLoop | backend/src/main/java/com/ella/backend/consumer/KafkaAggConsumer.java:40-61 | After any polls each total has grown, in 32-bit arithmetic, by the sum over the polls of the records before the first malformed one. |
| LivePipeline.BatchMeaning | backend/src/main/java/com/ella/backend/consumer/KafkaAggConsumer.java:50-55 | Each of the four numbers is what the record holds under its name, and 0 if it holds nothing. |
| LivePipeline.AcceptedAllAt | backend/src/main/java/com/ella/backend/consumer/KafkaAggConsumer.java:40-60 | A malformed record in one poll costs the other polls nothing. |
| LivePipeline.CountsOfStream | flinkjob/src/main/java/com/ella/flinkjob/service/LiveEventProcessor.java:20-34 | What reaches the windows under a key is one count for each position of an input record whose eventType, or else event_type, says that key. |
| LivePipeline.KeyMeaning | flinkjob/src/main/java/com/ella/flinkjob/service/LiveEventProcessor.java:22-32 | A record that is an object counts for the text of eventType whatever event_type holds, for nothing if it is null; without eventType the same for event_type; any other record, blank, absent or unparsed, counts for nothing; arrays and objects have the empty text. |
| LivePipeline.TotalsCountEvents | backend/src/main/java/com/ella/backend/service/StatsWebSocketHandler.java:48-52 | For every split into windows and polls, each total is the number of positions of input records whose eventType, or else event_type, says its name, as a 32-bit int. |
| LivePipeline.PipelinesAgree | flinkjob/src/main/java/com/ella/flinkjob/FlinkEventTypeAggregator.java:48-78 | The totals depend only on the multiset of events, not on order, windows or polls. |
| LivePipeline.MalformedCutsPoll | backend/src/main/java/com/ella/backend/consumer/KafkaAggConsumer.java:43-60 | A malformed record loses the rest of its poll; the totals are those of the poll without this record if and only if what would then have been accepted sums to a multiple of 2^32 in the field, whatever follows it. |
| StreamAggregates.CountSum.Accumulate | flink-1.17.1/examples/python/table/basic_operations.py:397-399 | Count and sum grow by the row; a text that is no number raises after the count has grown. |
| StreamAggregates.CountSum.Retract | flink-1.17.1/examples/python/table/basic_operations.py:401-403 | Count and sum shrink by the row; a text that is no number raises after the count has shrunk. |
| StreamAggregates.CountSum.Merge | flink-1.17.1/examples/python/table/basic_operations.py:405-408 | The other accumulators are added in turn and stay as they are; the accumulator itself among them doubles what was reached. |
| StreamAggregates.SelfMergeDoubles | flink-1.17.1/examples/python/table/basic_operations.py:405-408 | Each merge of the accumulator into itself doubles the weight of what it held before. |
| StreamAggregates.RunIsNetValue | flink-1.17.1/examples/python/table/basic_operations.py:394-408 | For any tree of create, accumulate, retract and merge the accumulator is the signed count and sum of the net contributions. |
| StreamAggregates.Execute | flink-1.17.1/examples/python/table/basic_operations.py:394-408 | Carrying out a tree on accumulator objects leaves its value in a fresh accumulator. |
| StreamAggregates.SameNetSameResult | flink-1.17.1/examples/python/table/basic_operations.py:397-408 | Trees with the same net rows give the same accumulator, so sharding and merge order do not matter and retract undoes accumulate. |
| StreamAggregates.Top2.Accumulate | flink-1.17.1/examples/python/table/basic_operations.py:447-453 | The object holds the first two of its sorted inputs before and after; a text that is no number changes nothing. |
| StreamAggregates.Top2.EmitValue | flink-1.17.1/examples/python/table/basic_operations.py:439-442 | The rows are the two largest of the inputs fed so far, without zeros, largest first. |
| StreamAggregates.Top2IsSortedPrefix | flink-1.17.1/examples/python/table/basic_operations.py:444-453 | After any inputs the pair is the first two of them in any descending arrangement, repetitions kept, None only if there are too few. |
| StreamAggregates.Top2IgnoresOrder | flink-1.17.1/examples/python/table/basic_operations.py:447-453 | The pair does not depend on the order of the inputs. |
| StreamAggregates.EmitsTopTwoIff | flink-1.17.1/examples/python/table/basic_operations.py:439-442 | emit_value yields the two largest inputs without the zeros among them, in order and with repetitions; so it yields the two largest if and only if neither is zero. |
| MavenWrapper.HashString | backend/mvnw:81-90 | For every string and every numbering of its characters the printed number is the sum of c_i * 31^(n-1-i) modulo 2^32, or that with the upper half of 64 bits set, which never happens if no character number is negative, as for ASCII; it is printed in digits 0-9 and a-f without a leading zero. |
| MavenWrapper.StepIsExact | backend/mvnw:86 | No intermediate value leaves the signed 64-bit range of shell arithmetic, and each step is the remainder that has the sign of the dividend. |
| MavenWrapper.HashStringIsHashCode | backend/mvnw:81 | The hash is Java's signed wrapping hashCode read as unsigned. |
| MavenWrapper.HashOfConcat | backend/mvnw:84-88 | hash(a ++ b) is (hash(a) * 31^length(b) + hash(b)) modulo 2^32. |
| MavenWrapper.HexRoundTrip | backend/mvnw:89 | The digits printed are 0-9 and a-f, without a leading zero, and read back as the number. |
| ClassPath.ConstructFlinkClassPath | flink-1.17.1/bin/config.sh:20-48 | The loop's strings and the result, for any list of jar paths: no dist jar is reported if and only if there is none, several if and only if there is more than one or a single one with a colon behind some other character; with plain paths the result splits back into the other jars in order and the dist jar. |
| ClassPath.IsDistIff | flink-1.17.1/bin/config.sh:25 | A dist jar is a path that ends in "/flink-dist", a text without '/', one character and "jar". |
| ClassPath.JarsAreFiltered | flink-1.17.1/bin/config.sh:24-32 | The dist jars and the other jars are exactly those, each in order. |
| ClassPath.PathIsJoined | flink-1.17.1/bin/config.sh:26-47 | The class path is the other jars joined by colons, a colon, and the dist jars joined by colons. |
| ClassPath.SplitsBackIffPlain | flink-1.17.1/bin/config.sh:24-47 | Splitting the built class path at colons gives the other jars in order followed by the dist jars if and only if every path is non-empty and free of colons. |
| ClassPath.ClassPathSplitsBack | flink-1.17.1/bin/config.sh:34-35 | With such paths the count taken by splitting is the number of dist jars. |
| ClassPath.RejectedIff | flink-1.17.1/bin/config.sh:35-44 | Whatever the paths, the jars are rejected as several if and only if there is more than one dist jar or a single one with a colon behind some other character of its path. |
| ClassPath.EmptyEntryIff | flink-1.17.1/bin/config.sh:26-47 | With a dist jar, the class path begins with an empty entry if and only if there is no other jar or the first other jar's path begins with a colon (empty paths are passed over). |
| ConfigLookup.ExtractIff | flink-1.17.1/bin/config.sh:140 | A line sets a key, to x, if and only if it is blanks, a text of the key's length that differs from the key at most at its dots, blanks, a colon, a blank and a text that gives x when cut at '#' and trimmed. |
| ConfigLookup.CommentSetsNothing | flink-1.17.1/bin/config.sh:140 | A line whose first non-blank character is '#' sets nothing. |
| ConfigLookup.LookupMeaning | flink-1.17.1/bin/config.sh:133-143 | The lookup gives the value of the last line that sets the key, the default if that is blank or no line does, as far as echo prints it. |
| ConfigLookup.LastLineWins | flink-1.17.1/bin/config.sh:133-143 | Appending "key: v" makes the lookup give v trimmed and cut at '#', or the default if that is blank, unless echo takes it for an option; appending a line that does not match changes nothing. |
| ConfigLookup.ValueIsGivenIff | flink-1.17.1/bin/config.sh:142 | The value set last, or the default if it is blank, is what the lookup gives if and only if it is not a word of options to echo. |
| ConfigLookup.ExtractKeyValue | flink-1.17.1/bin/config.sh:140 | A line "k: v" is read under a key if and only if k has the key's length and differs from it at most where the key has dots. |
| ConfigLookup.OtherKeyShadows | flink-1.17.1/bin/config.sh:140-142 | Behind a line for another key the lookup gives that line's value, or the default if it is blank, as far as echo prints it, when the keys differ only at dots of this one, and otherwise what it gave before. |
| ConfigLookup.OtherKeyShadowsIff | flink-1.17.1/bin/config.sh:140-142 | A line for another key changes what is looked up if and only if the two keys differ only at dots of this one and what it sets, the default if that is blank, as far as echo prints it, is not what was looked up before. |
| ConfigLookup.TrimMeaning | flink-1.17.1/bin/config.sh:140 | Trimming removes blanks at both ends and nothing else. |

## Left out

- Callers between opening and replacing the file inside one `sed -i`: reading, writing and renaming are one step.
- `unset recorded_indexes[$i]` in the GPU script: each slot is read once, before it is unset, so nothing depends on it.
- Lines of the coordination file that are not "index pid", and edits of it by other programs.
- `non_coordination_allocate` with a negative amount: the array slice is then a shell error.
- The Java memory model, failing or concurrent sends, and the JSON text of a message: reads and writes are sequentially consistent, a send to an open session delivers, one to a closed session does not.
- Killing a daemon script half way, running without `flock`, and `kill -0` failing for a process of another user.
- Pid files with blank or non-numeric lines.
- What ssh and pdsh do on other machines, pdsh's treatment of a host listed twice, the order in which daemons started over ssh get their turn, pid directories shared between machines, NUMA mode, and what java is started with.
- Glob characters and backslashes in conf/masters and conf/workers, which the unquoted shell words would expand.
- Finding and sorting the jar files: their sorted list is an input; newlines in paths are not modelled.
- Configuration keys with an empty word between dots or with other pattern characters than the dot.
- The Flink, Kafka, Spring and Jackson libraries: windows and polls are arbitrary splits, JSON values are abstract, integer fields of a record arrive as ints and anything whose parsing throws is `Malformed`.
- Flink's treatment of the null a map function returns; the filter behind it removes it.
- BIGINT overflow of the Python aggregates' result columns.
- MavenWrapper.HashString: which number the shell gives a character above 127; any numbering with 32-bit ints is covered.
- LiveWebSocketHandler, KafkaService, the DTOs, the front end and the other PyFlink examples: plumbing or library behaviour.
