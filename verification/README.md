# Diarkis: a model of the replicated file store, with proofs

Diarkis keeps a directory tree on every node of a Raft group. Clients send commands over a framed
TCP protocol; mutating commands go through the Raft log and are applied by one thread per node, and
reads are served by RPC threads beside it. This project models what Diarkis itself contributes
(locking, the storage operations, the state machine, path handling, framing and the client/server
session) and proves what holds in every run.

`dafny verify dfyconfig.toml` checks everything. The modules, bottom up:

- `Basics`, `Paths`: results and error codes; the character loops on paths against split/filter/join.
- `FileTree`, `Commands`: a tree as a map from name sequences to files and directories, the POSIX
  calls on it (IEEE Std 1003.1-2017, System Interfaces), and the atomic meaning `Exec` of a command.
- `Outcomes`: what every command reports and does, stated by what is in the tree.
- `DiskModel`: the same calls on a disk with inodes, on which open descriptors outlive names.
- `Locks`: `FileLocker` as a class, and what its table says about the guards alive.
- `Engine` and `EngineLocks`, `EngineEffects`, `EngineGuards`, `EngineAtomicity`, `EngineProgress`: the
  storage engine as a step system of any number of readers, one applier and the RPC threads that wait
  on closures. A step is one critical section or one system call, and every interleaving is a run.
- `Carrying`, `Trails`, `EngineTorn`, `Skeleton`, `EngineExact`: where renames can take an open file,
  runs built step by step, and read atomicity as an if-and-only-if.
- `Storage`, `Replica` (StateMachine.dfy): the operations as methods that transfer in pieces, and
  `apply_command`/`on_apply` on top of them.
- `Histories`, `Replay`, `Commutation`: logs seen file by file, restart without a snapshot, and
  independence of commands on different files.
- `Cluster`, `Admission`, `ClusterExact`, `NodeEngine`: requests, the committed log and the nodes that
  apply it and restart; which requests get into the log; acknowledged writes as an if-and-only-if; the
  storage engine inside a node.
- `Framing`, `Tcp`, `Session`, `EndToEnd`: the byte stream, the partial-transfer loops, the
  request/response protocol, and its composition with the cluster.
- `Packing`: a concrete packed form of commands and responses, which shows that what is assumed of
  MessagePack can be met.

## What the proofs found

- Read atomicity, exactly (`AtomicExactly`). Fix a raw path `p` that is read, the raw paths that are
  written or appended to, and the pairs of raw paths that are renamed; everything else (disk,
  schedule, contents, other readers, other commands) is free. Then every read of `p` in every run is
  atomic if and only if no chain of those renames can carry the file of `p` to where a different
  written path denotes it, without needing the lock of `p`. Without renames this says that no other
  accepted raw path that is written denotes the same file (`AtomicWithoutRenames`). Canonical paths and
  renames that move files, or directories that are not above `p`, meet the condition
  (`CanonicalPathsSuffice`). The reason is that locks are per raw path while a descriptor follows the
  file. The interval of a read begins at the number of commands complete when it was called and ends at
  the number begun when it returned, because a command's effect is on the disk before its status is
  recorded.
- `rename(p, p)` takes the same write lock twice. Every run extends to one that has finished all work
  if and only if the log holds no accepted rename of a raw path to itself; otherwise it extends to one
  in which the applier waits for its own lock, and there it stays (`EveryRunEnds`,
  `SelfRenameStopsApplier`).
- Restart keeps the directory and restores nothing, so entries are applied again. That is harmless for
  a set of command kinds if and only if it holds no append, no directory command and no rename
  (`ReplaySafeExactly`). Directory creation and removal look idempotent but are not: an attempt that
  failed the first time can succeed the second time. For the harmless kinds the crash may fall inside a
  write, which leaves a file with part of the buffer (`CrashedEngineReplays`), and a replay may itself
  be cut short by further crashes (`CrashIsHarmless`).
- An acknowledged write always stands at exactly one committed position. That every node which has
  applied it reflects it holds for nodes that have not restarted, and for restarted ones whose entries
  may be replayed (`AcknowledgedWritesHold`); a restart after the answer takes nothing away from it. Over sets of command kinds: in every run with restarts
  every acknowledged write is reflected by every node, once caught up, if and only if the set holds no
  append, no directory command and no rename (`AcksHoldExactly`).
- A call whose server response was lost returns an error, and its command may have been applied all
  the same; but whatever a call returned, its command stands at no more than one committed position
  (`OnePosition`), because `send_command` never sends a request twice.
- The client stores the length of a request in 32 bits without a check. Responses stay paired with
  calls, for a given set of commands, if and only if none of them packs to 2^32 bytes or more with an
  admissible length modulo 2^32 (`PairingExactly`). The run that shows the need for this has a channel
  that accepts the whole frame of 2^32 bytes or more before the server gives up the connection.
- `delete_directory("")` can remove the empty base, after which `write_file("")` makes the base a
  regular file (`BaseCanBecomeAFile`). The tree stays well-formed all the same.
- `create_file` on a directory and `create_directory` on a file report success
  (`OtherKindCountsAsCreated`).
- Reads do not ask whether the node leads. A read that meets the condition above gives the state after
  some prefix that its node has applied, not the latest committed state (`ReadsSeeAPrefix`).

## Assumptions

- Local system calls fail only as POSIX says for the tree at hand, apart from EINTR and short
  transfers, which may happen at any call; there are no symbolic links, no other process touches the
  base directory, the base's own parent exists, and the system's own length limits on names and paths
  are not reached.
- A directory opened for reading is reported as an I/O error (EISDIR at the first read; its size is
  positive and within the limit). `fsync` changes nothing that a running process can observe. Where
  POSIX leaves a choice between error numbers, the model takes one of them. One such choice shows in
  the code that is reported: for `rmdir` of a directory that is not empty, and for `rename` onto one,
  POSIX allows EEXIST and ENOTEMPTY, which `Error::from_errno` maps to different codes
  (src/error.cc:32-36). The model takes ENOTEMPTY, an I/O error; the tree is the same either way.
- Raft is an ordered list of committed entries that only grows. A proposed entry is committed at most
  once; its closure is completed when its own node applies it, or with an error at any time. A node
  that restarts keeps what its system calls had done (its process ended, not the machine), and is fed
  the log again from an entry no later than where it was.
- No node is sent a snapshot. `on_snapshot_save` reports success for an empty one, by default every
  3600 seconds (src/include/diarkis/state_machine.h:27), and `on_snapshot_load` returns 0 without
  restoring anything (src/state_machine.cc:407-421); so a node that lags behind a compacted log and is
  sent the snapshot would skip the entries it covers. The cluster has no such step, and nothing is
  claimed of such a node.
- Calls on one `RpcClient` do not overlap. The class has no mutex, so two threads that share one could
  take each other's responses.
- MessagePack is a pair of functions with unpack after pack the identity, supplied as a parameter.
  `PairingExactly` also takes it to be self-delimiting: no proper prefix of a packed command unpacks
  to that command; `AcksHoldExactly` takes mutating commands of a few bytes to fit into a log entry.
  `Packing.CodecQualifies` and `Packing.WireQualifies` give a packed form that meets all of this.
  MessagePack itself refuses single fields of 2^32 bytes or more, with an exception that ends the call
  before anything is sent; the model packs them like any other.
- In `EndToEnd` the session is that of one client, whose connections may reach any node; the requests
  of all other clients are dispatched inside the cluster at any time.
- `Engine` works on decoded commands; an entry that is too large or does not decode acts like a
  command of unknown type, which is what `Replica.Meaning` makes of it.
- In `Cluster` a node applies an entry in one step; `NodeEngine.EngineIsNode` ties that step to the
  step system. A rename of a raw path to itself completes there, while in the source it never does;
  so `Cluster` has more runs than the source, and what is proved of all of them holds.

## Model

| member | source | states |
|---|---|---|
| `Paths.NormalizePath` | src/storage.cc:67-89 | the loop with its slash flag returns the non-empty fields of the path joined by single slashes |
| `Paths.NormalizeIsCanonicalForm` | src/storage.cc:67-89 | normalising keeps the components, is idempotent, and leaves no leading, trailing or doubled slash |
| `Paths.NormalFormIsFixed` | src/storage.cc:67-89 | conversely, a string without leading, trailing or doubled slashes is returned unchanged |
| `Paths.FieldEnd` | src/storage.cc:43-46 | one `getline` step: the field ends at the next slash or at the end, and holds no slash |
| `Paths.IsSafePath` | src/storage.cc:37-65 | true exactly for relative paths whose '/'-separated fields are never ".." and hold no NUL |
| `Paths.NoNul` | src/storage.cc:58-64 | true exactly if no collected component holds a NUL |
| `Paths.ValidatePath` | src/storage.cc:230-241 | success exactly for safe paths of at most 4096 characters, otherwise the invalid-path error |
| `Paths.StripLeadingSlashes` | src/storage.cc:219-221 | drops exactly the leading slashes and counts the passes of the loop |
| `Paths.ResolvePath` | src/storage.cc:217-228 | the result begins with the base, and its names are those of the base followed by those of the path; the slash-stripping loop never runs its body |
| `Paths.ResolvedComponents` | src/storage.cc:217-228 | for every base and path: resolving names exactly the base's names and then the path's |
| `Paths.ResolvedStaysBelowBase` | src/storage.cc:217-241 | walking the resolved string of an accepted path field by field never comes out above the base again |
| `Paths.AcceptedExactly` | src/storage.cc:37-65 | character by character: accepted are exactly the paths of at most 4096 characters that do not begin with a slash, hold no NUL and have no ".." between slashes or ends |
| `Paths.AcceptedResolvesInside` | src/storage.cc:217-241 | an accepted path has an accepted normal form without NUL, every prefix of its walk stays at or below the base, and the resolved length is at most that of the base plus 4097 |
| `Paths.WalkStaysInside` | src/storage.cc:51-53 | a walk along names other than ".." never leaves the base, after any number of names |
| `Paths.CanonicalKeysAreFaithful` | src/storage.cc:217-228 | on canonical paths the raw lock key, the resolved string and the file determine one another |
| `Paths.ResolveIdentifies` | src/storage.cc:217-228 | two raw paths resolve to one string exactly when their components agree |
| `Paths.ResolvingKeepsTarget` | src/storage.cc:217-228 | normalising does not change which file the kernel looks up |
| `Paths.TargetByNames` | src/storage.cc:217-228 | what the kernel looks up, name by name: "." stays and is remembered if it comes last, any other name goes down, further slashes mean nothing |
| `FileTree.BaseAbsentOnlyWhenEmpty` | src/storage.cc:467-487 | in a well-formed tree the base is absent exactly when the tree is empty, and a base that is a file is all there is |
| `FileTree.RenameReachesMove` | src/storage.cc:430-436 | a successful rename between different paths moves a subtree, never into itself and never onto something non-empty |
| `FileTree.MoveContents` | src/storage.cc:430-436 | the moved subtree arrives entry by entry with its contents, nothing is left at or below the old name, everything elsewhere is unchanged |
| `FileTree.MoveKeepsWellFormed` | src/storage.cc:430-436 | after a subtree move every entry still lies in a directory |
| `Commands.CallKeepsWellFormed` | src/storage.cc:243-487 | every system call of every command keeps each entry's parent present and a directory |
| `Commands.RunKeepsWellFormed` | src/state_machine.cc:312-366 | so does every log of commands |
| `Commands.RenameMovesSubtree` | src/storage.cc:416-441 | a successful rename preserves the relative paths and contents of the moved subtree and touches nothing else |
| `Commands.SuccessTakesEffect` | src/storage.cc:243-487 | what a success status promises about the path, for each of the seven mutating commands |
| `Commands.FailureChangesNothing` | src/storage.cc:243-487 | a command that reports failure leaves the tree as it was |
| `Commands.OtherKindCountsAsCreated` | src/storage.cc:254-283 | creating a file over a directory, or a directory over a file, reports success and does nothing |
| `Commands.BaseCanBecomeAFile` | src/storage.cc:217-228 | deleting the empty base and writing to the empty path leaves a base that is a regular file |
| `Outcomes.CreateReports` | src/storage.cc:243-287 | in every well-formed tree creating a file or directory succeeds if and only if the directory for it is there, and then makes it unless something has the name; otherwise the code says whether a file is in the way |
| `Outcomes.SaveReports` | src/storage.cc:338-414 | a write or append succeeds if and only if the directory is there and no directory has the name; status, code and resulting tree in every case |
| `Outcomes.DeleteFileReports` | src/storage.cc:443-465 | deleting a file succeeds, also if there is none, if and only if no directory has the name and no file is in the way; codes and tree |
| `Outcomes.DeleteDirReports` | src/storage.cc:467-487 | deleting a directory succeeds, also if there is none, unless it is occupied, named through a last ".", a file, or below a file; codes and tree |
| `Outcomes.RenameReports` | src/storage.cc:416-441 | when a rename succeeds, if and only if, and the code of every failure |
| `Outcomes.OthersReport` | src/state_machine.cc:312-366 | a refused path, a read in the log and an unknown type change nothing; what each reports |
| `Outcomes.ReadReports` | src/storage.cc:289-336 | what reading returns, by what is at the path, a file in the way, and the limit of a hundred mebibytes |
| `Commands.RunAppend` | src/state_machine.cc:268-310 | applying a log in two parts gives the tree and the statuses of applying it whole |
| `DiskModel.ViewDiskCall` | src/storage.cc:243-487 | seen without inodes, a call on the disk is the call on the tree, with a rewritten file emptied; names keep distinct allocated inodes |
| `DiskModel.ViewRename` | src/storage.cc:430-441 | a rename on the disk has the result and the error of the rename on the tree |
| `DiskModel.CallKeepsInodes` | src/storage.cc:243-487 | no call makes two names share an inode or a name lead to an unallocated one |
| `DiskModel.OpenedForWriting` | src/storage.cc:346-353 | a successful open for writing leads to a file to which writing the buffer would complete the command |
| `DiskModel.ChunkWritten` | src/storage.cc:355-365 | one short write at the end of the file extends exactly that file by exactly that piece |
| `Locks.FileLocker.TryLockRead` | src/storage.cc:95-116 | if the table held exactly the guards alive it still does; the lock is granted if and only if no write guard of the path is alive, and then one read guard more is |
| `Locks.FileLocker.TryLockWrite` | src/storage.cc:136-157 | if the table held exactly the guards alive it still does; the lock is granted if and only if no guard of the path is alive, and then one write guard is |
| `Locks.FileLocker.ReleaseRead` | src/storage.cc:118-134 | dropping a read guard that is alive notifies and keeps the table exact; dropping one of a path that nobody holds changes nothing and does not notify |
| `Locks.FileLocker.ReleaseWrite` | src/storage.cc:159-170 | dropping the write guard that is alive notifies and keeps the table exact; dropping one of a path that nobody holds changes nothing and does not notify |
| `Locks.AdmissionIsExact` | src/storage.cc:98-156 | a table that represents the guards admits a reader exactly when no writer is in, and a writer exactly when there is no entry; so the branch for an idle entry is dead |
| `Locks.ReadLocked` | src/storage.cc:101-111 | acquiring for reading keeps table and guards in agreement |
| `Locks.WriteLocked` | src/storage.cc:142-152 | acquiring for writing keeps table and guards in agreement |
| `Locks.ReadUnlocked` | src/storage.cc:118-134 | dropping a live read guard finds its entry and keeps the agreement |
| `Locks.WriteUnlocked` | src/storage.cc:159-170 | dropping a live write guard finds its entry and keeps the agreement |
| `Locks.LockingOnlyRefuses` | src/storage.cc:95-157 | acquiring a lock never enables an acquisition that was refused, so only unlocks need to notify |
| `EngineLocks.StepIsSound` | src/storage.cc:95-188 | every step of every thread keeps the table exact, loses no wake-up of a reader, the applier or a closure waiter, and gives a closure only its own entry's status or Raft's error |
| `EngineLocks.ReaderLocks` | src/storage.cc:95-116 | the same for a reader's attempt to lock, whether it is granted or goes to sleep |
| `EngineLocks.ApplierUnlocks` | src/storage.cc:159-170 | the same for releasing a write guard and notifying all |
| `EngineEffects.StepEffects` | src/storage.cc:338-441 | every step keeps the disk equal to the tree after a whole number of commands, apart from the one file a write has reached, whose missing bytes are the rest of the buffer |
| `EngineEffects.RunsAreGood` | src/storage.cc:95-487 | both invariants hold in every reachable state |
| `EngineEffects.LockTableRefines` | src/storage.cc:95-188 | in every reachable state a path has an entry exactly if a guard holds it, the count is the number of read guards, the flag means exactly one write guard, and readers never coexist with a writer |
| `EngineEffects.UnlocksFindTheirEntry` | src/storage.cc:118-170 | no reachable unlock logs the "non-existent lock" warning |
| `EngineEffects.SleepersHaveReason` | src/storage.cc:98-169 | in every reachable state a thread asleep and not notified waits for a lock it could not get or a closure that has not run |
| `EngineEffects.ReplicasAgree` | src/state_machine.cc:268-366 | two nodes with the same start and log, under any two schedules with any readers, short writes and wake-ups, give the same statuses to all entries both completed, and equal trees at equal positions |
| `EngineAtomicity.CanonicalPathsSuffice` | src/storage.cc:217-251 | canonical paths, and no rename of what is then a directory above the path being read, rule out every clash for that path; in particular renames of files are harmless |
| `EngineGuards.ReaderKeepsOut` | src/storage.cc:243-465 | in every reachable state, while a reader is inside `read_file` on a raw path, no create, write, append or delete of a file under that raw path makes its system call or writes a byte, nor does a rename from it or to it |
| `EngineGuards.ApplierWaitsExactly` | src/storage.cc:243-487 | in every reachable state between commands: a command on a file goes ahead if and only if no reader is inside on its raw path; a rename takes the old path and then the new one, and keeps readers of the old path out from the first; directory commands and refused ones wait for nobody |
| `EngineAtomicity.GuardsExclude` | src/storage.cc:295-346 | while a reader holds its guard, no lock key of the command in progress equals the reader's |
| `EngineAtomicity.RenameCarries` | src/storage.cc:430-436 | after a rename a named inode is where it was, or the rename carried it there as a file or inside a directory |
| `EngineAtomicity.OnlyWritesTruncate` | src/storage.cc:346-386 | a system call changes the bytes of an inode only if it is a truncating open of a path that denotes it |
| `EngineAtomicity.StepIsAtomic` | src/storage.cc:289-441 | every step keeps what a reader without a clash has open equal to its file after one whole number of commands, wherever renames have carried it and whatever the other readers do |
| `EngineAtomicity.RunsAreAtomic` | src/storage.cc:289-441 | so does every run |
| `EngineAtomicity.ReadsAreAtomic` | src/storage.cc:289-441 | for a reader whose own path has no clash, whatever `read_file` returned (bytes, missing, too large, invalid) is what reading returns after some whole number of commands between those complete at the call and those begun at the return |
| `EngineTorn.AliasedKeysTearReads` | src/storage.cc:289-375 | for every disk that holds a file under two different accepted raw paths, and every byte that is not all it holds, a run in which reading one path while the other is overwritten returns that byte, which no prefix of the log explains |
| `EngineTorn.DirectoryRenamesTearReads` | src/storage.cc:289-441 | for every disk that holds a file, every rename of a directory above it that succeeds, and every accepted raw path of the file's new place, a run in which a read of the old path is explained by no prefix of the log |
| `Skeleton.RenameSkel` | src/storage.cc:430-436 | in the smallest tree with one file, with the directories above the new name made, a rename succeeds and leaves the smallest tree of the new place with the directories left behind |
| `Skeleton.FollowsChain` | src/storage.cc:267-487 | for every chain of renames that can carry a file there is a log of those renames and of directory commands that carries it, and touches no lock of the reader |
| `EngineExact.MeetingTears` | src/storage.cc:289-441 | for every read path, written path and chain of renames that brings the file from one to the other, a run in which the read is torn |
| `EngineExact.AtomicExactly` | src/storage.cc:289-441 | for every read path and every set of written paths and renames: every read of the path, in every run with any other readers, is atomic if and only if no chain of the renames brings its file to another written path past the reader's lock |
| `EngineExact.AtomicSetExactly` | src/storage.cc:289-441 | for every set of read paths: all are always atomic if and only if none of them meets a written path |
| `EngineExact.AtomicWithoutRenames` | src/storage.cc:289-375 | without renames: if and only if no other accepted raw path that is written denotes the file |
| `EngineProgress.SomeStepIsEnabled` | src/storage.cc:95-170 | every reachable state with unfinished work has an enabled step that is not noise, unless the applier waits for its own lock |
| `EngineProgress.StepMeasured` | src/storage.cc:289-441 | every step but noise lowers a natural-number measure, and noise raises it by at most one |
| `EngineProgress.RunsAreBounded` | src/storage.cc:289-441 | the length of every run is bounded by its initial state and the noise in it |
| `EngineProgress.SelfLockIsForever` | src/storage.cc:427-428 | an applier that waits for its own lock stays there in every continuation |
| `EngineProgress.MaximalRunsFinish` | src/storage.cc:416-428 | a run that cannot continue but with noise has finished everything if and only if the log holds no accepted rename of a raw path to itself, and otherwise the applier waits for its own lock |
| `EngineProgress.RunsExtend` | src/storage.cc:95-170 | every run can be continued to one that can only continue with noise |
| `EngineProgress.EveryRunEnds` | src/storage.cc:416-428 | every run extends to one that has finished everything, if no accepted rename takes a raw path to itself, and otherwise to one in which the applier waits for its own lock |
| `EngineProgress.SelfRenameStopsApplier` | src/storage.cc:427-428 | every log with such a rename has a run to a state from which the applier never moves again |
| `Storage.Store.Perform` | src/storage.cc:243-487 | create, delete and rename of files and directories: validation, one system call and the error mapping have the tree and status of the atomic command |
| `Storage.Store.WriteAll` | src/storage.cc:355-365 | under every pattern of short writes and EINTR the file gains exactly the buffer and nothing else changes |
| `Storage.Store.Save` | src/storage.cc:338-414 | write and append, under every such pattern, have the tree and status of the atomic command |
| `Storage.ReadAll` | src/storage.cc:318-333 | the short-read loop returns the file's bytes under every pattern |
| `Storage.Store.ReadFile` | src/storage.cc:289-336 | returns the bytes, the lookup error, or the I/O error for directories and files above 100 MB |
| `Storage.ReadBackAfterSave` | src/storage.cc:289-414 | after a successful write a read returns the buffer, after a successful append the old contents and the buffer, up to the size limit |
| `Replica.Machine.ApplyCommand` | src/state_machine.cc:312-366 | each command type has the tree and status of its storage operation; reads change nothing and succeed; unknown types fail |
| `Replica.Machine.ApplyEntry` | src/state_machine.cc:273-308 | an entry acts as the command it decodes to; one that is too large or does not decode changes nothing and fails |
| `Replica.Machine.OnApply` | src/state_machine.cc:268-310 | a batch moves the tree by exactly its entries, and each closure gets the status of its own entry |
| `Replica.EntriesMean` | src/state_machine.cc:268-308 | an entry longer than a hundred mebibytes or that does not decode fails and changes nothing; any other is executed as the command it decodes to |
| `Replica.BatchesRunTheLog` | src/state_machine.cc:268-310 | any split into batches gives the tree and the statuses of the undivided log |
| `Replica.BatchingIsInvisible` | src/state_machine.cc:268-366 | nodes fed prefixes of the same payloads, in any batches and with any closures, give common entries the same statuses and equal numbers of entries the same tree |
| `Cluster.StepKeepsRight` | src/state_machine.cc:161-366 | every step, crashes and restarts included, keeps entries tied to one request each, every calm node on the tree of its prefix once caught up, and answers tied to a position |
| `Cluster.RunsAreRight` | src/state_machine.cc:161-366 | so does every run |
| `Cluster.AcknowledgedWritesHold` | src/state_machine.cc:161-212 | a request answered with success is one of the seven mutating commands and stands at exactly one committed position as that command; it was applied there with an ok result if the answering node was calm when it applied it, and every calm node past it reflects it, where calm means not restarted or with entries that may be replayed |
| `Cluster.NodeReflects` | src/state_machine.cc:268-310 | the tree of a calm node past a position, once it has caught up with itself, is that entry's outcome followed by the later entries |
| `Admission.AdmissionExactly` | src/state_machine.cc:161-194 | a command dispatched at any point of any run is proposed if and only if it is one of the seven mutating kinds, its node leads at that moment and it packs to at most a hundred mebibytes; otherwise it stands at no position and is never answered with success in any continuation; reads are served locally, all else refused |
| `Admission.LeadersWereTold` | src/state_machine.cc:372-380 | in every run a node leads if and only if it was made leader and neither restarted nor stopped leading since |
| `Admission.AcknowledgedAtHome` | src/state_machine.cc:161-212 | the node that acknowledged a write has applied it, and reflects it if it is calm |
| `Admission.ErrorMayStillCommit` | src/state_machine.cc:196-212 | every proposal that is not committed yet can be answered with an error and be committed after |
| `ClusterExact.AcksHoldExactly` | src/state_machine.cc:161-421 | for every set of command kinds: in every run with restarts at any moment every acknowledged write stands at one position, succeeded there and is reflected by every node that ever applied it, if and only if the mutating kinds of the set may be replayed |
| `ClusterExact.HarmIsRun` | src/state_machine.cc:407-421 | every log that replay harms is a run: served and answered, the node restarted, all entries applied again |
| `NodeEngine.EngineIsNode` | src/state_machine.cc:268-366 | between entries the step system's disk shows the tree of any calm node that has applied as many, and it has given each entry the status of the cluster |
| `NodeEngine.ReadsSeeAPrefix` | src/state_machine.cc:214-249 | a read, of a path without a clash, served by an engine that executes a prefix of the committed log returned what the tree after some shorter prefix shows, between the entries complete at the call and those begun at the return |
| `NodeEngine.DiskShowsCrash` | src/storage.cc:338-414 | at every moment of every run the disk shows a tree between entries, or the outcome of the entry in hand, or that outcome with the end of the buffer missing |
| `NodeEngine.CrashedEngineReplays` | src/state_machine.cc:407-421 | a process that ended at any moment of any run, inside a write included, and is fed a log of replayable commands again from any entry it had completed ends in the tree of one clean run |
| `Histories.PlainExec` | src/storage.cc:243-465 | a file command replaces the file it can reach by its next contents and otherwise changes nothing |
| `Histories.PlainRun` | src/state_machine.cc:312-366 | a log without directory commands and renames keeps the directories and acts on each file by a fold of the entries that reach it |
| `Histories.ScanIsFold` | src/storage.cc:338-465 | the forward fold equals a scan from the end that stops at the last reset |
| `Histories.ContentsAreLastResetPlusAppends` | src/storage.cc:338-465 | the bytes at a path are those of its last reset followed by all later appends in order |
| `Replay.ReplayIsHarmless` | src/state_machine.cc:407-421 | logs of creates, writes and deletes of files may be replayed from any earlier entry after a crash between entries or inside one |
| `Replay.RestartIsHarmless` | src/state_machine.cc:407-421 | for such logs, a replay that was cut short may begin anew at any earlier entry and still ends in the tree of one clean run |
| `Replay.CrashIsHarmless` | src/state_machine.cc:407-421 | the same when the replay was cut short inside an entry, with part of a buffer written |
| `Replay.AppendsDoNotRepeat` | src/storage.cc:377-414 | a log of one append that replay applies twice |
| `Replay.MkdirsDoNotRepeat` | src/storage.cc:267-287 | a log of directory creations that replay changes |
| `Replay.RmdirsDoNotRepeat` | src/storage.cc:467-487 | a log of directory removals that replay changes |
| `Replay.RenamesDoNotRepeat` | src/storage.cc:416-441 | a log of renames after which replay loses a file |
| `Replay.ReplaySafeExactly` | src/state_machine.cc:407-421 | a set of command kinds survives every crash, inside an entry or between entries, and replay if and only if it holds no append, no directory command and no rename |
| `Commutation.FileCommandIsLocal` | src/storage.cc:243-465 | status and effect of a file command depend on its path and the directories above it only |
| `Commutation.FileCommandFrame` | src/storage.cc:243-465 | a file command leaves every other path unchanged |
| `Commutation.FileCommandsCommute` | src/storage.cc:243-465 | file commands on paths neither of which lies above the other commute, in the tree and in both statuses |
| `Framing.HeaderRoundTrip` | src/rpc.cc:15-49 | encoding and decoding a length keep its low 32 bits |
| `Framing.HeaderIsBigEndian` | src/rpc.cc:47-49 | the header's bytes are the digits of the length in base 256, the highest first |
| `Framing.ParseExactly` | src/rpc.cc:9-39 | a message is read if and only if the stream begins with its big-endian length, between 1 and a hundred mebibytes, and then the message; a length out of that range is refused |
| `Framing.FrameDecodesExactly` | src/rpc.cc:9-56 | a frame decodes to its own message if and only if its size is between 1 and 100 MB |
| `Framing.FrameThenRest` | client/cpp/src/rpc.cc:72-89 | what the receiver makes of any frame, including one whose length lost its upper bits |
| `Framing.PartOfFrame` | src/rpc.cc:25-29 | a frame cut short is never taken for a message |
| `Framing.StreamRoundTrip` | src/rpc.cc:9-56 | a stream of frames cut after any number of bytes yields exactly the messages complete by then |
| `Tcp.TcpConnection.Send` | src/tcp.cc:37-69 | everything is sent in order, or a prefix and the connection is marked closed; without errors it succeeds under every chunking |
| `Tcp.TcpConnection.ReceiveExact` | src/tcp.cc:105-137 | the next bytes of the stream, exactly as many as asked, or a connection marked closed; without errors it fails only at the end of the stream |
| `Tcp.TcpConnection.SendMessage` | src/rpc.cc:41-56 | one whole frame within the limit: four bytes with the length, highest first, and the message; or a prefix of a frame |
| `Tcp.TcpConnection.ReceiveMessage` | src/rpc.cc:9-39 | the message that the stream starts with and nothing beyond it; without errors it succeeds exactly if there is one |
| `Tcp.TcpConnection.ReceiveAll` | src/rpc.cc:99-115 | receiving until the first failure gives complete leading messages in order, whatever fails, and all of them under every chunking without an error |
| `Tcp.Transmit` | src/rpc.cc:9-56 | messages sent and received under any two chunkings arrive as the same sequence |
| `Session.StepStaysRight` | client/cpp/src/rpc.cc:91-136 | every client, server and channel step keeps requests, handled requests and responses in step on every connection |
| `Session.RunsStayRight` | src/rpc.cc:99-152 | so does every run, with timeouts, torn frames, reconnections and server-side closes |
| `Session.ResponsesAnswerTheirCall` | client/cpp/src/rpc.cc:91-136 | a server response that `send_command` returned was produced for that call, from that call's command |
| `Session.CallsAskAtMostOnce` | client/cpp/src/rpc.cc:91-136 | in every run no call puts two request frames on the wire, over all connections |
| `Session.HandledWereAsked` | src/rpc.cc:99-152 | with lengths that survive the header, the server dispatches no more requests than were sent |
| `Session.ClientHolds` | client/cpp/src/rpc.cc:91-136 | in every run, whatever the server sends: only the call in progress is without an outcome, a call that failed has dropped its connection, and there is at most one connection more than there were failed calls and disconnects |
| `Session.ServerLoopHolds` | src/rpc.cc:99-152 | in every run, whatever arrives: a request that does not decode is the last one its connection serves; responses are written in the order of the requests, one each, none above a hundred mebibytes |
| `Session.AmbiguousRequestsMispair` | client/cpp/src/rpc.cc:72-89 | every command outside the length condition has a run in which its call returns a response that the server did not produce for it |
| `Session.PairingExactly` | client/cpp/src/rpc.cc:72-136 | for every set of commands: every run pairs responses with calls if and only if each command packs to a length that survives its 32-bit header or is refused by it |
| `EndToEnd.SuccessfulCallsHold` | client/cpp/src/rpc.cc:91-136 | a `send_command` that returned success for a mutating command has exactly one request in the cluster, which stands at exactly one committed position as that command, was applied there with an ok result if the answering node was calm then, and is reflected by every calm node past it |
| `EndToEnd.ResponsesAreHonest` | src/rpc.cc:117-184 | a mutating call that returned a server response was dispatched with its own command, and the response is success if and only if the cluster answered that request with success |
| `EndToEnd.UnknownCallsFail` | src/rpc.cc:165-174 | a call of a type that no command has never returns success |
| `EndToEnd.OneRequest` | src/rpc.cc:117-184 | no call has two requests in the cluster, requests that are in work or that nobody waits for any more included |
| `EndToEnd.OnePosition` | client/cpp/src/rpc.cc:91-136 | in every run, with no hypothesis on codec or lengths, a call stands at no more than one committed position, whatever it returned |
| `EndToEnd.RequestsAreOfCalls` | src/rpc.cc:117-174 | every request that the server dispatched from a connection is of a call and carries that call's command, from the dispatch on |
| `EndToEnd.PositionIsTheCall` | src/rpc.cc:117-174 | the committed entry at which a call stands is the call's own command |
| `EndToEnd.NetLeavesServer` | src/rpc.cc:117-152 | while a request is in work, nothing that the client and the channel do changes which frame it was or what had been handled before |
| `EndToEnd.CallsStandApart` | src/rpc.cc:117-184 | no two calls share a request, and so no two share a position |
| `EndToEnd.ReadCallsSeeAPrefix` | client/cpp/src/rpc.cc:91-136 | a `read_file` call whose path the servers answer from prefixes of the log, as `NodeEngine.ReadsSeeAPrefix` proves of paths without a clash, returns what some prefix of the committed log shows there |
| `Packing.CodecQualifies` | commands/diarkis/commands.h:12-46 | there is a packed form of commands that loses nothing and keeps small mutating commands within a log entry |
| `Packing.WireQualifies` | commands/diarkis/commands.h:12-57 | there is a packed form of commands and responses that loses nothing and marks its own end |
| `Packing.ExactAnswersHold` | commands/diarkis/commands.h:12-57 | for that packed form the exact answers on acknowledged writes and on pairing hold with no hypothesis left |
| `Packing.AmbiguousCommandExists` | client/cpp/src/rpc.cc:72-89 | and in it a write of 2^31 bytes to any path of at most 4096 characters breaks the pairing |

## Left out

- Raft (election, replication, braft and brpc setup): library code; only the committed log and the completion of closures are modelled.
- MessagePack: library code; kept as an abstract pair of functions with an assumed round trip, which a packed form of this project's own shows to be satisfiable.
- Snapshot contents: both hooks are empty, so only the absence of a restored state matters.
- The leader callbacks as methods: the flag is part of `Cluster`, where any step may set it.
- Configuration, flags, logging, signals and `main`: plumbing without behaviour worth a proof.
- Socket creation, accept, timeouts and the bookkeeping of `TcpServer`: a timeout is a receive that fails at any time.
- Error message texts: error codes only.
- `list_directory`: a sequence of `readdir` and `stat` calls without a lock, whose overlap with commands POSIX leaves open; no claim about listings is made.
- Fairness: new readers are admitted while a writer waits, so a writer may starve; only the existence of enabled steps and the length of runs are claimed.
- Storage.Store.Perform: does not model the locks, because mutual exclusion is the subject of the step system; so a rename of a raw path to itself returns here, while in the source it waits for its own lock forever (`SelfRenameStopsApplier`).
- Responses to reads in `EndToEnd`: free unless `ReadsAnswered` is taken of the run, because a read of a path with a clash may be torn (`AtomicExactly`); listings are left out.
- `RpcClient` and `RaftClosure` as classes: both are parts of step systems over values, because their properties are about interleavings with the server and with the applier.
- The client's own socket loops (client/cpp/src/tcp.cc): the same loops as the server's without the connected flag; `Tcp` has them once.
- Local I/O failures such as a full disk: a failed write would leave a partial file, and nodes would then differ.
- `Storage::init` and the trimming of the base path: the base is there when the engine starts.
