# Verification model of dkm

dkm is a prototype of a distributed kernel: a patched Linux kernel posts requests to a daemon, `ikcd`,
which hands them to remote hosts, and a second daemon, `csd`, keeps a small hierarchical database of
what each host can do. This project models the stateful parts of that code in Dafny and proves what
they keep over all inputs and all runs. `dafny verify dfyconfig.toml` checks everything.

## What is modelled

* **The database** (`src/csd/csdb.c`). `Csdb.Database` is the program as it is written: entries with
  `next`, `prev`, `parent`, `childs` and `nbrEntries` fields that are changed in place, in the build
  that puts a new child in front of its siblings and in the build that keeps siblings sorted by a
  binary search over a linked list. Its invariant says that the heap is a tree of doubly linked
  sibling lists; its methods are proved against functions on a forest (`Forests`), the forest against
  a map from paths to values (`StoreOps`), and the dump against the loader (`DumpReload`, `RoundTrip`,
  `Reload`, `ReloadRuns`, `ReloadExact`). `StoreLock` adds the mutex to runs of calls. `KeyParser` holds
  the scanner that splits keys at dots.
* **Process ids and user structures** (`src/dkmke/fork.c`). `PidAlloc` is `get_pid` with its cached
  free interval; `PidRuns` puts it into runs of tasks that fork, sleep in a fork, fail, exit and
  change groups. `UidHash` is the hash of user structures with its back pointers; `UidRuns` lets any
  number of tasks take, copy and drop references, with `alloc_uid` split where it sleeps; `UidTable`
  shows that each of those steps is an operation of the hash.
* **The request protocol** (`src/dkmke/dkmctl.c`, `src/ikcd/ikcd.c`). `DkmKernel` has the commands of
  `do_dkmctl`; `DkmProtocol` interleaves kernel tasks, the daemon's signal loop and drain, and its
  workers as atomic steps; `DkmInvariant` proves one invariant of all of them, `DkmTheorems` what
  follows from it, `DkmExecve` what one call of `dkm_execve` has done when it returns, and `DkmServed` is
  a run in which one is served.
* **The argument image** (`src/dkmke/exec.c`). `ArgImage` copies strings downward into pages that are
  allocated as they are reached, and walks up again across page ends to drop the first one.
* **The daemon's queue, backlog and numbers** (`src/ikcd/ikcq.c`, `ikcbl.c`, `ikcr.c`): `IkcQueue`,
  `IkcBacklog`, `IkcDedup`, `IkcNumbers`, `IkcThreads`.
* **The packets** (`src/csd/csp.c`, `src/ikcd/ikcp.c`): `CspWire`, `IkcpWire`, over `Bytes`.

## Where the code does not do what it seems to promise

The model follows the code. Each of these is a lemma with the exact condition, and a concrete run or
input where one is needed.

* A key that does not begin with a dot but contains one makes the scanner loop for ever
  (`KeyParser.ScanEndsIffDotFirst`).
* A reload gives back all leaves, and no others, if and only if every leaf has names without dot, '=' and
  newline, the last of them not empty, and a value without newline (`ReloadExact.KeepsLeavesIff`, and
  `ReloadRuns.ReloadAfterAnyRunIff` for what calls can build). The key `.a=b`, which
  `csdb_is_valid_key` accepts, comes back as `.a` (`ReloadExact.EqualsSignIsLost`); the key `..`, which
  it does not accept, comes back as the root (`ReloadExact.EmptyNameIsLost`). For the same reason the
  printed key of an entry with an empty name finds its parent (`Csdb.Database.PrintedKeyNames`).
* `get_pid` can return the id of a live task: its result is unused if and only if the call did not take
  the fast path onto an id in use (`PidAlloc.GotIsFreeIff`, `PidRuns.NewIdIsUnusedIff`). The cached
  interval that the fast path trusts is lost exactly when a child is linked inside it
  (`PidRuns.StepKeepsWindowIff`), which a fork that sleeps through a round of the counter does
  (`PidRuns.GetPidReturnsALivePid`). Live tasks have distinct pids as long as, and only as long as, no
  child is linked while a task has its pid (`PidRuns.PidsStayDistinctIff`); such a fork can do that, too
  (`PidRuns.LateChildSharesItsPid`). When every candidate is used, the search repeats for ever
  (`PidAlloc.ScanEndsIff`, `PidAlloc.SomeFreeIff`).
* `csdb_get_value_for_key` returns with the mutex held when it finds no value, so all calls of a run
  return if and only if no call that needs the mutex follows such a one (`StoreLock.AllReturnIff`);
  looking up a missing key twice is enough (`StoreLock.SecondMissBlocks`).
* The daemon can sleep through a signal that is delivered outside `sigsuspend` before SIGUSR2 has been
  blocked, be it before the first wait or between a test of the flag that fails and the next wait
  (`DkmTheorems.ForgottenOnlyByEarlySignal`, `DkmTheorems.EarlySignalForgets`).
* `do_execve` tests only for a negative `p`. When the strings copied so far fill the space to the last
  byte, what remains to be copied is dropped without an error (`ArgImage.ImageFitsIff`,
  `ArgImage.ArgumentsCanBeDropped`).
* `ikcbl_remove_request` leaves the list head at the removed element if that was the first one. Its
  only caller passes the number of a request that is not in the list, so nothing is ever evicted, and
  the head stays sound (`IkcBacklog.Backlog.RemoveRequest`, `IkcBacklog.Backlog.Serve`,
  `IkcDedup.BacklogOnlyGrows`).
* The out worker counts to 1024 although an id has ten bits for the count, so the requests of a thread
  collide from the 1025th on. The remote daemon executes a request if and only if none that collides
  with it has come before: of a thread whose requests all arrive in order, the first 1024 only
  (`IkcNumbers.SameIdIff`, `IkcThreads.ExecutedIffNoneCollided`,
  `IkcThreads.ExecutedIffAmongTheFirst1024`).
* A SET request with an empty value is unpacked from stale bytes, and with an empty key the value is
  taken for the key (`CspWire.EmptyValueIff`, `CspWire.EmptyKeyTakesTheValue`, and all cases in
  `CspWire.SetComesOutIff`).

## Model

| member | source | states |
|---|---|---|
| KeyParser.ScanEndsIffDotFirst | src/csd/csdb.c:206-234 | The state machine of csdb_parse_key reaches the end of a non-empty key if and only if the key begins with a dot |
| KeyParser.StuckOffADot | src/csd/csdb.c:206-234 | On any other key no number of rounds changes the state of the scanner |
| KeyParser.ProgressOnADot | src/csd/csdb.c:206-234 | After n rounds on a key that begins with a dot, twice the position plus the token bit is at least n or the key is used up |
| KeyParser.CountDots | src/csd/csdb.c:157-173 | csdb_check_key counts how often the dot is among the characters of the key |
| KeyParser.ParseKey | src/csd/csdb.c:179-236 | NULL without a dot, "." for the root, otherwise the split of the key at its dots, with no more parts than dots, so no slot beyond the allocated ones is written |
| KeyParser.ScanLoop | src/csd/csdb.c:205-235 | The moving-pointer loop fills the first slots with the parts in order and leaves the others alone, and ends |
| KeyParser.PartsAtMostDots | src/csd/csdb.c:191-203 | A key has at most as many parts as dots, which is what the slots are allocated for |
| KeyParser.ParseOfPrint | src/csd/csdb.c:179-236 | Parsing the printed form of a path gives the path, if its last name is not empty, and the printed form is a valid key |
| KeyParser.PrintOfParse | src/csd/csdb.c:371-381 | Printing the parts of a key gives the key back if and only if it does not end in a dot; otherwise exactly that dot is lost |
| KeyParser.ValidKeyIff | src/csd/csdb.c:138-150 | csdb_is_valid_key accepts a key if and only if it is "." or the printed form of a path whose last name is not empty |
| CString.LessIff | src/csd/csdb.c:94-128 | One name is below another under strcmp if and only if, at the first place where they differ, it ends or has the smaller character |
| ForestMap.SetLookup | src/csd/csdb.c:779-812 | After a set, a path exists if it did before or is a prefix of the key; only the key's value changes and new prefixes have none |
| ForestMap.RemoveLookup | src/csd/csdb.c:282-318 | After a removal exactly the paths with the given one as a prefix are gone, and all other values are as before |
| ForestMap.SetKeepsWellFormed | src/csd/csdb.c:581-656 | Names stay distinct, and in the sorted build strictly increasing, in every sibling list |
| ForestMap.RemoveKeepsWellFormed | src/csd/csdb.c:298-308 | The same for removals |
| StoreOps.StepAgrees | src/csd/csdb.c:282-318 | Each of get, set, append and remove acts on the forest as the corresponding step acts on a map from part sequences to values, with the same return code and value |
| StoreOps.RunsAgree | src/csd/csdb.c:415-812 | Over every run of calls that return, the database answers as the map does, and still agrees with it afterwards |
| StoreOps.BuildsAnswerAlike | src/csd/csdb.c:66-132 | The linear and the sorted build give the same answers to every run of calls that return |
| StoreLock.AllReturnIff | src/csd/csdb.c:415-447 | With the mutex, what returns is answered as without it, and every call of a run returns if and only if no call that locks comes after a get that failed with the mutex held |
| StoreLock.SecondMissBlocks | src/csd/csdb.c:427-437 | The second look-up of a missing key never returns |
| StoreLock.BlockedIff | src/csd/csdb.c:282-290 | Which calls block while the mutex is held, in terms of their keys |
| StoreLock.SecondCallBlocksIff | src/csd/csdb.c:422-446 | Of two calls the second blocks if and only if the first is a get, of a key that names an entry, under which there is no value, and the second locks |
| EntryGraph.TopWellFormed | src/csd/csdb.c:581-656 | The tree of linked entries stands for a forest whose sibling names are distinct, and increasing under strcmp in the sorted build |
| EntryGraph.EntryInForest | src/csd/csdb.c:257-276 | Every entry of a linked tree is found in the forest at the path its parent pointers spell, with its value and children |
| EntryGraph.ChildInForest | src/csd/csdb.c:66-132 | A path one longer exists if and only if the entry has a child of that name |
| GraphEdits.LinkAdds | src/csd/csdb.c:581-656 | Linking a new entry into a tree keeps it a tree and adds exactly that entry at that path |
| GraphEdits.AssignPuts | src/csd/csdb.c:535-555 | Setting an entry's value sets it at the entry's path and nowhere else |
| GraphUnlink.UnlinkRemoves | src/csd/csdb.c:298-308 | Unlinking an entry keeps a tree and removes exactly what is at or below its path |
| GraphUnlink.PathIsUnique | src/csd/csdb.c:257-276 | Two entries of a tree never have the same path |
| Csdb.Database.constructor | src/csd/csdb.c:818-826 | csdb_init makes an empty database with a root |
| Csdb.Database.Seek | src/csd/csdb.c:563-576 | Never NULL on a non-empty list: the entry so many hops on, or the last one if there are fewer |
| Csdb.Database.FindLinear | src/csd/csdb.c:68-92 | The child with this name, or NULL if there is none |
| Csdb.Database.Bisect | src/csd/csdb.c:94-128 | The goto search over the linked list finds the child if there is one; its upper bound never passes below zero; otherwise it stops at the one place where the name belongs |
| Csdb.Database.FindChild | src/csd/csdb.c:66-132 | The fast search returns the same entry as the simple one |
| Csdb.Database.AppendChild | src/csd/csdb.c:581-656 | The new child is linked in front, or at the place that keeps the names increasing, with all four kinds of pointers and the count right |
| Csdb.Database.AssignValue | src/csd/csdb.c:535-555 | The entry becomes a leaf with this value and the rest of the heap graph is as it was |
| Csdb.Database.GetEntry | src/csd/csdb.c:257-276 | The entry at the path of the key, or NULL exactly if that path does not exist |
| Csdb.Database.SetValueForKey | src/csd/csdb.c:779-812 | The whole new contents and the return code, as a function of the old contents and the key, over the linked heap |
| Csdb.Database.GetValueForKey | src/csd/csdb.c:415-447 | The value, or the code for an invalid key, a missing entry or an entry without a value |
| Csdb.Database.AppendValueForKey | src/csd/csdb.c:736-773 | The old value, the separator and the new value joined; an error and no change if there is nothing to append to |
| Csdb.Database.RemoveFromKey | src/csd/csdb.c:282-318 | The contents without what is at or below the key, or an error code and no change |
| Csdb.Database.ListParentsNames | src/csd/csdb.c:371-381 | The printed form of the entry's path |
| Csdb.Database.PrintedKeyNames | src/csd/csdb.c:371-381 | In every database that calls built, looking up what is printed for an entry finds that entry, if its name is not empty, and its parent otherwise |
| Csdb.Database.DumpFromEntry | src/csd/csdb.c:387-408 | One line per leaf at or below the given siblings, in list order, each entry before what hangs below it |
| Csdb.Database.DumpFromKey | src/csd/csdb.c:350-365 | The dump of what lies below the key's path |
| Csdb.Database.ReadDb | src/csd/csc.c:218-254 | The contents after setting what each line of the file says, in order |
| DumpReload.DumpIsLines | src/csd/csdb.c:387-408 | A dump is the sequence of the lines of all leaves, each with its full path |
| DumpReload.LoadOfLines | src/csd/csc.c:236-249 | Loading such lines sets every leaf at the path its line parses to |
| DumpReload.LineWithEquals | src/csd/csc.c:236-249 | A line with '=' sets what stands in front of the first one to what stands behind it |
| DumpReload.LineWithoutEquals | src/csd/csc.c:240-243 | A line without '=' changes nothing |
| RoundTrip.Rebuild | src/csd/csdb.c:592-656 | Setting all leaves of a forest in dump order rebuilds it without its barren branches: in the same order in the sorted build, mirrored at every level in the linear one |
| Reload.ReloadOfDump | src/csd/csc.c:218-254 | Loading the dump of "." into a fresh database gives exactly the leaves that were dumped |
| Reload.SortedRedump | src/csd/csdb.c:387-408 | In the sorted build the second dump equals the first, byte for byte |
| Reload.LinearRedump | src/csd/csdb.c:592-597 | In the linear build every sibling list comes back reversed and the dump is the first one again after two reloads |
| ReloadRuns.RunKeepsDumpable | src/csd/csdb.c:736-812 | Calls whose names and values hold no '=' or newline keep the database one whose dump can be loaded |
| ReloadRuns.ReloadAfterAnyRun | src/csd/csc.c:218-254 | After any run of such calls from an empty database, dump and load give the same leaves |
| ReloadRuns.ReloadAfterAnyRunIff | src/csd/csc.c:218-254 | After any run of calls whatever, the reload keeps the leaves if and only if a line carries each of them |
| Reload.LeavesAreLeafAt | src/csd/csdb.c:387-408 | The leaves a dump lists are exactly the paths that look up to a value |
| ReloadExact.KeepsLeavesIff | src/csd/csdb.c:371-408 | For every well formed database: the dump can be loaded and gives back the same leaves if and only if each leaf has names without dot, '=' and newline, the last not empty, and a value on one line |
| ReloadExact.LoadClean | src/csd/csc.c:236-249 | Whatever the file says, loading it brings in no leaf with a dot, '=' or newline in a name or a newline in the value |
| ReloadExact.EmptyNameIsLost | src/csd/csdb.c:206-234 | The key ".." makes a leaf with an empty name, and it does not come back |
| ReloadExact.EqualsSignIsLost | src/csd/csdb.c:138-150 | The valid key ".a=b" with value v is reloaded as ".a" with value "b=v" |
| CsdbReload.SaveAndRestore | src/csd/csc.c:201-254 | The same over the linked heap: a second database filled from the dump of the first has its leaves if and only if a line carries each of them, and the first is unchanged |
| PidAlloc.PidAllocator.GetPid | src/dkmke/fork.c:190-231 | Whatever the cached interval says: the result is unused if and only if the call did not take the fast path onto an id in use; while the interval is true it is the first id after last_pid, cyclically and skipping 1..299 after a wrap, that no task uses, and the interval stays true |
| PidAlloc.PidAllocator.Scan | src/dkmke/fork.c:205-227 | When some candidate is free, the repeat loop ends at the first one, with next_safe the least id in use above it |
| PidAlloc.SomeFreeIff | src/dkmke/fork.c:199-227 | Some candidate is free if and only if an id at or above the start, or at or above 300, is unused |
| PidAlloc.ScanEndsIff | src/dkmke/fork.c:205-227 | The repeat loop, turn by turn, reaches its end if and only if some candidate is free |
| PidAlloc.PigeonHole | src/dkmke/fork.c:199-227 | There is one whenever three times the number of tasks is below 0x8000 - 300 |
| PidAlloc.FirstFreeIsUnique | src/dkmke/fork.c:199-227 | The id that get_pid has to find is determined |
| PidAlloc.GotIsFreeIff | src/dkmke/fork.c:190-231 | A new id is in range, and unused if and only if it was not handed out on the fast path while in use |
| PidAlloc.TrueWindowIsEnough | src/dkmke/fork.c:196-227 | While the cached interval is true, the fast path finds what the scan would find, and the interval stays true |
| PidRuns.StepKeepsWindowIff | src/dkmke/fork.c:573-774 | A step of the kernel keeps the cached interval true if and only if it links no child inside it |
| PidRuns.NewIdIsUnusedIff | src/dkmke/fork.c:190-231 | At every point of every run, late links included, the id of the next fork is unused if and only if get_pid does not take its fast path onto an id in use |
| PidRuns.GuardedRunsAreSafe | src/dkmke/fork.c:190-231 | In every run that links no child inside the interval, the interval stays true and each fork gets an id that no task uses |
| PidRuns.FalseWindowHandsOutUsedId | src/dkmke/fork.c:190-231 | Once an id in use lies inside the interval, the run can go on with forks that fail until get_pid returns that id |
| PidRuns.StepKeepsInv | src/dkmke/fork.c:573-774 | Reserving, linking, aborting, exiting and changing groups keep the window and distinct pids, if children are linked in time |
| PidRuns.StepKeepsPidsIff | src/dkmke/fork.c:628-737 | A step keeps the pids of live tasks distinct if and only if it links no child whose pid a task has |
| PidRuns.PidsStayDistinctIff | src/dkmke/fork.c:573-774 | Up to every point of every run pids have been distinct if and only if no such link has happened |
| PidRuns.TimelyRunsAreSafe | src/dkmke/fork.c:190-231 | Over every run in which no reserved id is overtaken, pids stay distinct, each new id is unused, and it differs from those of the same round still in flight |
| PidRuns.LateChildSharesItsPid | src/dkmke/fork.c:628-737 | Without that restriction a run of two forking tasks exists that links two tasks with the same pid |
| PidRuns.GetPidReturnsALivePid | src/dkmke/fork.c:190-231 | And one in which get_pid returns the id of a task that is on the list |
| UidHash.SameBucketIff | src/dkmke/fork.c:60 | Uids with the same high byte share a bucket if and only if they agree modulo 32 |
| UidHash.SmallUids | src/dkmke/fork.c:60 | A uid below 256 is in the bucket of its number modulo 32 |
| UidHash.EqualBytes | src/dkmke/fork.c:60 | A uid with two equal bytes is in the first bucket |
| UidHash.Table.Find | src/dkmke/fork.c:80-99 | The structure of the uid with one more reference, or NULL if there is none |
| UidHash.Table.Insert | src/dkmke/fork.c:65-71 | The structure is in its bucket and every back pointer is right |
| UidHash.Table.Remove | src/dkmke/fork.c:73-78 | The write through the back pointer unlinks exactly this structure, first in its bucket or not |
| UidHash.Table.FreeUid | src/dkmke/fork.c:110-121 | One reference less, and the structure is gone if it was the last |
| UidHash.Table.AddUnlessRaced | src/dkmke/fork.c:139-158 | After the allocation that may sleep there is still one structure for the uid, the new one only if none came in between |
| UidRuns.CountsAreReferences | src/dkmke/fork.c:65-162 | In every run there is at most one structure per uid and its count equals the number of tasks, forks in progress included, that refer to it |
| UidRuns.StepOk | src/dkmke/fork.c:596-606 | Each step of alloc_uid, free_uid and do_fork, failure paths included, keeps that |
| UidTable.StepIsTableOp | src/dkmke/fork.c:65-162 | Each step does to the counts what the find, insert and free of the hash table do to them, and a look-up hits or misses as it does there |
| UidTable.ShownOnce | src/dkmke/fork.c:65-162 | The user structures determine the counts of the table, so there is only one table that runs along |
| UidTable.TableCountsReferences | src/dkmke/fork.c:65-162 | A table that takes part in every step of a run holds, at each point, one count per uid in use, and it is the number of references |
| DkmKernel.DkmState.DoGetReq | src/dkmke/dkmctl.c:37-68 | Hands out the request of the first task on the list that asks, with none before it that does, and changes nothing but the state of that one; -1 twice and the result 1 if and only if nobody asks |
| DkmKernel.DkmState.DoGetArgs | src/dkmke/dkmctl.c:70-92 | The arguments of a request, or -1 if it is not what is posted |
| DkmKernel.DkmState.DoPutResp | src/dkmke/dkmctl.c:94-122 | Stores the node or the remote pid, ends the request and leaves every other field and task alone, or fails without a change |
| DkmKernel.DkmState.DoReqUntilSleep | src/dkmke/dkmctl.c:124-141 | Posts the request and raises the signal, or fails without a change, and when it does which |
| DkmKernel.FirstWantedFinds | src/dkmke/dkmctl.c:40-55 | The scan misses a request only if none is waiting |
| DkmKernel.GetReqTakesFirst | src/dkmke/dkmctl.c:40-55 | What is handed out is the request of the first task that has one, nothing else changes, and it is not found again |
| DkmInvariant.StepOk | src/dkmke/dkmctl.c:18-155 | Every step of a task, of the daemon or of a worker keeps the protocol's invariant |
| DkmTheorems.InvHoldsThroughout | src/ikcd/ikcd.c:262-336 | The invariant holds at every point of every run |
| DkmTheorems.NoLostWakeup | src/ikcd/ikcd.c:453-463 | Once SIGUSR2 has been blocked, while a signalled request waits the signal is pending, the flag is about to be tested, or the drain has not made its empty scan |
| DkmTheorems.ForgottenOnlyByEarlySignal | src/ikcd/ikcd.c:440-463 | Before that, the same fails if and only if a signal was delivered outside sigsuspend, before or between the first waits, and none is pending |
| DkmTheorems.EarlySignalForgets | src/ikcd/ikcd.c:440-463 | A run in which the daemon sleeps with its flag set while a request waits |
| DkmTheorems.SleepersAreUnanswered | src/dkmke/dkmctl.c:142-145 | Whoever sleeps has a request that is pending and unanswered |
| DkmTheorems.RequestsAreConserved | src/ikcd/ikcd.c:162-198 | Each request is handed out at most once and is then in exactly one place, the drain, the queue or a worker, or answered exactly once |
| DkmTheorems.HistoryGrows | src/ikcd/ikcd.c:262-336 | What has been handed out or answered stays so, and request numbers never go back |
| DkmTheorems.HandsOutOnce | src/dkmke/dkmctl.c:37-68 | Every hand-out is of a request never handed out before, of one of the two kinds the daemon knows |
| DkmTheorems.CommandsNeverFail | src/ikcd/ikcd.c:285-320 | DKM_DO_REQ, DKM_GET_ARGS and DKM_PUT_RESP succeed whenever they are reached |
| DkmTheorems.WorkersCarryTheRightRequest | src/ikcd/ikcd.c:300-320 | What a worker holds names the node chosen for its task and that task's file |
| DkmTheorems.LoopEndsAfterOwnAnswer | src/dkmke/dkmctl.c:142-145 | A task leaves its sleep loop only after its own request has been handed out once and answered once |
| DkmTheorems.DrainHasItsSignal | src/ikcd/ikcd.c:453-463 | Before each test of the flag that succeeds a signal was sent and delivered, one for each |
| DkmExecve.CallHasBegun | src/dkmke/dkmctl.c:166-217 | A task inside dkm_execve has a point at which this call began; since then it has kept its file and node and posted as many requests as it counts |
| DkmExecve.ExecveOutcome | src/dkmke/dkmctl.c:166-217 | When dkm_execve returns, nothing is pending, file and own node are those of the call, r_node is what the node server answered during this call when asked about this file, and a second request was posted in this call exactly if that is another node |
| DkmExecve.RemotePidArrives | src/dkmke/dkmctl.c:166-217 | When dkm_execve returns after two posts, r_pid is what a worker answered, during this call, to its second request; after one post it is what it was when the call began |
| DkmServed.ExecveIsServed | src/dkmke/dkmctl.c:166-217 | A run exists in which a task asks twice and is left with the node and the remote pid it was given, and no request, signal or flag is left over |
| ArgImage.CopyFromSucceedsIff | src/dkmke/exec.c:253-295 | copy_strings succeeds if and only if every string can be read and all of them fit, and then moves p by their length |
| ArgImage.CopyFailsAt | src/dkmke/exec.c:262-271 | The error is -EFAULT if the last string that stops the copying cannot be read, and -E2BIG if it can but is too long for what those behind it leave |
| ArgImage.TakePagesIs | src/dkmke/exec.c:280-287 | The pages of a stretch of bytes can be had if and only if no more of them are absent than pages are free; then exactly these are taken, otherwise all that were free, and none is lost |
| ArgImage.CopyInIs | src/dkmke/exec.c:253-295 | Pages are the reason for a failure exactly when they run out, and otherwise the result is that without a limit on pages |
| ArgImage.EnoughPages | src/dkmke/exec.c:280-287 | With 32 free pages they never run out |
| ArgImage.ImageFitsIff | src/dkmke/exec.c:842-847 | When the three calls leave p above zero, and when at zero |
| ArgImage.ArgumentsCanBeDropped | src/dkmke/exec.c:842-847 | An environment that makes do_execve go on without the arguments of the program /a |
| ArgImage.Binprm.CopyString | src/dkmke/exec.c:257-294 | One string lands right below what is held, over as many pages as it takes, and nothing at or above is changed; it fails for want of pages if and only if more of its pages are absent than free |
| ArgImage.Binprm.CopyStrings | src/dkmke/exec.c:243-299 | -EFAULT if the strings that fit lie on more absent pages than are free, and the specified result otherwise; no page is lost; the paged memory then reads as the strings in order, each with its NUL, followed by what was held before |
| ArgImage.Binprm.BuildImage | src/dkmke/exec.c:842-847 | p is the specified result unless pages run out, as they do exactly when the strings that fit lie on more absent pages than are free, and never with 32 free ones; with p above zero the memory holds argv, envp and the file name, in this order, up to the top |
| ArgImage.Binprm.SkipString | src/dkmke/exec.c:715-720 | The scan passes exactly one string and its NUL, wherever pages end |
| ArgImage.Binprm.RemoveArgZero | src/dkmke/exec.c:709-723 | The memory at the new p holds the image without its first argument; without arguments nothing happens |
| IkcQueue.QueueHead.Queue | src/ikcd/ikcq.c:34-63 | The request is appended, or nothing changes without memory; the first node's prev is the last node again |
| IkcQueue.QueueHead.Dequeue | src/ikcd/ikcq.c:68-105 | The first request leaves, or the code for an empty queue |
| IkcQueue.QueueHead.Remove | src/ikcd/ikcq.c:111-146 | The first occurrence of the request leaves |
| IkcQueue.StepIsQueueOp | src/ikcd/ikcq.c:34-146 | On the requests that wait, a step of a run is what the three operations of the queue do to its contents |
| IkcQueue.StepKeepsOrder | src/ikcd/ikcq.c:34-146 | One operation keeps the order in which requests came |
| IkcQueue.FirstInFirstOut | src/ikcd/ikcq.c:34-146 | Over every run of a new queue, the same request put in again included, what was taken followed by what waits goes through the requests in the order they were put in, each once, and leaves out exactly those cancelled |
| IkcBacklog.Backlog.AddRequest | src/ikcd/ikcbl.c:48-71 | The newest entry comes first and all links are right |
| IkcBacklog.Backlog.RemoveRequest | src/ikcd/ikcbl.c:78-103 | The entry leaves the chain, and the list is sound afterwards if and only if it was not the first |
| IkcBacklog.Backlog.TryRespond | src/ikcd/ikcbl.c:109-130 | The recorded answer goes to the address the request now came from, or -1 if the number is unknown |
| IkcBacklog.Backlog.RemoveThreadsLastRequest | src/ikcd/ikcbl.c:136-157 | What leaves is the entry with the number of the new request, if there is one and some entry is of its host or thread; the head stays sound if and only if that was not the first entry |
| IkcBacklog.Backlog.Serve | src/ikcd/ikcd.c:217-224 | The new backlog and the answer, as a function of the old backlog, the number and the result of executing |
| IkcDedup.LogIsFaithful | src/ikcd/ikcd.c:217-224 | After every run the backlog has one entry per number that came, with the pid of its first arrival |
| IkcDedup.ExecutedIffFirst | src/ikcd/ikcd.c:217-224 | A request is executed if and only if its number has not come before |
| IkcDedup.AnswerIsTheFirstOnes | src/ikcd/ikcbl.c:109-130 | Every answer for a number carries the pid of that number's one execution |
| IkcDedup.BacklogOnlyGrows | src/ikcd/ikcbl.c:136-157 | The backlog is as long as the number of executions: nothing is evicted |
| IkcNumbers.UnpackInvertsPack | src/ikcd/ikcr.c:59-145 | Host (low half of the address), thread below 64 and the low ten bits of the sequence number come back out of a number |
| IkcNumbers.NumberIs | src/ikcd/ikcr.c:59-90 | A number is the host times 0x10000, plus the thread times 0x400, plus the low ten bits of the sequence number |
| IkcNumbers.PackInvertsUnpack | src/ikcd/ikcr.c:59-145 | Every number is the packing of its unpacked parts |
| IkcNumbers.IdComesBack | src/ikcd/ikcr.c:95-103 | The id a request travels with comes back out of its number |
| IkcNumbers.SameNumberIff | src/ikcd/ikcr.c:59-90 | Two numbers are equal if and only if these three parts agree |
| IkcNumbers.SeqOfIs | src/ikcd/ikcd.c:174-190 | The i-th request of a worker has the sequence number i mod 1025 |
| IkcNumbers.SameIdIff | src/ikcd/ikcd.c:183-190 | Two requests of a thread get the same id if and only if their places in the cycle of 1025 agree or are 0 and 1024 |
| IkcNumbers.RepeatsIff | src/ikcd/ikcd.c:183-190 | A request repeats an earlier id of its thread if and only if it is the 1025th or later |
| IkcThreads.ExecutedIffNoneCollided | src/ikcd/ikcd.c:217-224 | In any mixture of threads, repetitions, losses and delays, a request is executed if and only if no request of its thread that collides with it has arrived before |
| IkcThreads.ExecutedIffAmongTheFirst1024 | src/ikcd/ikcd.c:217-224 | When no request of a thread is lost or overtaken, it is executed if and only if it is among its first 1024 and arrives for the first time |
| IkcThreads.RealNumbersAreNumbered | src/ikcd/ikcr.c:59-90 | The packed numbers meet the condition this rests on |
| CspWire.PackDbreqPacket | src/csd/csp.c:202-238 | The whole buffer after packing, and the length to send, sixteen-bit truncation included |
| CspWire.UnpackDbreqRequest | src/csd/csp.c:172-196 | The whole buffer after unpacking in place, and where key and value are |
| CspWire.SetRoundTrip | src/csd/csp.c:172-238 | Key and non-empty value of a SET come out as they went in, although the length just read is overwritten |
| CspWire.KeyRoundTrip | src/csd/csp.c:172-238 | The key of any other request comes out through the packer's own NUL, without a value |
| CspWire.EmptyValueIff | src/csd/csp.c:172-238 | An empty value comes out empty if and only if one of two stale bytes behind the key is zero |
| CspWire.EmptyKeyTakesTheValue | src/csd/csp.c:224-235 | With an empty key the value comes out as the key |
| CspWire.SetComesOutIff | src/csd/csp.c:172-238 | The exact condition, over all four cases of empty and non-empty strings, under which a SET comes out as it went in |
| CspWire.Deliver | src/csd/csd.c:576-592 | Version and type of a packet decide who gets it, and a database request is unpacked in place |
| CspWire.DeliveredIff | src/csd/csd.c:576-592 | A packet is a database request if and only if it begins with the bytes 1 and 2 |
| CspWire.RequestIsDelivered | src/csd/csp.c:202-238 | Whatever is packed as a database request is delivered as one, of the same type |
| CspWire.SentLengthCovers | src/csd/csp.c:214-237 | What is sent holds everything the unpacker uses if and only if the length fits its sixteen bits |
| Bytes.LowByteFirst | src/ikcd/ikcp.c:74-81 | Numbers are copied to the packet as they lie in memory, the low byte first and negative ones as two's complement |
| IkcpWire.PackProcCreatReq | src/ikcd/ikcp.c:51-101 | The bytes of the packet: 1, 10, the number, the pid, and each string behind its length |
| IkcpWire.UnpackProcCreatReq | src/ikcd/ikcp.c:107-145 | Number, pid and strings that the bytes stand for, each string with a NUL, the host name in the caller's buffer |
| IkcpWire.UnpackInvertsPack | src/ikcd/ikcp.c:51-145 | Unpacking gives back the number, the pid and all three strings, whatever follows the packet in the buffer |
| IkcpWire.StringsArrive | src/ikcd/ikcp.c:107-145 | Read as C strings, the three are what was sent |
| IkcpWire.Collect | src/ikcd/ikcd.c:131-155 | What the collector does with a packet, by its length, version and type |
| IkcpWire.CreationIff | src/ikcd/ikcd.c:131-155 | A packet is queued as a process creation if and only if it begins with the bytes 1 and 10 |
| IkcpWire.RequestIsCollected | src/ikcd/ikcp.c:51-101 | Whatever is packed as a process creation is queued as one, with exactly this number, pid and strings |
| IkcpWire.ResponseIsNotCollected | src/ikcd/ikcp.c:150-173 | A response is never taken for a request |
| IkcpWire.PackProcCreatResp | src/ikcd/ikcp.c:150-173 | The bytes of a response |
| IkcpWire.UnpackProcCreatResp | src/ikcd/ikcp.c:179-192 | The number and pid of whatever response was packed come back |

## Left out

- KeyParser.ParseKey: keys for which csdb_parse_key does not return are excluded, as ScanEndsIffDotFirst describes them.
- CsdbReload.SaveAndRestore: dumps with a key for which csdb_parse_key does not return are excluded, as for ParseKey; KeepsLeavesIff has them among those that do not keep their leaves.
- Csdb.Database.RemoveFromKey: what is removed is unlinked; that the code does not free the last entry of each list is not modelled, nor is any other malloc or free.
- Csdb.Database.GetValueForKey: the methods of the class are atomic and do not hold the mutex, which this function keeps at lines 432 and 436; StoreLock has the mutex over runs of calls.
- StoreOps.RunsAgree: the answers are those of calls that return; StoreLock.AllReturnIff says which do.
- Csdb.Database.SetValueForKey: NULL values, mtime and the dumpit flag are left out; the callers of the daemon pass a value.
- Csdb.Database.ReadDb: the file is a string; strtok's treatment of lines is kept, reading past the mapped text is not.
- csdb_get_child_names_for_key and csdb_key_exist would only add easy members; the disabled CSDB_BINARY_SEARCH_XX block and csdb_test are dead code.
- PidAlloc.PidAllocator.GetPid: CLONE_PID returns the caller's id as in the code, but such children are not linked in PidRuns; task lists of any length stand for the fixed table.
- UidHash.Table.FreeUid: the uniprocessor form, in which uid_hash_free always succeeds. UIDHASH_SZ comes from a Linux header that is not part of this model; any power of two would do.
- UidRuns.CountsAreReferences: alloc_uid and free_uid are called from kernel/sys.c and exit paths, which are not part of this model; a user is given up before the uid changes or the process ends.
- DkmKernel.DkmState.DoGetArgs: line 75 of dkmctl.c reads through a missing task before the test for one; the model answers -1 there. DkmTheorems.CommandsNeverFail shows that no run gets there.
- The rest of do_fork and do_execve, memory maps, files, credentials and binary handlers, and the handing over of the dkm struct between parent and child, are not modelled.
- DkmTheorems.NoLostWakeup: the test of a task's sleep loop and the sleep are one step, as on a uniprocessor kernel; unregistering while requests are outstanding and a stale daemon pid are left out, so a registered daemon is alive.
- DkmTheorems.RequestsAreConserved: safety only. The workers wait on condition variables without a predicate, and that they are woken is not claimed. That the out worker sends arg0, the node, as the file name is not modelled; the remote pid is arbitrary.
- ArgImage.Binprm.CopyStrings: memory faults in the middle of a string are those strnlen_user reports; the result of copy_from_user is not tested by the code and not modelled.
- IkcQueue.QueueHead.Remove: on a non-empty queue the request has to be there, since the loop reads through NULL otherwise. Mutexes are left out: each operation is atomic.
- IkcBacklog.Backlog.Serve: one worker, taken serially; at-most-once over three concurrent workers is not promised by the code.
- IkcThreads.ExecutedIffAmongTheFirst1024: assumes that no request of a thread is lost or overtakes an earlier one; without that, ExecutedIffNoneCollided holds. Hosts are told apart by the low half of their address only.
- CspWire.UnpackDbreqRequest: buffers are as long as the reads and writes need.
- IkcpWire.Collect: a creation request that is shorter than its lengths say is excluded; the code does not look at how much it received.
- IkcpWire.PackProcCreatReq: packets whose length does not fit an unsigned short are excluded; the code would allocate too little for them.
- Matching a UDP response to its request, sockets, select, message queues, signal installation, hello and capability packets, csd's packet loops, the csda scoring scan and the scraping of /proc would add input and output only.
