# AgentKernel: a verified model

AgentKernel keeps an agent's world as a graph of recorded states. Steps run in a
local or remote sandbox, their file changes become new states, branches are
forked, merged and discarded, capabilities are leased and narrowed, and every
step leaves a hash-chained causal record. This project models the parts of the
kernel whose correctness is not visible from one function, and proves what they
promise. `dafny verify dfyconfig.toml` checks everything.

## How it is organised

| files | what they model |
|---|---|
| `Text`, `PathSyntax`, `Workspace` | path texts and component lists; the branch mirror as a tree of files and directories under POSIX rules |
| `DeltaReplay`, `Transition` | validation and in-place replay of a remote delta, sweeping and materializing a manifest, the transactional step around them |
| `ManifestSync`, `Refusal`, `Listing`, `SyncProtocol`, `CachePoison` | manifests, push plans, listings, the state-sync protocol against a remote that may drift, lie or fail at every call, and the race between poisoning a sandbox and looking for one to clone |
| `BranchGates` | the map of branch gates under concurrent execute, fork, merge and discard |
| `Ancestry`, `Merge` | the merge base and the three-way merge of branches |
| `EgressCap`, `CopyCounted` | the lock-free byte cap and one tunnel direction that uses it |
| `Glob`, `Budget`, `Capability` | the glob matcher, budgets, lease checks, attenuation and automatic lease choice |
| `Ledger`, `StepPipeline`, `EffectCommits` | the hash chain and its causal query; concurrent `execute_step` runs over leases, heads and the ledger; the files and states behind a head while effects are committed |
| `Base64`, `ShellQuote`, `LogTail`, `Socks5` | the two base64 decoders, shell quoting, the capped process log, the proxy handshake |

Protocols with concurrency (`BranchGates`, `EgressCap`, `StepPipeline`,
`CachePoison`, `EffectCommits`, the pipes of `LogTail`) are
transition systems: a step is one atomic action, a run is any sequence of steps,
and the theorems hold in every state of every run. Code that mutates objects is a
class with methods. A remote service, a peer or another task is an arbitrary
script of answers, so a theorem about a method holds whatever they do.

## Where the code does not do what it says

- *Merge base.* `lca` is documented as the lowest common ancestor. It is the first
  one met breadth first, and once a history contains merges that can be a proper
  ancestor of the lowest. `Ancestry.LowestIff` says exactly for which histories it
  is the lowest. `Merge.MergeAfterMergeBack` runs a history (a branch merged back
  into an unchanged original) where the last merge should be a fast-forward: it is
  one iff the newer state leaves alone every path the older one changed. Otherwise
  it reports a conflict (`Merge.SpuriousConflict`) or, when a change was taken back,
  commits and silently restores it (`Merge.LostRevert`).
- *Merged trees.* Two trees can merge without conflict to something that is not a
  tree, when one side adds a file where the other adds a directory. The merge is
  committed, but its workspace can then never be rebuilt, not even by the retry the
  error message promises. `Merge.MergedShapeIff` and `Merge.MergeBranch` give the
  exact condition, `Merge.CrossingExample` an instance.
- *Attenuation.* A `Forbidden` constraint narrows every other one, although it
  also allows an absent parameter or `false`. `Capability.NarrowsIsInclusionIff`
  and `Capability.AttenuationIsInclusionIff` say exactly when a child lease is
  included in its parent. The comment on automatic lease choice speaks of narrow
  authority; the code compares branch binding and expiry only.
- *End of a log.* `eof` is computed from a total and an exit status, and neither
  waits for the pumps. `LogTail.EofIsTheEndIff`: within a run it is the true end iff
  no byte was moved after the log was read, and it is the true end in every
  continuation iff at that moment each pipe was empty and without a writer, or had
  lost its pump to a read error; a chunk in a pump's hand counts as in the pipe.
  `LogTail.EofBeforeTheEnd` gives two runs, with the last byte arriving inside the
  poll and after it.
- *Poisoned sandboxes.* Poisoning removes the sandbox's gate from the gate map
  before it awaits the deletion. A task that had already collected the sandbox as a
  clone candidate can then make a new gate, list the sandbox and cache it again.
  `CachePoison.BackAtReturnIff` and `CachePoison.BackLaterIff` say exactly when,
  `CachePoison.BackExample` is such a run. When the deletion succeeds after that, the
  dead sandbox stays cached, and a later search for the same tree fails on it:
  `CachePoison.DeadEntryLeftIff`, `CachePoison.LaterSearchFails`.
- *Listings.* Every invalid path in a listing is meant to be a protocol violation,
  except in the cache tier. The code looks for the tier's name in the reason of the
  refusal, and the reason quotes the path, so `../cache/scratch` is silently left
  out. `Listing.RefusedForPathIff` is the exact condition, `Listing.HostileListing`
  an accepted listing with that path.
- *Effect commits.* A commit reads the head and appends its root in two steps
  without the branch gate, so the files of a step committed in between are dropped
  from the head. `EffectCommits.StepFilesKeptIff` says exactly when they are kept,
  `EffectCommits.StepFilesLost` is a run where they are not. A merge reads the head
  and moves it later, so an effect committed in between is no longer behind the head:
  `EffectCommits.BehindHeadIff`, `EffectCommits.CommitBypassed`.
- *Modes.* A base manifest with a mode above `0o777` can never be synced in, since
  listings are masked to `0o777` and must equal the base
  (`SyncProtocol.CubeBackend.SyncIn` succeeds only on such a listing).
- *Chain verification.* `verify_chain` accepts every prefix of a good log
  (`Ledger.TruncationVerifies`): removing the newest events is not visible to it.
- *Base64.* The proxy's decoder and the kernel's differ off the encoder's image:
  the proxy refuses whitespace, ignores what follows the first `=`, and accepts a
  length of 1 modulo 4.

## Model

| member | source | states |
|---|---|---|
| `PathSyntax.CanonicalIffClean` | kernel/core/src/sync.rs:84-103 | a path text is accepted unchanged iff its slash-separated components are all plain and none is ignored |
| `PathSyntax.CleanRoundTrip` | kernel/core/src/path.rs:12-31 | every clean component list is the unique reading of its text, and that text is accepted |
| `PathSyntax.AncestorTextIff` | kernel/core/src/sync.rs:67-79 | a text cut at a slash is another path's text iff that path is a strict ancestor: reasoning on components agrees with the code's on texts |
| `Workspace.DeletedFile` | kernel/api/src/kernel.rs:414-430 | removing a file of an exact tree succeeds and leaves exactly the other files plus the directories above it |
| `Workspace.PrunedDir` | kernel/api/src/kernel.rs:392-406 | removing an empty parent keeps the tree exact up to the parents above it |
| `Workspace.WrittenFile` | kernel/api/src/kernel.rs:431-450 | creating the parents and writing a file that collides with no file or directory gives exactly the updated file map, again tree-shaped |
| `Workspace.SnapshotOfExactly` | kernel/state_dag/src/snapshot.rs:157-208 | a snapshot of an exact tree is its file map |
| `DeltaReplay.ParentsAreNotFiles` | kernel/api/src/kernel.rs:369-386 | the parent walk accepts iff no upserted path is an ancestor of another |
| `DeltaReplay.ValidateWorkspaceDelta` | kernel/api/src/kernel.rs:308-388 | accepts iff all touched paths are clean, writable and pairwise different and no upserted path is a parent of another |
| `DeltaReplay.SortIsPermutation` | kernel/api/src/kernel.rs:412-413 | the delete order is a permutation with deepest paths first |
| `DeltaReplay.Mirror.PruneEmptyParents` | kernel/api/src/kernel.rs:392-406 | turns a tree that is exact up to the emptied parents of a path into an exact tree: every parent no file needs goes, no other |
| `DeltaReplay.Mirror.DeleteOne` | kernel/api/src/kernel.rs:414-430 | one delete of a file, a directory or a missing path leaves exactly the files without it; it fails, changing nothing, iff the path runs below a file |
| `DeltaReplay.Mirror.UpsertOne` | kernel/api/src/kernel.rs:431-450 | one upsert leaves exactly the updated files, over an empty directory too, and fails iff the result would not be a tree |
| `DeltaReplay.Mirror.ReplayDeletes` | kernel/api/src/kernel.rs:412-430 | all deletes, in any depth-first order, leave exactly the files without them, or fail iff one runs below a file |
| `DeltaReplay.Mirror.ReplayUpserts` | kernel/api/src/kernel.rs:431-450 | all upserts leave exactly the updated map, modes masked, or fail iff that map is not tree-shaped |
| `DeltaReplay.Mirror.ApplyWorkspaceDelta` | kernel/api/src/kernel.rs:411-452 | the imperative replay succeeds iff no delete runs below a file and the replaced map is tree-shaped, and then the tree holds exactly the replaced map, without empty directories, whatever the list order |
| `Transition.RemoveStale` | kernel/state_dag/src/snapshot.rs:281-310 | below a directory, exactly the nodes the manifest needs survive and nothing outside changes |
| `Transition.Materialize` | kernel/state_dag/src/snapshot.rs:224-276 | from any tree, succeeds iff the manifest is tree-shaped, and then the tree holds exactly the manifest |
| `Transition.SyncedTransition` | kernel/api/src/kernel.rs:2617-2665 | denied iff the delta is invalid, with the mirror untouched; committed iff also base and result are trees and every delete is reachable, with exactly the replaced files; otherwise failed with the mirror back at the base |
| `ManifestSync.ValidateManifestShape` | kernel/core/src/sync.rs:67-79 | accepts iff no path is an ancestor of another |
| `ManifestSync.Vanished` | kernel/core/src/sync.rs:56-60 | lists every path the target lacks, once |
| `ManifestSync.MakePushPlan` | kernel/core/src/sync.rs:49-62 | lists every differing and every vanished path once; the plan is empty iff the manifests are equal |
| `ManifestSync.DiffIsValid` | kernel/api/src/kernel.rs:344-386 | every pulled delta between clean, well-shaped manifests passes the structural checks |
| `ManifestSync.DiffApplied` | backends/cube/src/lib.rs:681-727 | replacing by the pulled delta gives exactly the listed manifest, tree-shaped |
| `ManifestSync.DiffReplays` | backends/cube/src/lib.rs:681-727 | for all well-shaped bases and listings, in any list order and across file/directory changes, the pulled delta is valid, replayable and yields the listing |
| `Refusal.ReasonMentionsIff` | kernel/core/src/sync.rs:84-103 | the reason for refusing a path contains the cache tier's name iff the path is in the cache tier or its own text contains that name |
| `Listing.ReadItem` | backends/cube/src/lib.rs:603-625 | deciding by the words of the reason: a path is left out iff it is in the cache tier or invalid and containing the tier's name |
| `Listing.ParsedIff` | backends/cube/src/lib.rs:599-631 | a listing is accepted iff no item refuses it, no path occurs twice and they form a tree; it is then read as exactly its entries |
| `Listing.AcceptedIff` | backends/cube/src/lib.rs:599-631 | acceptance in terms of the files: no invalid path but those containing the tier's name, a digest for every syncable one, all different, the shape of a tree |
| `Listing.RefusedForPathIff` | backends/cube/src/lib.rs:605-612 | a listing is refused for an invalid path iff one does not contain the tier's name |
| `Listing.HostileListing` | backends/cube/src/lib.rs:605-612 | a listing of `../cache/scratch` is accepted as empty |
| `Listing.ParseListing` | backends/cube/src/lib.rs:599-631 | the loop computes that manifest, accepts exactly the acceptable listings, and yields clean tree-shaped paths with masked modes |
| `SyncProtocol.CubeBackend.RemoteManifest` | backends/cube/src/lib.rs:599-631 | returns a manifest iff the service's answer to this call is an acceptable listing, and then the one it stands for |
| `SyncProtocol.CubeBackend.QuiescentSource` | backends/cube/src/lib.rs:516-545 | a clone source is only returned when its last listing, under its gate, was the target; the search fails iff some candidate it asked could not be listed, and that one was cached as the target |
| `SyncProtocol.CubeBackend.SandboxFor` | backends/cube/src/lib.rs:549-583 | the returned sandbox is the branch's; on failure the branch has none; no action runs |
| `SyncProtocol.CubeBackend.Poison` | backends/cube/src/lib.rs:588-595 | the handle is gone; the cache entry, removed before the deletion is awaited, is present on return iff another task put it back during that await |
| `SyncProtocol.CubeBackend.SyncIn` | backends/cube/src/lib.rs:635-675 | success means the last thing seen of the sandbox is a listing equal to the base, which is then cached |
| `SyncProtocol.CubeBackend.Pull` | backends/cube/src/lib.rs:690-706 | pulls exactly the changed paths, each with contents hashing to its listed entry |
| `SyncProtocol.CubeBackend.SyncOut` | backends/cube/src/lib.rs:681-727 | an Ok delta is the difference between the base and a manifest listed both before and after the pull |
| `SyncProtocol.CubeBackend.Prepare` | backends/cube/src/lib.rs:755-770 | ready means the branch's sandbox just listed as the base; otherwise the sandbox is poisoned |
| `SyncProtocol.CubeBackend.RunAndPull` | backends/cube/src/lib.rs:771-833 | the action runs once, a lost answer or a failed pull poisons the sandbox, Ok is the difference to a manifest listed right after the run and again last |
| `SyncProtocol.CubeBackend.Execute` | backends/cube/src/lib.rs:750-862 | whatever the remote does, the action only runs right after a listing equal to the base; Ok gives the difference to a manifest listed after the action; any failure leaves no handle, and a cache entry only if another task put it back during the deletion |
| `SyncProtocol.CubeBackend.Register` | backends/cube/src/lib.rs:894-895 | the clone gets its handle; its cache entry is what was listed iff no other task changed it while this one waited for the lock |
| `SyncProtocol.CubeBackend.Fork` | backends/cube/src/lib.rs:867-897 | true iff the clone itself listed as the target; its cache entry is that listing iff no other task changed it before the handle was registered; a failure leaves no handle |
| `SyncProtocol.CubeBackend.Discard` | backends/cube/src/lib.rs:899-909 | success removes handle and cache entry, failure keeps the handle |
| `SyncProtocol.PulledDeltaOutcome` | kernel/api/src/kernel.rs:308-388 | a pulled delta is valid iff all its paths are writable, and then it replays to the listed manifest |
| `SyncProtocol.SyncedStep` | kernel/api/src/kernel.rs:2617-2665 | end to end: the step commits iff the delta stays in the writable prefixes, the mirror then holds exactly files whose manifest is the remote's last listing; it never fails in replay, and a denial leaves the mirror alone |
| `CachePoison.StepKeepsInv` | backends/cube/src/lib.rs:516-595 | every step of the poisoning task and of any number of scouts keeps the invariant that, until the gate is removed from the map, no scout is past it |
| `CachePoison.GoneWhileGated` | backends/cube/src/lib.rs:588-595 | in every run the cache entry is gone from its removal until the gate's |
| `CachePoison.PresentIffInserted` | backends/cube/src/lib.rs:528-540 | from its removal on, the entry is present iff some task has listed and cached the sandbox since |
| `CachePoison.InsertedAfterUngate` | backends/cube/src/lib.rs:588-595 | and that can only happen after the gate was removed from the map |
| `CachePoison.BackAtReturnIff` | backends/cube/src/lib.rs:516-595 | at the removal: the entry can be back when the poisoning returns iff some task had collected the sandbox and not yet taken its gate |
| `CachePoison.BackLaterIff` | backends/cube/src/lib.rs:516-595 | it can be back at any later time iff some task had the sandbox among its candidates |
| `CachePoison.DeadEntryLeftIff` | backends/cube/src/lib.rs:516-595 | a successful poisoning can leave the deleted sandbox cached iff some task had collected it and not yet taken its gate |
| `CachePoison.DeadEntryStays` | backends/cube/src/lib.rs:528-540 | such an entry stays for ever and no search caches or finds it again |
| `CachePoison.LaterSearchFails` | backends/cube/src/lib.rs:528-540 | a later search for the same tree that finds the gate free runs into a failure |
| `CachePoison.BackExample` | backends/cube/src/lib.rs:516-595 | a run from a held gate that ends with the entry cached again before the poisoning returns |
| `BranchGates.StepKeepsInv` | kernel/api/src/kernel.rs:899-926 | every atomic step of every operation keeps the invariant that all gate references to an active branch are the map's current gate |
| `BranchGates.RunKeepsInv` | kernel/api/src/kernel.rs:1225-1411 | the invariant holds in every state of every run of any number of tasks, with cancellation anywhere |
| `BranchGates.AtMostOnePastCheck` | kernel/api/src/kernel.rs:1194-1202 | in every interleaving at most one task is past its status check on a branch, and that branch is active, although gates are removed under waiters |
| `BranchGates.TerminalIsFinal` | kernel/api/src/kernel.rs:1307-1411 | merged and discarded are never left, over the rest of any run |
| `BranchGates.NoWaitCycle` | kernel/api/src/kernel.rs:1318-1326 | no reachable state has a waits-for cycle, for merges in either direction and branches with several gate objects |
| `BranchGates.SomeTaskCanRun` | kernel/api/src/kernel.rs:907-912 | while a task is unfinished, some unfinished task is not blocked |
| `Ancestry.OrderIsAncestors` | kernel/state_dag/src/dag.rs:572-581 | the breadth-first walk expands every ancestor exactly once and nothing else |
| `Ancestry.Ancestors` | kernel/state_dag/src/dag.rs:561-569 | the first loop collects exactly the ancestors |
| `Ancestry.Lca` | kernel/state_dag/src/dag.rs:559-585 | a base is found iff the states share an ancestor; it is common, and the first ancestor of the one met walking from the other |
| `Ancestry.OrderedPickIsLowest` | kernel/state_dag/src/dag.rs:557-558 | the base is the lowest common ancestor when the walk meets descendants first |
| `Ancestry.LowestIff` | kernel/state_dag/src/dag.rs:557-585 | the base is the lowest for every other state iff the walk never meets a state before one of its descendants |
| `Ancestry.LinearHistoryIsLowest` | kernel/state_dag/src/dag.rs:557-558 | without merges in its history the documented property holds |
| `Ancestry.AncestorIsItsOwnBase` | kernel/state_dag/src/lib.rs:187-188 | from the side of an ancestor, the ancestor itself is found |
| `Merge.MergePath` | kernel/state_dag/src/dag.rs:638-657 | one path is settled: a conflict iff both sides changed it differently, else the merge carries the changes of both |
| `Merge.MergeFiles` | kernel/state_dag/src/dag.rs:630-662 | the conflicts are exactly the paths changed differently on both sides; without any, every change of either side is kept and nothing else changes |
| `Merge.CleanIffReplaysCommute` | kernel/state_dag/src/dag.rs:630-662 | there is no conflict iff replaying the two change sets in either order agrees |
| `Merge.MergeIsReplay` | kernel/state_dag/src/dag.rs:664-665 | the merge is that common result |
| `Merge.MergedShapeIff` | kernel/state_dag/src/dag.rs:664-665 | two trees merge to a tree iff neither adds a file where the other adds something below it |
| `Merge.CrossingExample` | kernel/state_dag/src/dag.rs:638-657 | two trees that merge without conflict to something that is not a tree |
| `Merge.StateDag.AppendStep` | kernel/state_dag/src/dag.rs:403-438 | one state on top of an active branch's head, refused exactly for a missing or inactive branch |
| `Merge.StateDag.Commit` | kernel/state_dag/src/dag.rs:671-694 | one new state with both heads as parents, the target moved, the source merged, nothing else |
| `Merge.StateDag.MergeBranches` | kernel/state_dag/src/dag.rs:607-695 | every refusal exactly, conflicts and refusals change nothing, success appends one state whose files keep both sides' changes since the picked base |
| `Merge.MergeBranch` | kernel/api/src/kernel.rs:1307-1351 | over tree-shaped states, a committed merge is rebuilt in the target workspace, exactly, iff the added paths of the two sides do not cross; a refused or conflicting merge leaves the mirror alone |
| `Merge.DescendantMergesCleanly` | kernel/state_dag/src/dag.rs:600-606 | with the lowest base, merging a descendant has no conflict and gives the descendant |
| `Merge.WrongBase` | kernel/state_dag/src/dag.rs:557-585 | a history where the picked base is not the lowest |
| `Merge.WrongBaseIsHarmlessIff` | kernel/state_dag/src/dag.rs:622 | with an ancestor of the lowest base, a merge that should give the source does so iff the source leaves alone every path changed since |
| `Merge.SpuriousConflict` | kernel/state_dag/src/dag.rs:622 | any path changed twice is a conflict with that base, and none is with the lowest |
| `Merge.LostRevert` | kernel/state_dag/src/dag.rs:622 | for all trees: a source that went back to the old files merges without conflict to the files it took back |
| `Merge.MergeAfterMergeBack` | kernel/state_dag/src/dag.rs:607-695 | the history made by its operations: the last merge conflicts exactly in the paths changed differently, or commits the replay, and is right iff every path changed before is left alone |
| `EgressCap.StepKeepsInv` | backends/local/src/egress.rs:531-606 | every atomic step keeps the accounting invariant and never lowers the committed count |
| `EgressCap.RunKeepsInv` | backends/local/src/egress.rs:531-606 | it holds in every state of every run of any number of threads |
| `EgressCap.CapHolds` | backends/local/src/egress.rs:531-606 | used is committed plus outstanding, never above the cap, never over- or underflows, and equals committed once nothing is live |
| `EgressCap.ReadWasReal` | backends/local/src/egress.rs:558-580 | the value a retry loop works with was the counter at some earlier moment |
| `EgressCap.ReservationHonest` | backends/local/src/egress.rs:558-606 | a success grants all of an exact request, or as much as fits of the other kind; a refusal means there really was no room at some moment |
| `CopyCounted.Direction.WriteAll` | backends/local/src/egress.rs:655-664 | short writes put out a prefix of the granted part, counted exactly |
| `CopyCounted.Direction.Turn` | backends/local/src/egress.rs:639-675 | the loop continues only after a whole buffer went through; charges equal bytes written even when the rest is refunded |
| `CopyCounted.Direction.Run` | backends/local/src/egress.rs:628-676 | output is a gap-free prefix of input missing at most part of the last buffer, charged exactly; after revocation at most 8192 bytes go out, all read before it |
| `Glob.GlobMatch` | kernel/core/src/capability.rs:101-126 | the greedy matcher accepts iff the text can be split so that every star covers some substring and the rest matches literally |
| `Glob.LeftmostSuffices` | kernel/core/src/capability.rs:112-118 | taking the leftmost occurrence of a part loses no match |
| `Glob.StarThenParts` | kernel/core/src/capability.rs:112-118 | a star followed by parts matches iff the next part occurs somewhere with the rest matching after it |
| `Budget.FitsIff` | kernel/core/src/budget.rs:47-54 | fitting is fitting in every dimension |
| `Budget.ClampIsGreatest` | kernel/core/src/budget.rs:80-89 | clamping gives the greatest budget that fits both |
| `Budget.ExceedingDimensions` | kernel/core/src/budget.rs:59-75 | lists each exceeded dimension once; empty iff it fits |
| `Budget.Account.Charge` | kernel/core/src/budget.rs:117-136 | subtracts in every dimension, stopping at zero, and reports exactly the overdrawn ones |
| `Budget.ChargesConserve` | kernel/core/src/budget.rs:117-136 | over any run of charges the remainder is the initial value less the sum, at least zero, and a dimension is ever reported iff its sum exceeds the initial value |
| `Capability.NarrowsIncludes` | kernel/core/src/capability.rs:75-97 | what a narrower constraint allows, the wider allows, except absent or `false` under `Forbidden` |
| `Capability.NarrowsIsInclusionIff` | kernel/core/src/capability.rs:75-97 | narrowing is inclusion of allowed values iff the narrower one is not a `Forbidden` over something else |
| `Capability.Check` | kernel/core/src/capability.rs:171-213 | Ok iff the lease authorizes the invocation; each refusal exactly, in the code's order, with the first violated constraint named |
| `Capability.Attenuate` | kernel/core/src/capability.rs:218-264 | granted iff the request is within the parent in every respect, and then the child is exactly that |
| `Capability.AttenuationIsInclusionIff` | kernel/core/src/capability.rs:218-264 | every invocation the child accepts is accepted by the parent iff the child is unusable or forbids no parameter the parent constrains otherwise |
| `Capability.ForbiddenEscapes` | kernel/core/src/capability.rs:93-95 | otherwise there is an invocation the child accepts and the parent refuses |
| `Capability.ChainShrinks` | kernel/core/src/capability.rs:218-264 | along any chain uses, expiry and budget only shrink; operation, branch and preconditions stay; no revoked lease was attenuated |
| `Capability.ChainNeverWidens` | kernel/core/src/capability.rs:171-264 | what the leaf accepts is accepted by every ancestor under its principal iff it violates none of its constraints, and it can violate one only at a parameter forbidden below and absent or `false` |
| `Capability.ChooseLease` | kernel/api/src/kernel.rs:1797-1820 | none iff no held lease passes; else the first among those maximal in branch binding and soonest expiry |
| `Capability.ResolveLease` | kernel/api/src/kernel.rs:1797-1835 | mints only when none passes, is denied only when policy also refuses, and the budget is the greatest one fitting both the request and the lease |
| `Ledger.EventTable.Append` | kernel/causal_ledger/src/ledger.rs:129-176 | one event is added after the last; verification and gap-free numbering are kept |
| `Ledger.EventTable.VerifyChain` | kernel/causal_ledger/src/ledger.rs:202-233 | accepts with the count iff every event links and hashes; else names the first bad one |
| `Ledger.BuildLog` | kernel/causal_ledger/src/ledger.rs:129-176 | every log built by appends verifies, is numbered from 1 and holds the appended events |
| `Ledger.SameTip` | kernel/causal_ledger/src/event.rs:97-124 | two verifying logs with one final hash are identical or exhibit two different bodies with equal hash |
| `Ledger.TruncationVerifies` | kernel/causal_ledger/src/ledger.rs:202-233 | every prefix of a verifying log verifies |
| `Ledger.ClosurePass` | kernel/causal_ledger/src/ledger.rs:394-405 | a pass only adds causes, and adds none iff the set is closed |
| `Ledger.EventsLeadingToEffect` | kernel/causal_ledger/src/ledger.rs:387-410 | on any log, dangling or cyclic links included, returns in order exactly the events reachable from the effect's own |
| `StepPipeline.StepKeepsInv` | kernel/api/src/kernel.rs:1590-1777 | every atomic step of every run, and of everybody else, keeps the invariant over leases, heads, gates and ledger |
| `StepPipeline.RunKeepsInv` | kernel/api/src/kernel.rs:1590-1777 | it holds in every state of every interleaving |
| `StepPipeline.LeaseNeverOverspent` | kernel/identity/src/lease_store.rs:141-176 | remaining uses plus consumers is always the grant, so at most as many steps reach dispatch as uses were granted |
| `StepPipeline.OkStepRecorded` | kernel/api/src/kernel.rs:2680-2747 | an Ok step consumed a use, made exactly one node on its branch, right after the head it saw up to effect commits, and its ledger entries are exactly the tool, proposal, delta and observation chain |
| `StepPipeline.DeniedStepRecorded` | kernel/api/src/kernel.rs:2040-2061 | a denied step made no node anywhere and has exactly one denial, cited by its observation |
| `StepPipeline.DenialLeavesHead` | kernel/api/src/kernel.rs:2040-2061 | when a denial is said, only effect commits have moved the head since the check |
| `StepPipeline.LinksGoBack` | kernel/causal_ledger/src/ledger.rs:517-545 | causal links written by steps go strictly backwards and stay inside one step |
| `StepPipeline.EffectHistoryIsItsStep` | kernel/api/src/kernel.rs:2121-2165 | the causal query of a proposed effect returns exactly its own events and the tool invocation of its step |
| `EffectCommits.StepKeepsInv` | kernel/api/src/kernel.rs:2826-2839 | every read and append keeps that carried states have an older root, and that gated appends, merges included, overlook nothing but effect commits |
| `EffectCommits.RunKeepsInv` | kernel/api/src/kernel.rs:2826-2839 | in every state of every interleaving |
| `EffectCommits.StepFilesKeptIff` | kernel/api/src/kernel.rs:2826-2839 | until files change again the head keeps a step's or merge's files iff no effect commit that read other files before its append appends after it; gated appends never do |
| `EffectCommits.StepFilesLost` | kernel/api/src/kernel.rs:2826-2839 | a run where the head has the files from before the step |
| `EffectCommits.BehindHeadIff` | kernel/state_dag/src/dag.rs:618-692 | a state is behind the head, along parents, iff no merge that read the head before it moved the head after it; only effect commits can be bypassed |
| `EffectCommits.CommitBypassed` | kernel/state_dag/src/dag.rs:618-692 | a run where a committed effect's state is not behind the head |
| `Base64.AlphabetIsSym` | kernel/core/src/b64.rs:4 | the table is the alphabet by its ranges |
| `Base64.Encode` | kernel/core/src/b64.rs:7-30 | the shifting loop computes the 24-bit group specification |
| `Base64.Decode` | kernel/core/src/b64.rs:44-68 | Ok iff, whitespace and padding removed, all characters are in the alphabet and the length is not 1 modulo 4; then the bytes of the sextets |
| `Base64.ProxyDecode` | backends/local/src/egress.rs:432-450 | accepts iff everything before the first padding is in the alphabet; the 32-bit accumulator, high bits dropped, yields the same bytes |
| `Base64.PlainAgrees` | backends/local/src/egress.rs:432-450 | both decoders read the same characters of a padded plain text |
| `Base64.RoundTrip` | kernel/core/src/b64.rs:7-68 | every byte string survives encoding and decoding, with whitespace inserted anywhere for the kernel's decoder |
| `Base64.RoundTripRuns` | kernel/core/src/b64.rs:7-68 | the three routines run together give the bytes back |
| `ShellQuote.EscapedReads` | backends/forkd/src/lib.rs:248-250 | inside quotes an escaped text adds exactly itself to the word being read |
| `ShellQuote.QuotingIsExact` | backends/forkd/src/lib.rs:248-250 | a command line of plain words and quoted arguments is tokenized to exactly those words, for all argument texts |
| `ShellQuote.RemovesExactly` | backends/forkd/src/lib.rs:570-574 | the delete command names exactly the given paths |
| `LogTail.LogBuffer.constructor` | backends/local/src/process.rs:36-42 | starts empty with a capacity of at least one byte |
| `LogTail.LogBuffer.Append` | backends/local/src/process.rs:44-51 | the buffer is always the last min(total, cap) bytes of the whole stream |
| `LogTail.LogBuffer.ReadFrom` | backends/local/src/process.rs:65-70 | returns a true slice of the stream from the clamped offset |
| `LogTail.NothingFollowsIff` | backends/local/src/process.rs:290-304 | no continuation adds a byte to the log iff each pipe is empty without a writer or has lost its pump |
| `LogTail.Session.LookAt` | backends/local/src/lib.rs:1191-1195 | the first half of a poll: a true slice from the clamped offset and the total so far |
| `LogTail.Session.Reply` | backends/local/src/lib.rs:1196-1214 | the second half: drops reported exactly, `eof` iff exited by now and read to the recorded total |
| `LogTail.EofIsTheEndIff` | backends/local/src/lib.rs:1191-1214 | a report with `eof` is the end of the run's output iff no byte was moved after the log was read, and the end in every continuation iff each pipe was then drained or without its pump |
| `LogTail.EofBeforeTheEnd` | backends/local/src/lib.rs:1191-1214 | two runs that report `eof` with a byte still to come, inside the poll or after it |
| `LogTail.EveryByteAccounted` | backends/local/src/lib.rs:1198-1214 | delivered plus reported dropped bytes are all bytes up to the cursor |
| `LogTail.Follow` | backends/local/src/lib.rs:1177-1219 | a reader following the next offset, with writes, pumps and exit interleaved in any way, also inside a poll, receives true slices in order, gaps being exactly the reported drops; each report answers one look at the log |
| `Socks5.Conn.Negotiate` | backends/local/src/egress.rs:845-857 | goes on iff a non-empty offer contains username/password; consumes it exactly; one reply each way |
| `Socks5.Conn.Authenticate` | backends/local/src/egress.rs:859-894 | goes on iff the message is the user `ak` with a live token; consumes it exactly; one reply each way |
| `Socks5.Conn.ReadHost` | backends/local/src/egress.rs:902-928 | each address type is read iff complete and acceptable, as what it encodes |
| `Socks5.Conn.ReadRequest` | backends/local/src/egress.rs:896-931 | goes on iff the message is a complete CONNECT, consumed exactly with a big-endian port |
| `Socks5.ReadableIff` | backends/local/src/egress.rs:841-932 | three readable messages in a row are exactly the encodings of well-formed exchanges |
| `Socks5.Unambiguous` | backends/local/src/egress.rs:841-932 | an input starts with the encoding of at most one exchange |
| `Socks5.Conn.Handshake` | backends/local/src/egress.rs:841-932 | accepts iff the input starts with a well-formed exchange for a live token, consumes exactly it, returns its token, target and port |
| `Socks5.ClientRoundTrip` | backends/local/src/egress.rs:1116-1149 | inverts the client encoder for every live token and every domain of 1 to 255 bytes |

## Left out

- The effect broker, policy engine, scheduler and connectors: they answer arbitrarily in the step model.
- The forkd, gVisor and Kubernetes transports: forkd runs the same sync protocol over a shell; only its quoting is modelled, not the upsert command with its pipes and command substitution.
- Symbolic links, and permission or device errors of the file system.
- Workspace.SnapshotOfExactly: the walk's skipping of ignored components and symbolic links and its stat cache are not modelled; mirrors here hold no cache-tier content.
- Transition.RemoveStale: ignored cache components, which the code preserves, are not modelled.
- Transition.Materialize: preserved cache content and the skipped rewrite of unchanged files are not modelled.
- Restoring a durable merge after a crash, garbage collection, and effect commits other than as head and ledger changes without a gate.
- Liveness under an unfair scheduler: the gate model shows that some task can run, not that each one does.
- HTTP parsing, DNS, address filtering and actual sockets of the proxy; only the SOCKS5 handshake, the cap and the copy loop are modelled.
- SHA-256, signatures, canonical JSON and SQLite: the hash is an arbitrary function, tables are sequences and maps.
- Floating point: numeric constraint bounds are reals with NaN and infinities; rounding and negative zero are not modelled.
- UTF-8 validity is an arbitrary predicate on bytes, and the textual form of IP addresses is not modelled.
- NUL characters in shell arguments, which an operating system refuses in any command line.
- State ids are numbers in order of creation, and branch ids numbers in id order.
- Budget dimensions are unbounded naturals; the code saturates at the width of each field only in additions, which the model does not use.
- Merge.MergeFiles: the conflict paths are a set; the code lists them in path order.
- CopyCounted.Direction.Run: the two directions of a tunnel and its cancellation by the other side are not joined into one run; the shared counter is modelled in EgressCap.
- LogTail.LogBuffer.Append: 64-bit overflow of offsets is not modelled.
- StepPipeline.OkStepRecorded: the workspace root of the node is not part of the step model; EffectCommits states what becomes of it, SyncProtocol.SyncedStep what it holds.
- SyncProtocol.CubeBackend.Execute: the service never hands out one sandbox id twice; with a repeated id another branch's task could write this sandbox's cache entry under the same gate.
- CachePoison.StepKeepsInv: one sandbox and one poisoning task; the owner's own operations on a branch are serialized by the kernel.
