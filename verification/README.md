# Models and proofs for the o9 runtime

This project models three parts of the o9 system in Dafny and proves what they promise.

- **Views** (`o9_filetree.c`): actor-owned directory trees that are mounted into each other. `FileTree` holds the shared
  state, its invariant and every change of it; `FileStore` the public operations, as methods that update that state;
  `FileWalk` the two searches, walking and listing. `FileLaws` says what paths, mount specifications and unions mean,
  without the functions that compute them. Every operation holds the mount lock throughout, so each is one step.
- **Actor runtime** (`o9_runtime.c`): `CallGraph` (the wait-for graph), `PendingCalls` (caller, actor and reaper around a
  reference-counted reply record, as a state machine over all interleavings), `Reaper` (the pending table, the
  channel-to-thread table and the sweep), `ObjectTable` (open addressing and handles), `Ring` (the 64-slot rings),
  `Router` (mailboxes, their workers and the exchange with the actor, as a state machine over all interleavings) and
  `Replies` (which reply a router callback gets).
- **Crypto core** (`monocypher.c`): `Poly1305`, `Field25519`, `X25519`, `ScalarModL`, `SlidingWindow`, `Blake2b` and
  `Argon2`, `MontgomeryLadder` for what the ladder of X25519 does, and `KeyExchange` for the division at its end. Limbs are bounded integers, so that a verified
  assignment is also a proof that the C variable does not overflow. Shifts and masks are division and remainder; or-ing
  into zero bits is `Words.Or`.

`Words` holds the shared number theory of digits and bytes, `Graphs` that of walks and cycles; `Options` and `Guards` hold a
datatype and four marks that several modules use. `Primality` proves Fermat's theorem, Euler's criterion and Pocklington's
criterion; `FieldPrime` and `OrderPrime` hold the certificates by which 2^255 - 19 and L are prime. Their lines are powers
of 2, each computed from the one above it.

The main results, each for all inputs or all runs:

1. No run of the mount operations ever lets trees mount each other in a ring, leaves a mount or a registration pointing at a
   destroyed tree, or breaks the order of a mount list (`FileTree.RunsKeepInv`). The cycle check looks only at planned
   mounts of one tree and remembers only its current path; it is complete, and exact while there are at most 256 trees
   (`FileTree.CheckExact`).
2. A directory listing that succeeds names exactly what walking finds, each name once (`FileWalk.Entries`), and that is
   what the union law says: the first replacing or earlier mount that has the name, else the directory's own child unless
   it is replaced, else the first later mount (`FileLaws.UnionAt`, `FileLaws.WalkUnion`). A path leads through the
   directories its names lead to (`FileLaws.PlaceIff`, `FileLaws.TargetIff`).
3. Over every interleaving, a call gets exactly one reply if its message was sent and it returns, its record is freed
   exactly once and never used afterwards, and whoever replies finds the channel empty (`PendingCalls.CallsComplete`,
   `PendingCalls.StepsAreSafe`). What it gets is its actor's answer to that very call, or the failure reply, which is sent
   only after the actor's death (`PendingCalls.ResultIff`, `PendingCalls.FailureNeedsDeath`).
4. Over every interleaving, requests leave a mailbox in the order they came (`Router.RingIsFifo`). A router callback runs
   at most once, a queued request has a worker, and a callback gets the
   reply to its own request, each with its exact condition: the first fails only if a submitter cannot start a worker and
   another worker has taken its request meanwhile (`Router.CallbackCount`), the second only if the last worker leaves and
   cannot start its successor (`Router.NoLostWakeup`), the third, for requests sent one at a time, only if the replies that
   unregistering posted and the messages that exiting actors dropped do not match (`Replies.OwnReply`).
5. Poly1305 is RFC 8439, X25519 is RFC 7748 from the key and point bytes to the secret bytes, reduction modulo L is exact,
   scalars are inverted modulo L, BLAKE2b's buffering is the block schedule of RFC 7693, and Argon2 reads no block before it
   has been written and may fill its lanes in any order. The moduli 2^255 - 19 and L are proved prime (`FieldPrime.Prime255`,
   `OrderPrime.Prime253`), so none of this rests on an assumption about them.

Where the code and what is said about it differ, the model follows the code:

- The carry macro documents that its first limb may be anything below 2^63. Its rounding addition then overflows; all it
  computes fits if and only if the limb is below 2^63 - 2^25 (`Field25519.CarryFits`), which is what `Field25519.Carry` asks.
- A comment in the inverse square root names the root of -1 where the code compares with its negation. The code is right:
  only so is the result what the comment above it promises (`KeyExchange.InvSqrt`).
- A handle carries 16 bits of a 32-bit generation, which is odd while an entry is live. A live registration stops resolving
  from generation 65537 on, that is, after 32768 registrations in the same entry (`ObjectTable.LiveHandleLost`);
  `ObjectTable.HandleResolves` gives the exact condition.
- A class or object name of 64 bytes or more is stored cut, and is never found again: every registration under it takes
  another of the 256 entries (`ObjectTable.Table.Register`).
- The router may never complete a request: one that a worker took in its idle loop is dropped if the actor unregisters
  before the worker looks at the mailbox again (`Router.ARequestCanBeLost`). In no other case is there a request that nobody
  holds and no worker has answered (`Router.ForgottenIff`).
- The reply channel of a mailbox is described as dedicated, but all its workers share it, and it is not emptied. A callback
  may get the reply to another worker's request (`Replies.RepliesCanBeSwapped`), or, with one worker alone, the reply to
  an earlier request, which was left behind when unregistering posted one too many (`Replies.AReplyCanBeStale`).
- The last locked section of a worker clears the running flag although another worker may have been started since. A
  submitter that then cannot start a worker may find its request already taken, and both run the callback
  (`Router.ACallbackCanRunTwice`).
- The last locked section of a router worker ignores a failure to create the next worker. If it was the last worker, the
  mailbox never gets another one (`Router.AMailboxCanGetStuck`, `Router.StuckStays`).
- A reaper that has no memory for a failure reply drops the call all the same; its caller then waits for ever
  (`PendingCalls.ACallerCanWaitForEver`, `PendingCalls.DroppedWaits`).
- When the channel-to-thread table is full, a new actor takes row 0, and the actor that was there is forgotten
  (`Reaper.PendingTable.PutRow`). A call to it that has not noted its thread yet is not failed when it dies
  (`Reaper.PendingTable.Sweep`).

Memory allocation, process creation, channel addresses, the clock and thread liveness are parameters or steps of the
models. Modelled failures are: every allocation of the views, a full pending table, a full edge table, a full ring, a full
object table, a refused submission, a worker that cannot be created, and a reaper without memory for its reply. Failures
that are not modelled are listed at the end.

## Model

| member | source | states |
|---|---|---|
| FileTree.RunsKeepInv | o9_filetree.c:228-523 | in every state of every run: the mount relation has no cycle, every mount source and registered tree exists, ids are unique and live, mount lists are before*, at most one replace, after* |
| FileTree.ChangeKeepsInv | o9_filetree.c:88-523 | each change, under the condition its operation checks, keeps that invariant |
| FileTree.CommitAcyclic | o9_filetree.c:441-517 | if the search refuses no planned mount, committing the plan creates no cycle, through planned or older mounts |
| FileTree.CheckExact | o9_filetree.c:441-511 | with at most 256 trees the check accepts a plan if and only if the graph after it is acyclic |
| FileTree.CommitKeepsInv | o9_filetree.c:509-518 | a checked commit keeps the whole invariant |
| FileTree.AddChildKeepsInv | o9_filetree.c:88-112 | a new entry under a name its directory does not have keeps the invariant |
| FileTree.NewTreeKeepsInv | o9_filetree.c:120-136 | a tree at an unused address keeps the invariant |
| FileTree.SetTextKeepsInv | o9_filetree.c:181-185 | new contents keep the invariant |
| FileTree.UnlinkKeepsInv | o9_filetree.c:212-220 | unlinking an entry without children keeps the invariant, its mounts staying in memory |
| FileTree.RegisterKeepsInv | o9_filetree.c:272-277 | registering a live tree under a free id keeps the invariant |
| FileTree.RevokeKeepsInv | o9_filetree.c:228-246 | closing a tree and dropping its registrations keeps the invariant |
| FileTree.DestroyKeepsInv | o9_filetree.c:337-390 | freeing a tree that is closed, unregistered and mounted by no entry of another tree, removed or not, keeps the invariant |
| FileTree.FindInFinds | o9_filetree.c:76-86 | the chain search finds a live entry of that name, or there is none in the chain |
| Graphs.SearchComplete | o9_filetree.c:441-460 | if the path-remembering search says no, there is no walk to the goal at all |
| Graphs.SearchSound | o9_filetree.c:441-460 | if it says yes and there are at most 256 nodes, there is one |
| Graphs.ReplaceKeepsAcyclic | o9_filetree.c:509-511 | changing the edges of one node adds no cycle if every new edge leads where the node cannot be reached from |
| FileStore.Store.constructor | o9_filetree.c:12-14 | the empty state satisfies the invariant |
| FileStore.Store.New | o9_filetree.c:120-136 | a new live tree of the caller's with an empty root, or nothing if there is no memory; everything else stays |
| FileStore.Store.Put | o9_filetree.c:163-193 | succeeds exactly for the owner of a live tree, with memory for the path and for a new entry, a resolvable path (`FileLaws.PlaceIff`) and a free or same-kind name; then the name leads to a new entry with the given contents, or to the old one with them, and every other name leads where it led; otherwise nothing changes |
| FileStore.Store.PutAt | o9_filetree.c:176-188 | the same for a resolved directory and name |
| FileStore.Store.AddEntry | o9_filetree.c:88-112 | the entry is listed by its tree and heads the chain its name hashes to |
| FileStore.Store.Remove | o9_filetree.c:199-226 | succeeds exactly for an entry without children, with memory for the path; then its name leads nowhere, the entry is marked, and every other name leads where it led |
| FileStore.Store.RemoveAt | o9_filetree.c:212-220 | the same for a resolved directory and name |
| FileStore.Store.RegisterTree | o9_filetree.c:258-280 | succeeds exactly for an owned live tree and a well-formed id nobody has |
| FileStore.Store.RevokeTree | o9_filetree.c:228-246 | the tree is dead and exactly its registrations are gone |
| FileStore.Store.DestroyTree | o9_filetree.c:337-390 | succeeds exactly for the owner of a tree that is closed, unregistered and mounted by no entry of another tree, and removes it and its entries |
| FileStore.Store.ApplySpecs | o9_filetree.c:462-523 | all or nothing: a failure, at whatever allocation or check, changes nothing; a success makes every list the in-order fold of its specifications (`FileLaws.AppliedNext`); with memory it succeeds exactly when all specifications are in order and no loop is found (`FileLaws.AcceptedIff`) |
| FileStore.FindEntry | o9_filetree.c:76-86 | the chain loop is the search function |
| FileStore.FindParent | o9_filetree.c:138-161 | the path loop yields the directory and last name, or nothing at a bad name or a non-directory |
| FileStore.FindTarget | o9_filetree.c:417-439 | the directory of the tree a specification names, if there is memory for the path; "." is the root and needs none |
| FileStore.WalkPath | o9_filetree.c:426-438 | the component loop is the recursive walk |
| FileStore.TargetMeans | o9_filetree.c:417-439 | a target is a live directory of that tree |
| FileStore.Resolve | o9_filetree.c:282-290 | finds exactly the tree registered under the id |
| FileStore.FindAfterAdd | o9_filetree.c:106-110 | after adding a child its directory finds it, and no other lookup changes |
| FileStore.FindAfterUnlink | o9_filetree.c:216-218 | after unlinking a child its directory finds nothing under its name, and no other lookup changes |
| FileStore.DropFirst | o9_filetree.c:216-217 | the list without the first occurrence |
| FileStore.NoChild | o9_filetree.c:213-215 | all 64 chains are empty |
| FileStore.KeepOthers | o9_filetree.c:237-244 | exactly the registrations of other trees remain, in order |
| FileStore.MountedElsewhere | o9_filetree.c:361-370 | whether an entry of another tree, removed or not, mounts the tree |
| FileStore.SearchTree | o9_filetree.c:441-460 | the nested loops over entries and planned or actual mounts decide the search on the graph after the commit |
| FileStore.AnyLoop | o9_filetree.c:509-511 | whether some planned mount is refused |
| FileStore.PlanSpecs | o9_filetree.c:475-508 | the plan is the fold of the specifications per target, or some specification is bad or memory ran out |
| FileStore.EditList | o9_filetree.c:488-507 | one edit: unmount empties, replace starts anew, before prepends, after appends |
| FileStore.CopyMounts | o9_filetree.c:392-407 | an equal list, or a failed allocation |
| FileStore.CommitPlans | o9_filetree.c:512-517 | exactly the planned lists are replaced |
| FileStore.PlanFolds | o9_filetree.c:475-517 | committing the plan gives every entry the in-order fold of the specifications that target it |
| FileStore.EditKeepsShape | o9_filetree.c:500-507 | every edit keeps before*, at most one replace, after* |
| FileStore.FoldedShape | o9_filetree.c:475-508 | so does any sequence of specifications, with sources that exist |
| FileWalk.Entries | o9_filetree.c:525-611 | a listing that succeeds has distinct names, and for every name walking finds exactly the listed entry or nothing; it succeeds exactly when every directory of the union can be opened, given memory |
| FileWalk.Collect | o9_filetree.c:568-593 | listing a directory extends a list by exactly what walking finds for the names it does not have, at any nesting depth |
| FileWalk.CollectIn | o9_filetree.c:577-591 | the same for the mounts on one side of a directory |
| FileWalk.AddOwn | o9_filetree.c:582-588 | the same for the directory's own 64 chains |
| FileWalk.ListAdd | o9_filetree.c:550-566 | the first entry of each name stays; names stay distinct |
| FileWalk.LookupFinds | o9_filetree.c:292-320 | walking returns a live entry of the name asked for |
| FileWalk.ChainFinds | o9_filetree.c:76-86 | in a chain the listing's first match is the search's match, and only the name's own chain has one |
| FileLaws.NameIff | o9_filetree.c:63-73 | a name is good if and only if it is not empty, "." or "..", and has no slash, delete or control character |
| FileLaws.FindIff | o9_filetree.c:76-86 | a directory has an entry under a name if and only if the entry is alive, has that name and the directory for its parent |
| FileLaws.ChildlessIff | o9_filetree.c:213-215 | the chains of a directory are empty if and only if no live entry has it for its parent |
| FileLaws.Splits | o9_filetree.c:138-161 | every path is a list of names without slashes, joined by slashes |
| FileLaws.SplitsOnce | o9_filetree.c:138-161 | and of only one |
| FileLaws.PlaceIff | o9_filetree.c:138-161 | Put and Remove work on the last name in the directory p, if and only if all names are good and directories lead from the root to p, each having the next under its name |
| FileLaws.TargetIff | o9_filetree.c:417-439 | a specification targets e, if and only if it is a dot and e the root, or directories lead from the root to e in that way |
| FileLaws.AppliedNext | o9_filetree.c:475-508 | one more specification: unmount leaves no mounts, mode 0 only the tree registered under the id, mode 1 that tree before the others, mode 2 after them; the lists of other targets stay |
| FileLaws.AppliedNothing | o9_filetree.c:475-518 | no specifications change nothing |
| FileLaws.AcceptedIff | o9_filetree.c:462-518 | with at most 256 trees a list is accepted from the owner if and only if every specification has a target and, unless it unmounts, one of three modes and a registered source, and the mounts it makes have no cycle |
| FileLaws.UnionAt | o9_filetree.c:292-320 | at any depth, what an open directory has under a name is what the first mount of mode 0 or 1 has that has it; else, without a mount of mode 0, its own child; else what the first mount of mode 2 has; any other directory has nothing |
| FileLaws.UnionDecides | o9_filetree.c:292-320 | that law leaves one answer |
| FileLaws.ReplacedHides | o9_filetree.c:300-311 | what a directory with a mount of mode 0 has under a name comes from one of its mounts |
| FileLaws.WalkUnion | o9_filetree.c:525-534 | with at most 64 trees the same law in terms of walking in the mounted trees themselves |
| FileLaws.DepthFree | o9_filetree.c:292-320 | with at most 64 trees the depth limit is never met |
| FileLaws.ListableIff | o9_filetree.c:568-593 | a directory can be listed if and only if every directory in its union, through mounts of mounts, is alive in a live tree and nested at most 64 deep |
| CallGraph.WaitGraph.constructor | o9_runtime.c:375-377 | no edges, no calls |
| CallGraph.WaitGraph.PathExists | o9_runtime.c:380-409 | the hop-bounded walk along first edges decides reachability exactly |
| CallGraph.WaitGraph.Begin | o9_runtime.c:414-478 | a call is refused exactly if the caller is reachable from the callee; an accepted one is recorded if there is room, and the graph stays acyclic with one edge per caller |
| CallGraph.WaitGraph.End | o9_runtime.c:480-504 | exactly the caller's edge goes |
| CallGraph.WaitGraph.ActorExit | o9_runtime.c:506-525 | exactly the edges that touch the actor go |
| CallGraph.WaitGraph.Purge | o9_runtime.c:513-523 | the in-place loop removes exactly those, keeping one edge per caller |
| CallGraph.HopsDecide | o9_runtime.c:380-409 | as many hops as there are edges decide reachability |
| CallGraph.AddKeepsAcyclic | o9_runtime.c:444-475 | an edge to an actor that does not reach the caller closes no cycle |
| CallGraph.SwapOutMeans | o9_runtime.c:495-502 | swapping with the last edge removes exactly one edge |
| CallGraph.NoRing | o9_runtime.c:379-525 | a ring of waiting actors contains a call the full table did not record, or one whose callee has exited |
| PendingCalls.RunsKeepInv | o9_runtime.c:4652-4942 | every state of every interleaving satisfies the protocol invariant |
| PendingCalls.StepKeepsInv | o9_runtime.c:4652-4942 | every step of caller, actor and reaper keeps it |
| PendingCalls.StepsAreSafe | o9_runtime.c:4652-4942 | no step uses a record that was freed or that belongs to another call than the one it is made for, and whoever sends a reply finds the channel empty |
| PendingCalls.TouchesChanges | o9_runtime.c:4652-4942 | a step changes no record but the one it touches or has just allocated |
| PendingCalls.CallerCanGo | o9_runtime.c:5776-5823 | in every reachable state a caller that has not returned can make its next step, unless it waits for a reply |
| PendingCalls.CallerAdvances | o9_runtime.c:5776-5823 | at most seven steps of its own take it to its return |
| PendingCalls.ActorCanGo | o9_runtime.c:4930-4942 | a live actor can make the next step of a call it was sent, until it has replied and dropped its reference |
| PendingCalls.ReaperKeepsItsCall | o9_runtime.c:4741-4806 | from taking a slot to dropping its reference the reaper's record stays allocated, to the call the slot was taken for |
| PendingCalls.CallsComplete | o9_runtime.c:5776-5823 | the count equals the holders; at most one reply, exactly one for a sent call that has returned, none for one that was never sent; the record is freed exactly when nobody holds it, once |
| PendingCalls.ResultIff | o9_runtime.c:4930-4936 | over every run: what a caller has received is what was sent to that very call, its actor's answer or the reaper's failure, and so is what is in its channel; it is an answer exactly if its actor has replied |
| PendingCalls.ReplyIff | o9_runtime.c:4789-4936 | over every run: a call's reply is on record exactly if its actor sent that answer, or the reaper, having taken its slot, the failure |
| PendingCalls.RepliedAnswers | o9_runtime.c:4930-4936 | an actor that has replied has sent an answer |
| PendingCalls.FailureNeedsDeath | o9_runtime.c:4741-4799 | the failure reply is sent only to calls of dead actors, so a call to an actor that lives never gets it |
| PendingCalls.WaitingIsServed | o9_runtime.c:4789-4806 | a waiting caller has its reply queued, or being sent, or an actor that is alive, or a slot the reaper can take, if and only if the reaper did not run out of memory when it failed that very call |
| PendingCalls.DroppedWaits | o9_runtime.c:4789-4799 | a caller that is not served waits for ever: no step of anyone changes that |
| PendingCalls.ACallerCanWaitForEver | o9_runtime.c:4789-4799 | a run in which that happens |
| PendingCalls.ReleaseKeepsInv | o9_runtime.c:4682-4697 | giving up a reference keeps the invariant; the record is freed exactly when its last holder lets go |
| PendingCalls.CallerTakeKeepsInv | o9_runtime.c:4868-4907 | taking a slot by its reply channel takes the call's own slot, and leaves none behind |
| PendingCalls.ActorTakeKeepsInv | o9_runtime.c:4930-4936 | so it does for the actor, which then holds the table's reference |
| PendingCalls.ReaperTakeKeepsInv | o9_runtime.c:4741-4785 | the reaper becomes the holder of a call to a dead actor |
| PendingCalls.OwnStepKeepsInv | o9_runtime.c:5776-5806 | retaining, sending, receiving and the actor's only reply keep the invariant |
| PendingCalls.ReaperTellsKeepsInv | o9_runtime.c:4789-4799 | so do the reaper's reply, which is the only one too, and a reaper without memory for it |
| PendingCalls.InsertKeepsInv | o9_runtime.c:4846-4862 | registering makes the table a holder |
| PendingCalls.NoRoomIff | o9_runtime.c:4846-4866 | a call is turned away if and only if 512 others are in the table |
| PendingCalls.CallerDropKeepsInv | o9_runtime.c:4863-4865 | a call that found no slot gives the table's reference back, and every caller its own in the end |
| PendingCalls.LocalKeepsInv | o9_runtime.c:4652-4942 | a step that concerns one call changes what no other call sees |
| Reaper.PendingTable.Sweep | o9_runtime.c:4732-4806 | threads may die during the sweep; every call pending on an actor that is dead, and whose row was present when the sweep began, is failed in it or completed by another process; a call to an actor whose thread is known is failed only if that thread has died by then; a call to an actor whose thread nobody knows is not failed, dead or not; the sweep ends, with one active slot fewer per pass, and leaves no call judged dead |
| Reaper.PendingTable.Pass | o9_runtime.c:4741-4785 | the first call judged dead is cleared, after every other call to the same channel has noted the thread |
| Reaper.PendingTable.NoteSiblings | o9_runtime.c:4774-4781 | exactly the active calls to the channel note the thread |
| Reaper.PendingTable.FailOne | o9_runtime.c:4741-4800 | a call is failed only if its actor is judged dead; the judgement of the watched calls survives the removal of the row; calls to a channel nobody knows stay untouched |
| Reaper.PendingTable.Round | o9_runtime.c:4741-4806 | the same when other processes complete calls and change rows before the next pass, and every round that fails a call leaves fewer of them |
| Reaper.PendingTable.RemoveRow | o9_runtime.c:185-201 | the channel has no thread any more, every other channel keeps its own |
| Reaper.PendingTable.PutRow | o9_runtime.c:160-183 | the channel has the thread; if the table was full, the channel of row 0 has none any more; every other channel keeps its own |
| Reaper.PendingTable.Register | o9_runtime.c:4826-4866 | the first free slot, or none if all are active; a registered actor's thread is noted at once |
| Reaper.PendingTable.Take | o9_runtime.c:4868-4894 | the first active slot with that reply channel is cleared, and only it |
| Reaper.TidForMeans | o9_runtime.c:203-219 | the lookup gives the thread of the channel's row, or 0 without one |
| Reaper.JudgedDead | o9_runtime.c:4744-4760 | a call is judged dead if and only if its channel's registered thread is dead, or, without a row, its own thread failed to start or has been noted and is dead |
| ObjectTable.Table.constructor | o9_runtime.c:7505-7510 | an unused table has no active entry |
| ObjectTable.Table.Register | o9_runtime.c:7512-7589 | while no name was cut, a key is found exactly if it is registered, and keeps its entry and handle; otherwise the first inactive entry is taken, in its next generation, unless all 256 are active; a name of 64 bytes or more is never found, and takes another entry each time; nothing else changes |
| ObjectTable.Table.Unregister | o9_runtime.c:7610-7642 | at most one entry of the key is retired, with its generation moved on; while no name was cut the key is bound no more; no other entry changes, and exactly its registration ends |
| ObjectTable.Table.Probe | o9_runtime.c:7528-7554 | probing past tombstones finds a key exactly when it is registered, while no name was cut, and otherwise a slot that keeps it findable |
| ObjectTable.Table.Init | o9_runtime.c:7522-7526 | the table starts without entries |
| ObjectTable.Table.FreeEntry | o9_runtime.c:7561-7572 | the first inactive entry, or all are active |
| ObjectTable.NotThere | o9_runtime.c:7528-7554 | a probe that meets no match up to an empty slot has met every candidate |
| ObjectTable.InsertKeeps | o9_runtime.c:7574-7586 | filling the first free slot keeps every key findable and no key twice |
| ObjectTable.RemoveKeeps | o9_runtime.c:7628-7638 | so does a tombstone |
| ObjectTable.AllSlotsUsed | o9_runtime.c:7556-7559 | no free slot means no inactive entry |
| ObjectTable.HandleResolves | o9_runtime.c:7591-7608 | until a generation wraps 32 bits, a handle resolves, to its own entry, exactly while its registration is live and its generation fits 16 bits |
| ObjectTable.LiveHandleLost | o9_runtime.c:7512-7642 | a run for every n: a key unregistered n times and registered once more is in generation 2 n + 1, and its handle resolves if and only if n is below 32768 |
| Ring.RingBuffer.constructor | o9.h:632-680 | equal counters are an empty queue, wherever they stand |
| Ring.RingBuffer.Submit | o9_runtime.c:7664-7676 | appends to a FIFO queue exactly if it has fewer than 64 elements, also across the wrap of the counters |
| Ring.RingBuffer.Consume | o9_runtime.c:7678-7690 | removes the oldest element exactly if there is one |
| Ring.RingBuffer.Len | o9_runtime.c:7692-7700 | the length of the queue |
| Router.RunsKeepInv | o9_runtime.c:7785-8020 | in every state of every interleaving of submitters, unregistration and any number of workers, with workers taking requests in the middle of locked sections and with process creation failing anywhere: a request is in one place at a time, its callback has run as often as its place says, and the lock's facts hold |
| Router.StepKeepsInv | o9_runtime.c:7785-8020 | every step keeps it |
| Router.NoLostWakeup | o9_runtime.c:7878-7884 | while the lock is free, a non-empty ring has a worker that has not been through its last locked section, if and only if no worker was ever the last to leave and unable to create the next; a closed mailbox has an empty ring |
| Router.RingIsFifo | o9_runtime.c:7664-7690 | over every run the ring holds the requests queued last, in order, so none leaves it before an older one; it never holds more than 64 |
| Router.WorkerCanGo | o9_runtime.c:7785-7885 | a worker that has not exited can make its next step, unless it waits for the lock or for a reply |
| Router.HolderCanGo | o9_runtime.c:7942-8020 | whoever holds the router lock can go on, and gives it back after finitely many steps |
| Router.CallbackCount | o9_runtime.c:7785-8020 | over every run: a callback has run once if nobody owes it any more, and once more exactly if its submitter could not start a worker and then found the ring empty; never three times |
| Router.AtMostOnce | o9_runtime.c:7972-7983 | no callback has run twice if and only if no such request has been answered |
| Router.OnceWhileStarted | o9_runtime.c:7964-7983 | while every submitter that needs a worker gets one, no callback runs twice |
| Router.ACallbackCanRunTwice | o9_runtime.c:7972-7983 | a run in which one does: a worker that is alive although the flag is clear takes the request before the failing submitter takes it back |
| Router.ForgottenIff | o9_runtime.c:7785-8020 | over every run: a request that no submitter, ring or worker has any more and whose callback no worker has run is one that a worker took in its idle loop before it found the mailbox closed, and the other way round |
| Router.ARequestCanBeLost | o9_runtime.c:7800-7813 | a run in which that happens |
| Router.AloneUndoes | o9_runtime.c:7964-7983 | if no worker is alive when a request is queued, nothing but the submitter touches the ring until a worker is started, so that a failure takes back that very request and runs its callback once |
| Router.StuckIff | o9_runtime.c:7878-7884 | over every run: the flag is set and no worker is alive, exactly if the last worker once left and could not create the next |
| Router.StuckStays | o9_runtime.c:7964-7985 | nothing ever gets the mailbox out of that state: no worker is started, and a queued request stays until the actor unregisters |
| Router.AMailboxCanGetStuck | o9_runtime.c:7878-7884 | a run that gets there |
| Router.DrainKeepsInv | o9_runtime.c:7988-8020 | unregistering calls back each queued request once, while workers may take some of them |
| Router.QueueKeepsInv | o9_runtime.c:7964-7974 | a request is queued, and a worker flagged for it, or it is called back at once if the ring is full |
| Router.TakeBackKeepsInv | o9_runtime.c:7974-7981 | taking back the request, or missing it, keeps the invariant |
| Router.MailedKeepsInv | o9_runtime.c:7841-7862 | launching, sending, receiving, the actor's answer and its exit keep the invariant |
| Replies.RunsBalance | o9_runtime.c:7841-8020 | over every run: the replies in the channel, the messages the actor has not answered and those it dropped are together as many as the waiting workers and the replies that unregistering posted; the channel never holds two |
| Replies.RunsKeepMail | o9_runtime.c:7848-7863 | over every run: a request is in at most one of the reply channel, the actor's queue and the dropped messages, and there once; a sent request is never in the ring again, and a worker waits only for one that was sent |
| Replies.OwnReply | o9_runtime.c:7841-8020 | over every run in which no two workers wait at once: a callback gets the reply to its own request if and only if its message was not dropped and as many messages were dropped as replies were posted |
| Replies.RepliesCanBeSwapped | o9_runtime.c:7848-7862 | a run in which two workers wait and one gets the other's reply |
| Replies.AReplyCanBeStale | o9_runtime.c:7841-8020 | a run with one worker in which a callback gets the reply to the request before it |
| Replies.AMessageCanBeDropped | o9_runtime.c:7848-7862 | a run in which the actor exits with a message unanswered: its worker waits, and no reply is on its way |
| Poly1305.Mac | monocypher.c:440-519 | the tag is the one of section 2.5 of RFC 8439 for every key and message |
| Poly1305.Authenticator.constructor | monocypher.c:440-448 | r is clamped, and nothing has been absorbed |
| Poly1305.Authenticator.Update | monocypher.c:450-483 | any split of the message absorbs the same |
| Poly1305.Authenticator.Final | monocypher.c:485-511 | the absorbed message, reduced, plus the pad modulo 2^128 |
| Poly1305.Authenticator.Finish | monocypher.c:485-494 | the padded last block counts as its bytes with a one above them |
| Poly1305.Authenticator.Blocks | monocypher.c:360-438 | absorbs whole blocks in order |
| Poly1305.Step | monocypher.c:360-438 | one block is (h + c) * r modulo 2^130 - 5, and leaves the top limb at most 4, without overflow |
| Poly1305.AddBlock | monocypher.c:384-393 | the block is added limb by limb, exactly |
| Poly1305.Multiply | monocypher.c:395-416 | the folded product is congruent to the product, within 64 bits |
| Poly1305.Reduce | monocypher.c:418-431 | the carries keep the residue and leave the top limb at most 4 |
| Poly1305.Excess | monocypher.c:497-504 | one exactly if the accumulator is at least 2^130 - 5 |
| Poly1305.AddPad | monocypher.c:505-509 | the bytes are accumulator plus 5 q plus pad modulo 2^128 |
| Poly1305.LoadR | monocypher.c:440-448 | the masked limbs are the clamped key |
| Poly1305.ProductFolds | monocypher.c:395-416 | replacing 2^130 by 5 in the product changes it by a multiple of 2^130 - 5 |
| Poly1305.TagMatches | monocypher.c:513-519 | the accumulator of any step function of r gives the RFC's tag |
| Field25519.Carry | monocypher.c:1261-1308 | carrying keeps the residue and restores the limb bounds, without overflow |
| Field25519.CarryFits | monocypher.c:1201-1308 | for all limbs within the documented bounds, everything the twelve carries compute fits 64 bits if and only if the first limb is below 2^63 - 2^25 |
| Field25519.CarryUp | monocypher.c:1261-1286 | the first eight carries keep the value |
| Field25519.CarryAround | monocypher.c:1287-1308 | the carry out of the top comes back times 19 |
| Field25519.Mul | monocypher.c:1417-1505 | the product modulo 2^255 - 19, from operands within the documented bounds, without overflow |
| Field25519.Sq | monocypher.c:1508-1568 | the square, by the doubled-limb formula |
| Field25519.MulSmall | monocypher.c:1393-1414 | the product with a 32-bit constant |
| Field25519.RowsValue | monocypher.c:1417-1505 | rows of rotated operands with the factors 19 and 2 add up to the product |
| Field25519.SquareRowsValue | monocypher.c:1508-1568 | the shortened rows of the square add up to the same |
| X25519.FromBytes | monocypher.c:1316-1333 | decodes the number modulo 2^255 - 19, ignoring the top bit |
| X25519.ToBytes | monocypher.c:1335-1384 | encodes the canonical representative |
| X25519.Normalise | monocypher.c:1344-1370 | the two carry chains yield the digits of the canonical representative |
| X25519.SignCarry | monocypher.c:1347-1360 | the first chain yields 0 or -1 as the element is negative or not |
| X25519.Pack | monocypher.c:1373-1380 | the eight words spell the same number |
| X25519.Add | monocypher.c:1129-1131 | the sum of carried elements is within the bounds a multiplication accepts |
| X25519.Sub | monocypher.c:1132-1134 | so is the difference |
| X25519.Step | monocypher.c:1773-1792 | one ladder step is that of section 5 of RFC 7748, and every multiplication in it meets its bounds |
| X25519.SameConstant | monocypher.c:1786-1792 | multiplying by 121666 and adding the other square is the RFC's 121665 form |
| X25519.Bit | monocypher.c:1765-1792 | the delayed swap of one bit |
| X25519.ScalarMult | monocypher.c:1749-1797 | the ladder over all bits is the RFC's, for every scalar, point and bit count |
| MontgomeryLadder.Doubles | monocypher.c:1773-1792 | a step doubles the first point: the formulas of the curve v^2 = u^3 + 486662 u^2 + u |
| MontgomeryLadder.Adds | monocypher.c:1773-1792 | and adds the two points, whose difference is the base point |
| MontgomeryLadder.LadderMultiplies | monocypher.c:1749-1797 | for any reading of pairs as multiples that such steps respect, the ladder ends with the multiple the bits of the scalar spell, and its successor |
| MontgomeryLadder.KeyMultiplies | monocypher.c:1813-1820 | so the key exchange ends with the multiple by the trimmed key |
| KeyExchange.Chain | monocypher.c:1651-1686 | the squarings and products compute the power (p - 5) / 8 |
| KeyExchange.InvSqrt | monocypher.c:1590-1711 | for every x: the verdict is "square" exactly if x is the square of some element; the square of the result times x is 1 for a square other than 0 and the root of -1 for a non-square; the result for 0 is 0 |
| KeyExchange.Twist | monocypher.c:1700-1705 | multiplying by the root of -1 negates the square |
| KeyExchange.IsEqual | monocypher.c:1580-1588 | elements are equal exactly if their residues are |
| KeyExchange.Invert | monocypher.c:1713-1728 | for every x: the result is the inverse of x, or 0 for 0, and is x to the power p - 2 |
| KeyExchange.FourthRoots | monocypher.c:1598-1649 | the power (p - 1) / 4 of x is 1 or -1 if the power (p - 1) / 2 is 1, and otherwise the root of -1 or its negation |
| KeyExchange.SquareIff | monocypher.c:1590-1649 | a number other than 0 is a square if and only if its power (p - 1) / 2 is 1 |
| KeyExchange.SharedSecret | monocypher.c:1749-1820 | the 32 bytes of the shared secret are those of section 5 of RFC 7748, for every key and point; the scalar is the key with bits 0, 1, 2 and 255 cleared and bit 254 set |
| Primality.Fermat | monocypher.c:1598-1649 | x to the power p - 1 is 1 modulo a prime p, for every x that p does not divide |
| Primality.Euler | monocypher.c:1598-1649 | x to the power (p - 1) / 2 is 1 or -1 modulo an odd prime p |
| FieldPrime.Prime255 | monocypher.c:1074-1080 | 2^255 - 19 is prime |
| OrderPrime.Prime253 | monocypher.c:1825-1831 | L is prime |
| ScalarModL.Product | monocypher.c:1836-1846 | the exact product of two numbers in 32-bit limbs, without overflow |
| ScalarModL.LowProduct | monocypher.c:3815-3825 | the product modulo 2^256 |
| ScalarModL.IsAboveL | monocypher.c:1848-1857 | one exactly if the number is at least L |
| ScalarModL.RemoveL | monocypher.c:1863-1871 | subtracts L exactly if the number is at least L |
| ScalarModL.Quotient | monocypher.c:1879-1893 | the Barrett quotient is at most one too small, for every number below 2^512 |
| ScalarModL.Subtract | monocypher.c:1894-1909 | the remainder before the last correction, exact although only eight limbs are computed |
| ScalarModL.Reduce | monocypher.c:1874-1915 | x mod L for every x below 2^512 |
| ScalarModL.BarrettBound | monocypher.c:1874-1893 | floor(x * floor(2^512 / L) / 2^512) leaves a remainder below 2 L |
| ScalarModL.Redc | monocypher.c:3796-3844 | for x below L * 2^256, a number below L that is x * 2^-256 modulo L |
| ScalarModL.ClearLow | monocypher.c:3815-3835 | x plus a multiple of L whose low half is 0 and whose high half is below 2 L |
| ScalarModL.MontgomeryQuotient | monocypher.c:3796-3840 | the low half of x + s L vanishes and the high half is below 2 L |
| ScalarModL.MulAddScalars | monocypher.c:1925-1939 | (a * b + c) mod L |
| ScalarModL.Exponentiate | monocypher.c:3875-3886 | square-and-multiply in Montgomery form computes the power |
| ScalarModL.MontgomeryMul | monocypher.c:3878-3885 | a Montgomery product |
| ScalarModL.InvertScalar | monocypher.c:3846-3892 | for every key, the inverse modulo L of the scalar with bits 0, 1, 2 and 255 cleared and bit 254 set, which is its power L - 2 |
| ScalarModL.TrimBits | monocypher.c:1730-1736 | trimming clears bits 0, 1, 2 and 255, sets bit 254, and keeps every other bit |
| ScalarModL.BitsDecide | monocypher.c:1738-1743 | the 256 bits say which scalar it is |
| ScalarModL.ExponentValue | monocypher.c:3848-3853 | the constant bytes spell L - 2 |
| SlidingWindow.CheckSum | monocypher.c:2506-2546 | the merged loop computes [h](-A) + [s]B in any abelian group, for all scalars below 2^253 |
| SlidingWindow.DoubleScalar | monocypher.c:2519-2546 | the same for any two window widths from 2 to 8 |
| SlidingWindow.Slide.constructor | monocypher.c:2439-2457 | the first check is one above the highest bit, and nothing is lost above it |
| SlidingWindow.Slide.Step | monocypher.c:2459-2482 | each digit is zero or odd and within its table, and the digits emitted so far with the pending one spell the recoded scalar |
| SlidingWindow.Slide.Check | monocypher.c:2461-2480 | a check moves on or opens a window, keeping that relation |
| SlidingWindow.Open | monocypher.c:2465-2478 | a window that starts where two bits differ is one odd digit at one position |
| SlidingWindow.WindowStep | monocypher.c:2465-2472 | a window moves the recoding down by its width |
| SlidingWindow.DigitOf | monocypher.c:2473-2478 | the three masks give the number of trailing zeros, and the shift the odd part |
| SlidingWindow.Finished | monocypher.c:2525-2546 | after position 0 the digits have spelled the scalar |
| SlidingWindow.BuildTable | monocypher.c:2506-2517 | the table holds the odd multiples |
| SlidingWindow.AddDigit | monocypher.c:2531-2544 | a signed digit adds its multiple |
| SlidingWindow.TimesAdd | monocypher.c:2531-2544 | multiples add up in any abelian group |
| Blake2b.Hasher.constructor | monocypher.c:621-641 | the stream starts with the padded key, if there is one |
| Blake2b.Hasher.Update | monocypher.c:647-712 | the message is appended to the stream; the buffer holds what is not compressed with zeros above it, and a full block waits for more input |
| Blake2b.Hasher.Finish | monocypher.c:714-723 | the first bytes of the digest of the stream, by the block schedule of section 3.3 of RFC 7693 |
| Blake2b.BytesMeans | monocypher.c:714-723 | eight bytes of a digest, lowest first, are one of its words |
| Blake2b.HashAll | monocypher.c:725-735 | the hash depends only on the key and the concatenation of the updates |
| Blake2b.Hasher.Compress | monocypher.c:546-552 | the two-word count with carry, and one call of the compression function |
| Blake2b.Hasher.AppendByte | monocypher.c:659-661 | or-ing a shifted byte into its word appends it, because the bytes above are zero |
| Blake2b.Hasher.LoadWords | monocypher.c:667-673 | whole words are stored where the buffer ends |
| Blake2b.Hasher.LoadBlock | monocypher.c:677-684 | a full buffer is compressed before a block replaces it |
| Blake2b.Hasher.Rest | monocypher.c:687-711 | words go to the start of the buffer only if it is empty |
| Blake2b.CounterAdds | monocypher.c:546-552 | the carry into the high word is exact below 2^128 |
| Blake2b.ChainPrefix | monocypher.c:647-712 | blocks already compressed do not depend on later input |
| Argon2.RefOk | monocypher.c:1010-1031 | the reference and the previous block are in range and have been filled, the reference block is neither the current nor the previous one, and in another lane never in the current slice |
| Argon2.RefLaneIs | monocypher.c:1010-1018 | the lane of the reference block is the upper half of the seed modulo the number of lanes |
| Argon2.RefPosIs | monocypher.c:1005-1031 | its position is the one that the lower half picks, counted from the end, from the reference set of section 3.4.2 of RFC 9106, listed segment by segment |
| Argon2.BlockRule | monocypher.c:972-1043 | in places of the work area: a block is made from the one before it in its lane, around the end, from the reference block and after the first pass from itself |
| Argon2.WindowFits | monocypher.c:1013-1022 | the 32-bit window size is the intended one, at least 1 |
| Argon2.SkipBound | monocypher.c:1024-1028 | the seed never skips the whole window |
| Argon2.ShapeIsOk | monocypher.c:903-905 | at least 8 blocks per lane give segments of at least two blocks, all within the work area |
| Argon2.SameBlock | monocypher.c:972-1043 | a block depends on nothing of the current slice outside its own lane |
| Argon2.OrderDoesNotMatter | monocypher.c:966-969 | however the lanes of a slice take turns, block by block, they leave what filling lane after lane leaves |
| Argon2.FillArea | monocypher.c:953-1048 | all passes and slices in place, over the set of positions written so far: it begins as the first two blocks of each lane, every block read is in it, and after one pass it is the whole area |
| Argon2.OnlyFirstBlocksMatter | monocypher.c:924-1048 | areas that agree on the first two blocks of each lane end up equal, whatever else they held |
| Argon2.Read | monocypher.c:976-1031 | a block is read only after it has been written |
| Argon2.FillPass | monocypher.c:954-1047 | the four slices of a pass, each begun when the one before is full |
| Argon2.FillSlice | monocypher.c:969-1045 | the lanes one after the other |
| Argon2.FillInPlace | monocypher.c:972-1043 | one block is written, from the previous and the reference block, and after the first pass from its old content |
| Argon2.FillSegment | monocypher.c:972-1044 | one lane's part of a slice |
| Argon2.TurnKeeps | monocypher.c:969-1044 | a lane at its turn writes what it would have written alone |

## Left out

- Exactly-once completion of router requests: the code does not give it; see `Router.CallbackCount` and `Router.ForgottenIff`.
- Group laws of the curve, point decoding and the precomputed point tables: `SlidingWindow.CheckSum` takes any abelian group and a table of odd multiples.
- The mixing inside the BLAKE2b compression function and Argon2's block permutation: parameters of the models, as is the BLAKE2b parameter block.
- Constant-time behaviour and wiping: the masked swap of the ladder and of RemoveL are conditional ones with the same result.
- Field25519.Mul: the ten sums of products are accumulated row by row instead of column by column, which regroups exact integer sums.
- Blake2b.Hasher.Update: asks for fewer than 2^128 bytes in all, the limit of RFC 7693, so that the count never wraps.
- ObjectTable.Table.Probe: for every hash function, not for the particular one.
- FileStore.FindEntry: which of its 64 chains an entry is in is left to the hash function; it decides the order of a listing, about which nothing is said.
- CallGraph.NoRing: calls that the full edge table did not record are excluded, as are actors with two calls outstanding.
- Reaper.PendingTable.Sweep: other processes run between passes, complete calls and change rows, but register no call and leave the row of the watched channel.
- PendingCalls.CallsComplete: spawned tasks, which share the table, are not modelled; nor is a reaper that cannot be started at all.
- Router.RunsKeepInv: the completion ring is not modelled, nor the message record that a worker uses again for its next request; the actor answers its messages in order, and a failing submission's callback runs in the step that takes the request back.
- Replies.OwnReply: with two workers waiting at once there is no exact condition; `Replies.RepliesCanBeSwapped` shows what happens then.
- Argon2's initial hash, the first two blocks of each lane and the final hash: the area is taken with those blocks in place, and its last blocks are not combined.
- Channels, locks, the allocator and processes are primitives with their obvious semantics.
- 64-bit wrap-around of the entry ids of the trees.
- Journals, tabula files, 9P plumbing, namespace operations, strings, slices and the compiler: no properties of comparable depth.
