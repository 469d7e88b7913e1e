# Verified model of the Zydon microkernel's concurrent and pointer code

Zydon is a small microkernel. This project models the parts of it whose correctness is hardest to see
from the code, and proves what they keep over every run:

- the Chase-Lev work-stealing deque of the scheduler, with growth and batch stealing;
- three channels: the single-producer single-consumer message ring, the oneshot channel, the bounded channel;
- the handle table with its generations and free list, rights, and reference-counted objects, over any
  number of tables;
- the wait queue, an intrusive doubly linked list kept sorted by priority;
- the run queue, 32 intrusive first-in-first-out levels under an occupancy word, and the executor that
  drains it and polls tasks, with the state machine that cores and wakers race over;
- multi-word bitmap operations.

## How it is built

Concurrent code appears twice. A *machine* (`StealDeque`, `RingProtocol`, `ChannelProtocol`, `Oneshot`,
`TaskProtocol`) has one action for every atomic load, store or compare-and-exchange and for every slot
access, and its theorems quantify over all sequences of actions of all parties. The *source form*
(`WorkStealing`, `IpcRing`, `Channels`, `OneshotChannel`, `Executor`, `TaskControl`) is the code itself as
classes whose methods update fields. Around every access it calls an environment method (`ThievesAct`,
`OthersAct`, `OtherSideActs`, `OtherActs`, `OthersWake`, `MayBeWoken`) whose contract is "any run of the
other parties"; the body of such a method does nothing, which is one such run, and callers know only the
contract. A ghost copy of the machine follows the fields, so every real step is shown to be a machine step.
Many of these methods take a ghost flag `alone`. When it is set the environment does nothing, and the
contract says in full what the call does by itself; the code cannot see the flag, so it does the same work
in every other case. Effects outside the model (a waker fired, a box freed, a queue told to wake one) are
counted or listed in a field.

In the deque a thief may commit a batch although a pop has reached into its range; such a batch is not
*steady*, and no plain sequence need explain what it returns. The environment of `WorkStealing` takes such
steps like any others. Its methods keep a ghost `history` of all actions, and `steady`, which says
whether every batch in it was. What an operation does to the machine, to the owner's events and to what
each thief took holds in any case; that the trace is a run of a plain sequence, and with
`StealDequeProofs.ExactlyOnce` that nothing is lost or doubled, holds as long as `steady` does. Two
conditions known before any call keep it so: no thief offers room for more than one value, or the owner
never pops (`StealDequeRace.CalmRunIsSteady`).

In the world of handle tables `ObjectWorld.Run` mentions the invariant because the step function is
defined only where it holds; `ObjectWorld.RunExtends` shows that this filters out no run.

Code under a spinlock is one step per critical section: the handle table (`HandleTable` on values,
`HandleTableProofs` and `ObjectWorld` for its laws, `KernelObjects` as classes proved against the values),
the wait queue and the run queue (`WaitQueue`, `RunQueue`: node classes with a ghost sequence, both proved
to hold a stable sort of what has arrived, `StableSort`).

| file | contents |
|---|---|
| `Options.dfy` | optional values |
| `CircularBuffer.dfy` | index masking and slots of circular storage, shared by the deque and the channels |
| `Numbers.dfy` | minimum, and sums over sequences |
| `StealDeque.dfy`, `StealDequeProofs.dfy`, `StealDequeSound.dfy`, `StealDequeRace.dfy` | deque machine, its safety, what unsteady batches leave intact, and when exactly there are none |
| `WorkStealing.dfy` | the deque's source form |
| `Traces.dfy` | one party's part of a trace, and runs of a specification along one |
| `BoundedFifo.dfy` | the bounded queue that the ring and the channel refine |
| `RingProtocol.dfy`, `IpcRing.dfy` | message ring: machine, source form |
| `ChannelProtocol.dfy`, `Channel.dfy` | bounded channel: machine, source form |
| `Oneshot.dfy`, `OneshotChannel.dfy` | oneshot: machine, source form |
| `Words.dfy` | machine words as numbers: halves, carries, wrap-around |
| `Rights.dfy`, `HandleTable.dfy`, `HandleTableProofs.dfy`, `ObjectWorld.dfy`, `KernelObjects.dfy` | rights, handle table, reference counts |
| `StableSort.dfy`, `WaitQueue.dfy` | stable sorting, wait queue |
| `Occupancy.dfy`, `RunQueue.dfy` | occupancy word, run queue |
| `TaskProtocol.dfy`, `TaskControlBlock.dfy`, `Executor.dfy` | task state machine, task control block, executor |
| `Bits.dfy` | bitmaps |

`dafny verify dfyconfig.toml` checks everything.

## Where the code and its documentation disagree

The model follows the code. Each of these is a proved lemma or visible in a contract.

- `steal_batch` is said to steal half; it takes everything available up to its limits
  (`StealDequeProofs.BatchSize`). A pop that reaches into a batch takes an element without a
  compare-and-exchange, and the batch then hands it out again (`StealDequeRace.BatchCanDuplicate`). The
  values are conserved in every run if and only if output slices hold at most one element or the owner
  never pops (`StealDequeRace.ConservesIffShortOrNoPops`).
- Oneshot `send` is documented to fail when the receiver is gone; it never does
  (`OneshotChannel.SharedBox.Send`). When the sender is dropped
  unsent, a receiver that registered after the drop's load is never woken (`Oneshot.DropCanLoseWake`).
- `transfer` is documented to move a handle out of `self`; it searches whichever table has the lower
  address (`HandleTableProofs.TransferDirection`).
- `close` is documented to fail on an invalid handle. On the handle an empty slot would issue next it
  succeeds and changes nothing, even if that handle was never issued (`HandleTableProofs.CloseNeverIssued`);
  it rejects every handle that is not live exactly if the table is full
  (`HandleTableProofs.CloseRejectsInvalidIffFull`).
- `HandleTable::new(0)` sets its free head to slot 0, which does not exist (`HandleTable.FreshWellFormed`).
- `wake_all` is commented to wake in batches; wakers beyond the 64th are dropped unfired
  (`WaitQueue.AllWokenIff`).
- The executor and the task states allow for a future that parks its own task. No code in the repository
  does that, and if some did, two cores could be polling it at once (`TaskProtocol.SafeIffNeverParks`,
  `TaskProtocol.TwoInside`).
- The run queue does not check whether a task is already on it. Linking it to its level again leaves no
  list at all (`RunQueue.LevelQueue.Push`); linking it to another level breaks the old one unless it was the
  last there (`RunQueue.RunQueue.Enqueue`).
- Priority levels and decay are said to favour tasks that wait for I/O. A core pushes what it drains from
  its run queue, highest level first, on the end of the deque that it then pops, so it polls the newest of
  the lowest level first (`Executor.Executor.NextTask`). A task whose quantum expires goes back on that
  end, and is polled again at once however low its priority has decayed (`Executor.Executor.RunAlone`).
- The channel's `closed` flag is never set, so no operation ever reports a closed channel.

## Model

| member | source | states |
|---|---|---|
| CircularBuffer.MaskIsModulo | task/stealer.rs:52-60 | masking an index with capacity - 1 is reduction modulo the capacity, for every index and every power of two |
| CircularBuffer.PutElsewhere | task/stealer.rs:62-66 | writing one index leaves every other index within one capacity of it alone |
| StealDequeProofs.StepRefines | task/stealer.rs:90-236 | from every consistent state every atomic action of owner and thieves leaves top no lower; every one but the commit of an unsteady batch, into whose range the owner's end has come, keeps the invariant and is one step of a plain sequence: push appends, a successful pop removes the last, a successful steal the first, pop reports nothing only on an empty sequence, a failed steal changes nothing |
| StealDequeProofs.OwnerRefines | task/stealer.rs:90-176 | each owner action, growth included, takes effect on the sequence at one point although thieves move top at any moment |
| StealDequeProofs.CommitTakesOldest | task/stealer.rs:188-200 | a thief whose compare-and-exchange succeeds holds the value now at index top, although it read the slot earlier and pushes, wrap-around and growth may have come between |
| StealDequeProofs.RunRefines | task/stealer.rs:90-236 | in every interleaving top never decreases; one whose batches are all steady is a run of a plain sequence and keeps the invariant |
| StealDequeProofs.ExactlyOnce | task/stealer.rs:90-204 | from a new deque, in every interleaving whose batches are all steady: pushed = returned + held by a decided pop + still in the deque, as multisets |
| StealDequeRace.SingleStealsExactlyOnce | task/stealer.rs:90-204 | every interleaving of push, pop, growth and single steals, with no condition, conserves the pushed values and is a run of a plain sequence |
| StealDequeProofs.SteadyCommit | task/stealer.rs:226-235 | a batch commit whose range the owner's end never entered removes exactly its n elements from the front |
| StealDequeProofs.BatchTakesOldest | task/stealer.rs:207-236 | a successful steal_batch takes exactly the n = min(available, out.len(), 128) oldest elements in order, each taken by nobody else, when bottom stays at or above t + n from its load on, under any pushes, growth and any activity of other thieves, their unsteady batches included |
| StealDequeSound.StepSound | task/stealer.rs:90-236 | every atomic action of owner and thieves, the commits of unsteady batches included, keeps the indices in use consistent with the buffer, a copy for growth faithful, and top monotone |
| StealDequeSound.IndicesInRange | task/stealer.rs:90-236 | in every interleaving no slot is accessed at a negative index, a push writes only where there is room, and bottom stays within one capacity of top |
| StealDequeRace.BatchCanDuplicate | task/stealer.rs:119-142 | a run with one batch of room 2 on which the owner pops an element of the batch and the batch returns it again, for any two values |
| StealDequeRace.ConservesIffShortOrNoPops | task/stealer.rs:119-142 | for every bound r on the length of out, and whether or not the owner may pop: all runs of the code conserve the pushed values if and only if r <= 1 or there are no pops |
| StealDequeRace.CalmRunIsSteady | task/stealer.rs:207-236 | under that condition every batch of every run is steady, so that RunRefines and ExactlyOnce apply |
| WorkStealing.DequeBuffer.Get | task/stealer.rs:56-60 | reads the slot of an absolute index |
| WorkStealing.DequeBuffer.Put | task/stealer.rs:62-66 | changes just the slot of an absolute index |
| WorkStealing.DequeInner.constructor | task/stealer.rs:79-86 | a new deque has capacity 64, is empty, and its history is empty |
| WorkStealing.DequeInner.Push | task/stealer.rs:90-108 | under any thief activity, adds exactly one Pushed event to what the owner has done and the value to those pushed; the trace is a run of a plain sequence while all batches are steady |
| WorkStealing.DequeInner.Grow | task/stealer.rs:158-176 | doubles the capacity and keeps the value at every index from t to b, while thieves run, unsteady batches included |
| WorkStealing.DequeInner.Pop | task/stealer.rs:111-148 | under any thief activity, adds exactly one event, Popped of the value returned or PoppedNothing; while all batches are steady that value was last in the sequence, or the sequence was empty |
| WorkStealing.DequeInner.PopLast | task/stealer.rs:122-139 | under any thief activity, the last element goes to whoever wins the compare-and-exchange on top |
| WorkStealing.DequeInner.Steal | task/stealer.rs:182-204 | under any activity of the others: a value returned is the one the thief's event took, at the front of the sequence while all batches are steady; None only if bottom was at most the top loaded when it was loaded, or top has moved since; alone, it takes the front and reports None exactly on an empty deque |
| WorkStealing.DequeInner.StealBatch | task/stealer.rs:207-236 | under any activity of the others: what is written to out[..r] is what the thief's event took, r is min(bottom loaded - top loaded, out.len(), 128) or 0, and 0 with room only if there was nothing or top has moved since; if all other batches are steady this one is too, if and only if it took nothing or the owner's end never came below its range before the commit, which room for one value guarantees; alone, it takes exactly the min(available, out.len(), 128) oldest values |
| WorkStealing.ThievesKeepOwner | task/stealer.rs:182-236 | no run of thieves, from any state, changes the owner's view beyond top or adds to the owner's events |
| WorkStealing.OthersKeepThief | task/stealer.rs:90-236 | no run of others, from any state, changes a thief's locals or adds to what it has taken |
| RingProtocol.StepRefines | ipc/ring_buffer.rs:67-114 | every atomic action of producer and consumer is one step of a bounded queue; Full and Empty are reported only when it is full and empty |
| RingProtocol.NeverSpinsNeverLoses | ipc/ring_buffer.rs:71-109 | the wait for the occupied mark leaves on its first check, the message taken is there and is the oldest, the slot written is free, and capacity - (head - tail) does not wrap |
| RingProtocol.FifoInEveryInterleaving | ipc/ring_buffer.rs:67-114 | in every interleaving the messages received are a prefix of those sent and at most capacity are queued |
| IpcRing.SpscRing.constructor | ipc/ring_buffer.rs:43-64 | a new ring is empty |
| IpcRing.SpscRing.TrySend | ipc/ring_buffer.rs:67-89 | adds exactly one Sent or Full to what the producer has done, under any consumer activity |
| IpcRing.SpscRing.TryRecv | ipc/ring_buffer.rs:92-114 | adds exactly one Received or Empty, and never returns None for a message that was there |
| IpcRing.SpscRing.Drain | ipc/ring_buffer.rs:131-136 | dropping the ring takes out every queued message once, in order |
| ChannelProtocol.StepRefines | primitives/channel.rs:126-212 | every atomic action of one sender and one receiver is one step of a bounded queue, for any positive capacity and with the length counted apart from the positions |
| ChannelProtocol.ClaimsAreFree | primitives/channel.rs:137-147 | the slot claimed by a send holds no live value, the one claimed by a receive holds the oldest, and len stays between 0 and the capacity |
| ChannelProtocol.FifoInEveryInterleaving | primitives/channel.rs:126-286 | in every interleaving values are received in the order sent, none lost or duplicated |
| Channels.ChannelInner.constructor | primitives/channel.rs:23-41 | a new channel is empty and open |
| Channels.ChannelInner.TrySend | primitives/channel.rs:126-155 | adds exactly one Sent or Full, and one call of wake_one for the receivers exactly if it sent; never reports Closed; alone, it sends exactly if there is room |
| Channels.ChannelInner.TryRecv | primitives/channel.rs:258-286 | adds exactly one Received or Empty, and one call of wake_one for the senders exactly if it received; never reports Closed; alone, it receives exactly if there is a value |
| Channels.ChannelInner.PollSend | primitives/channel.rs:181-227 | Ready exactly when the value went in; otherwise the future keeps it, is registered and has left its waker; it is linked when it first parks and, once woken, not again; alone, Ready exactly if there is room |
| Channels.ChannelInner.PollRecv | primitives/channel.rs:299-369 | Pending only after finding the channel empty twice, registered in between; unless the other side takes the node out meanwhile, a pending future has left its waker and is linked when it first parks; Ready leaves no node linked; alone, Ready exactly if there is a value |
| Channels.Waiting.Park | primitives/channel.rs:214-224 | the waker is replaced every time, the node linked only the first |
| Oneshot.StepKeeps | primitives/oneshot.rs:108-243 | every atomic action of both parties keeps the protocol invariant |
| Oneshot.DeliversOnce | primitives/oneshot.rs:108-243 | in every interleaving the value is delivered at most once and is the one sent, Closed only for a sender dropped unsent, no unreachable! is reached, the send loop runs at most twice |
| Oneshot.FreedOnce | primitives/oneshot.rs:63-80 | the box is freed exactly once, when both parties are through, and has no holder then |
| Oneshot.SendWakesReceiver | primitives/oneshot.rs:118-142 | no lost wake-up on send: the waker of a poll left Pending on a READY channel has been fired or is about to be, whatever re-polls replaced |
| Oneshot.DropWakesIffWaiting | primitives/oneshot.rs:151-169 | over every run in which the sender is dropped unsent: once it is through the channel is closed, and a receiver left Pending has been woken if and only if the state was WAITING at the load in the drop |
| Oneshot.DropWakesWaiting | primitives/oneshot.rs:151-169 | over every run, a receiver waiting when the sender is dropped has been woken once the sender is through |
| Oneshot.DropCanLoseWake | primitives/oneshot.rs:165-167 | a run on which it is not woken |
| OneshotChannel.SharedBox.Send | primitives/oneshot.rs:108-148 | always returns Ok, also with the receiver gone; ends with the value published or consumed and a receiver left pending on it woken; its loop terminates after two rounds |
| OneshotChannel.SharedBox.TryPublish | primitives/oneshot.rs:118-146 | a round fails only as the first one, when the receiver registered in between |
| OneshotChannel.SharedBox.FireWaker | primitives/oneshot.rs:135-140 | fires exactly the stored waker |
| OneshotChannel.SharedBox.DropSender | primitives/oneshot.rs:151-169 | under any receiver activity: ends with the channel closed; a receiver left pending has been woken if and only if the state loaded was WAITING, as it is whenever it was WAITING at the call |
| OneshotChannel.SharedBox.PollRecv | primitives/oneshot.rs:189-243 | under any sender activity: READY at the call gives the value sent, CLOSED gives Closed, and Pending leaves the state WAITING with this poll's waker stored |
| OneshotChannel.SharedBox.Release | primitives/oneshot.rs:71-79 | gives up one reference: the count is that of the remaining holders, and the box has been freed once exactly if there are none |
| Rights.DowngradeIsMeet | object/rights.rs:40-67 | downgrade is the greatest set of rights below both arguments |
| Rights.ContainsIsInclusion | object/rights.rs:40-42 | one mask contains another exactly if every bit set there is set here |
| Rights.ContainsAntisymmetric | object/rights.rs:40-42 | masks that contain each other are equal |
| Rights.MayDuplicate | object/handle.rs:143-145 | containing DUPLICATE is having bit 4 |
| Rights.MayTransfer | object/handle.rs:231-233 | containing TRANSFER is having bit 5 |
| Rights.IntersectionHas | object/rights.rs:50-52 | intersection has exactly the bits both have |
| Rights.UnionHas | object/rights.rs:55-57 | union has exactly the bits either has |
| Rights.DifferenceHas | object/rights.rs:60-62 | difference has exactly the bits of the first that the second has not |
| Rights.IntersectsIfShared | object/rights.rs:45-47 | two masks intersect exactly if they share a bit |
| Rights.ContainsTransitive | object/rights.rs:40-42 | containment is transitive |
| Rights.DifferenceSplits | object/rights.rs:44-62 | difference and intersection split a set of rights |
| HandleTable.Pack | object/handle.rs:21-31 | index and generation of a packed handle are those packed |
| HandleTable.PackBits | object/handle.rs:25-31 | (generation << 32) or index, as the code computes it on words, is the packed number |
| HandleTable.UnpackBits | object/handle.rs:25-31 | the mask with 2^32 - 1 and the shift by 32 yield the index and the generation of any 64-bit handle |
| HandleTable.BumpBits | object/handle.rs:185 | the next generation is the 32-bit word plus one, wrapping |
| HandleTable.HandleIsItsParts | object/handle.rs:21-31 | a handle is determined by its two parts |
| HandleTable.FreshWellFormed | object/handle.rs:61-79 | a new table is well formed if and only if its capacity is at least one and fits 32 bits |
| HandleTableProofs.AllocWellFormed | object/handle.rs:85-97 | taking a slot keeps the free list acyclic, duplicate-free and through exactly the empty slots, and the counts |
| HandleTableProofs.FreeWellFormed | object/handle.rs:183-191 | freeing a slot keeps them too |
| HandleTableProofs.CreateAgrees | object/handle.rs:82-98 | create adds one fresh handle to the plain map, or fails as full and changes nothing |
| HandleTableProofs.DuplicateAgrees | object/handle.rs:118-164 | duplicate adds a handle for the same object with the bitwise and of the rights; AccessDenied exactly for a live handle without bit 4, each other error exactly in its case, changing nothing |
| HandleTableProofs.CloseAgrees | object/handle.rs:167-194 | close removes exactly that handle, or changes nothing; on a handle that is not live it succeeds exactly if that is the next handle of an empty slot |
| HandleTableProofs.CloseRejectsInvalidIffFull | object/handle.rs:166-194 | close fails on every handle that is not live if and only if the table is full |
| HandleTableProofs.CloseNeverIssued | object/handle.rs:183-193 | on a new table, close of a handle that was never issued succeeds |
| HandleTableProofs.ClosedEmptyIssuedIffWrapped | object/handle.rs:178-193 | a handle close accepts on an empty slot was issued before if and only if the slot was emptied 2^32 times |
| HandleTableProofs.MoveAgrees | object/handle.rs:213-263 | a transfer moves exactly one entry from the table searched to the other; AccessDenied exactly for a live handle without bit 5, each other error exactly in its case, changing neither |
| HandleTableProofs.TransferAgrees | object/handle.rs:198-264 | transfer in either address order, said of the maps of self and dest: one entry leaves the table at the lower address for the other, or nothing changes |
| HandleTableProofs.TransferDirection | object/handle.rs:203-216 | transfer does that from self to dest, for all tables and handles, if and only if self is at the lower address |
| HandleTableProofs.ReissuedIffWrapped | object/handle.rs:93-97 | the next handle issued was issued before if and only if its slot was emptied 2^32 times |
| HandleTableProofs.RetiredIsRefused | object/handle.rs:107-110 | a handle whose generation is over is refused by get, duplicate, close and transfer |
| ObjectWorld.StepKeeps | object/handle.rs:82-264 | every operation on any table keeps all tables, their maps, their histories and all reference counts consistent |
| ObjectWorld.StepIsTableOp | object/handle.rs:82-264 | each step leaves every table as the operation on handle tables does; create takes over one outside reference, get hands one out to a live handle, nothing else changes how many there are but clone and drop |
| ObjectWorld.MoveKeeps | object/handle.rs:236-263 | a transfer in either direction conserves, for every object, the number of entries naming it |
| ObjectWorld.MoveConserves | object/handle.rs:236-263 | a transfer in either direction, failing or not, conserves the multiset of (object, rights) over all tables |
| ObjectWorld.FullMoveIsNoOp | object/handle.rs:238-244 | the clone made for a transfer into a full table is dropped again |
| ObjectWorld.RefcountsExact | object/kernel_object.rs:48-59 | over every run, refcount = outside references + entries naming the object, and on_destroy ran at most once, exactly when nothing names it |
| ObjectWorld.TablesAgree | object/handle.rs:82-264 | over every run, each table agrees with its plain map and no entry's rights have a bit that those of the create it descends from have not |
| ObjectWorld.NeverIssuedTwice | object/handle.rs:82-98 | over every run, a handle is issued again only after 2^32 reuses of its slot, and then indeed |
| ObjectWorld.EmptyingRetires | object/handle.rs:183-191 | closing or moving out a handle retires it |
| ObjectWorld.RetiredForever | object/handle.rs:100-110 | a retired handle is refused in every later state until its slot's counter wraps |
| ObjectWorld.TakenOutRefusedForever | object/handle.rs:166-264 | after a close or outgoing transfer of a live handle, its table refuses it in every later state of every run until the slot's counter wraps |
| KernelObjects.ObjectHeader.DropRef | object/kernel_object.rs:147-154 | drops one reference and destroys the object with the last |
| KernelObjects.HandleTable.constructor | object/handle.rs:61-79 | builds the table of the model, well formed exactly for capacities from 1 |
| KernelObjects.HandleTable.Create | object/handle.rs:82-98 | is create on the values; on a full table the reference handed in is dropped |
| KernelObjects.HandleTable.Get | object/handle.rs:101-114 | returns a clone and the rights of a live handle, and nothing otherwise |
| KernelObjects.HandleTable.Duplicate | object/handle.rs:118-164 | is duplicate on the values; one more reference exactly on success |
| KernelObjects.HandleTable.Close | object/handle.rs:167-194 | is close on the values; one reference fewer exactly for a live handle |
| KernelObjects.HandleTable.MoveTo | object/handle.rs:213-263 | is the move on the values; the reference count comes out unchanged in every case |
| KernelObjects.HandleTable.Transfer | object/handle.rs:198-264 | is transfer on the values, in the direction the addresses decide; the reference count comes out unchanged |
| StableSort.InsertIsStable | primitives/wait_queue.rs:107-133 | inserting behind all items of at least the priority keeps a stable sort of the arrivals |
| StableSort.RemoveIsStable | primitives/wait_queue.rs:136-161 | removing an item leaves a stable sort of the remaining arrivals |
| StableSort.FrontIsOldestOfHighest | primitives/wait_queue.rs:163-194 | the front of a stable sort is the oldest item of the highest priority |
| StableSort.DrainedIsStableSort | task/executor.rs:83-87 | taking out the oldest of the highest until nothing is left is a stable sort |
| WaitQueue.WaitQueue.constructor | primitives/wait_queue.rs:73-81 | a new queue is empty |
| WaitQueue.WaitQueue.Enqueue | primitives/wait_queue.rs:84-133 | the list stays a doubly linked list through exactly the waiting nodes; the node goes behind all nodes of at least its priority; len and linked agree |
| WaitQueue.WaitQueue.SortForward | primitives/wait_queue.rs:107-129 | the adjacent-swap loop terminates with the node in its place and all other nodes in their order |
| WaitQueue.WaitQueue.SwapForward | primitives/wait_queue.rs:111-126 | rewriting the links swaps exactly two neighbours |
| WaitQueue.WaitQueue.Remove | primitives/wait_queue.rs:136-161 | takes exactly that node out from anywhere and clears its links; an unlinked node is left alone |
| WaitQueue.WaitQueue.WakeOne | primitives/wait_queue.rs:164-194 | unlinks the oldest node of the highest priority and fires its waker, reporting whether it had one |
| WaitQueue.WaitQueue.WakeAll | primitives/wait_queue.rs:197-227 | unlinks every node, leaves an empty queue, and fires exactly the first 64 wakers in queue order |
| WaitQueue.AllWokenIff | primitives/wait_queue.rs:239-262 | with a waker in every node, the first 64 are woken in order and no other, so that everyone is if and only if at most 64 were waiting |
| WaitQueue.PresentOne | primitives/wait_queue.rs:215-217 | a node contributes its waker, if it has one |
| WaitQueue.PresentConcat | primitives/wait_queue.rs:202-220 | the wakers collected are those of all nodes that have one, in queue order |
| Occupancy.HighestLevel | task/run_queue.rs:121-122 | 31 minus the leading zeros is the highest level whose bit is set |
| Occupancy.ZeroIffNone | task/run_queue.rs:116-119 | the word is zero exactly when no level's bit is set |
| RunQueue.LevelQueue.Push | task/run_queue.rs:53-64 | appends to the intrusive list; the level is a list afterwards if and only if the task was not on it |
| RunQueue.LevelQueue.Pop | task/run_queue.rs:67-80 | takes the front off the intrusive list and clears its link |
| RunQueue.PriorityToLevel | task/run_queue.rs:151-154 | priorities from -16 to 15 map one to one, those above to level 31, those below to level 0 |
| RunQueue.RunQueue.constructor | task/run_queue.rs:84-98 | a new run queue is empty |
| RunQueue.RunQueue.LenAndOccupancy | task/run_queue.rs:20-27 | len is the sum of the level counts, and a level's bit is set exactly when it is not empty |
| RunQueue.RunQueue.Enqueue | task/run_queue.rs:101-112 | the arrival goes last on the level of its priority, and length and occupancy word are right in every case; all 32 levels are lists afterwards if and only if the task was not on this level, nor on another anywhere but last; a level that is not a list any more is no list of any tasks; the queue as a whole is consistent if and only if the task was not queued |
| RunQueue.RunQueue.Dequeue | task/run_queue.rs:115-137 | takes the arrival that is oldest on the highest level, None only when empty, and never retries |
| Executor.Executor.DrainRunQueue | task/executor.rs:83-87 | empties the run queue and pushes the stable sort of its arrivals by descending enqueue-time level, and there is only one |
| Executor.Executor.NextTask | task/executor.rs:66-71 | with nobody stealing meanwhile, the task a core polls after draining arrivals is the newest of those of the lowest level; with no arrivals it is the one last pushed on its deque; None only when both are empty |
| Executor.Executor.RunAlone | task/executor.rs:60-148 | undisturbed, every round polls the same task again until it finishes, while those below it on the deque stay where they are: after k expired quanta its future has been polled k times its allowance without being ready and its priority is base - min(8, k / 4) |
| Executor.Executor.PollTask | task/executor.rs:90-148 | with other cores and wakers running between any two accesses to the shared task: neither expect fails, the parked branch is not taken, the future is polled until it is ready or its allowance is used up, one still pending is then pushed again once, a finished one ends Dead with no core, and, undisturbed, the decay is applied exactly on expiry |
| Executor.Executor.Complete | task/executor.rs:106-114 | the transition to Dying succeeds and the state ends Dead |
| Executor.Executor.Expire | task/executor.rs:119-142 | the state is still Running, the transition to Ready succeeds, and the pointer is pushed once, others running also after that transition |
| TaskProtocol.CoreKeeps | task/executor.rs:90-147 | every atomic access of a core keeps: at most one core inside, one exactly while Running or Dying, no failed expect |
| TaskProtocol.SafeIffNeverParks | task/executor.rs:90-147 | for any number of cores and wakers, all runs keep this if and only if no future parks its own task, or there is no core, or no waker |
| TaskProtocol.TwoInside | task/task_control_block.rs:112-122 | if a future parks, waking its task while it is still being polled lets a second core in |
| TaskProtocol.ParkThenReadyPanics | task/executor.rs:106-109 | and a future that parks and then finishes fails the first expect |
| TaskProtocol.DeadIsFinal | task/task_state.rs:25-32 | once Dead, always Dead, and no core is inside again |
| TaskProtocol.HolderUndisturbed | task/executor.rs:101-120 | while a core is inside nobody else changes the state or the quantum |
| TaskControl.TaskControlBlock.Transition | task/task_state.rs:82-98 | compare and exchange on the state |
| TaskControl.TaskControlBlock.Wake | task/task_control_block.rs:112-135 | for any task and any activity of others, ends with the state past Created and Blocked, after at most n + 2 rounds if others take the task out of Blocked n times meanwhile; after at most two for a task that never parks |
| TaskControl.TaskControlBlock.WakeRound | task/task_control_block.rs:113-134 | one round, for any task: Blocked or Created becomes Ready, another state is left alone, and a round fails only if somebody changed the state in between |
| TaskProtocol.NeverParkedNeverWoken | task/task_control_block.rs:112-122 | no run takes a task that never parks out of Blocked, so for it n is 0 |
| TaskControl.TaskControlBlock.ConsumeTick | task/task_control_block.rs:177-180 | one tick less, in 32-bit arithmetic |
| TaskControl.TaskControlBlock.Decay | task/executor.rs:133-141 | undisturbed, one step of the decay schedule; others may run between its accesses |
| TaskControl.DecaySchedule | task/executor.rs:133-141 | after k spent quanta from effective = base the effective priority is base - min(8, k / 4), the 32-bit counter wrapping included |
| TaskControl.DecayFrom | task/executor.rs:133-141 | from any priority, boosted or not, and any count, k spent quanta lower it by one for each multiple of four the counter comes to, not below base - 8; a priority there already stays |
| TaskControl.NoDecayNearBottom | task/executor.rs:138 | for a base within 8 of the smallest integer, base - 8 wraps and there is never any decay |
| Bits.BitmapSet | variables/bits.rs:122-139 | sets exactly the bits from start to start + nr |
| Bits.BitmapClear | variables/bits.rs:142-159 | clears exactly the bits from start to start + nr |
| Bits.BitmapTest | variables/bits.rs:162-164 | reads one bit |
| Bits.BitmapFfz | variables/bits.rs:173-185 | returns the least clear bit below numbits, None exactly when all are set |
| Bits.TakeFirst | variables/bits.rs:122-185 | finding the first clear bit and setting it is one taking step |
| Bits.FirstMaskBit | variables/bits.rs:89-91 | the first mask has exactly the bits from start on |
| Bits.LastMaskBit | variables/bits.rs:93-99 | the last mask has exactly the bits below nbits, or all of them at a word boundary |
| Bits.FfzInWord | variables/bits.rs:167-169 | in a word with a clear bit, ffz is the least one |
| Bits.NeverTakenTwice | variables/bits.rs:122-185 | a run of such steps never hands out a bit twice, and stays exhausted |

## Left out

- Weak memory orderings: the model assumes sequential consistency; one slot access and one buffer replacement are one step.
- Position counters (bottom, top, head, tail, send_pos, recv_pos), lengths and object reference counts are unbounded; only generations, quantum, priority and decay counters have their width.
- Spinlocks: a critical section is one step, together with the counter and occupancy updates just after it; the ticket lock itself is not modelled.
- StealDequeProofs.BatchTakesOldest: a sufficient condition on one run; a pop followed by a push before the batch reads the slot can also end well. The condition a caller can check is `StealDequeRace.ConservesIffShortOrNoPops`.
- WorkStealing.DequeInner.StealBatch: what the values mean once a batch has been unsteady; each operation's own events and `StealDequeSound.IndicesInRange` still hold then.
- TaskControl.TaskControlBlock.Wake: others that take the task out of Blocked without end while this call runs; every finite number of times is covered.
- RunQueue.RunQueue.Enqueue: what later operations make of a task linked twice; the call that does it is described in full.
- Executor.Executor.RunAlone: arrivals and thieves between the rounds.
- set_priority and boost_priority; they are among what others may do between two accesses.
- Updates of the occupancy word racing with another core's dequeue.
- WaitQueue.WaitQueue.WakeOne: what firing a waker does; fired wakers are recorded in order.
- Channel wake-ups: that a parked future is ever woken. Calls of wake_one are counted, a node only says whether it is linked, and the queues it joins are modelled apart (`WaitQueue`).
- Several producers of a channel at once; dropping its buffer, which is leaked.
- Lock order and transfer between a table and itself, which locks it twice.
- Task affinity, current_core under races, kernel stacks, contexts, stealing victims, idle states, halting.
- Object types, signals and maximum rights of an object header; message contents; allocation failure; deallocation of buffers.
- `Option` around the slots of a handle table, which always holds one.
- Broadcast, futex, async mutex, time arithmetic, platform and formatting code.
