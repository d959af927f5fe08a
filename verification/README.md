# Verified models of an inter-process communication collection

The repository collects worked programs on UNIX inter-process communication: a POSIX message
queue and a POSIX semaphore built on a mapped file, a read-write lock built from a mutex and two
condition variables, producer/consumer programs, a System V semaphore lock, and the small
library functions around them. This project models the parts whose correctness is not visible in
any one function, and proves what they are for: over every input, every schedule and every run.

| file | models |
|---|---|
| `QueueSpec.dfy` | the message queue as a value: each mutex-held section, priority order, and an independent reference for what must be served next |
| `MappedQueue.dfy` | the queue as it lies in the mapped file: slots by byte offset, free list and message list through `msg_next` |
| `QueueProtocol.dfy` | any number of threads sending, receiving and registering |
| `QueueWakeups.dfy` | exactly when the queue's wake-ups and notifications reach those they are for |
| `QueueReplies.dfy` | what every call is answered, and whose registration stands, told from the calls made |
| `QueueRuns.dfy` | whole runs of the protocol carried out on the mapped region |
| `RwLock.dfy` | the read-write lock, with and without cancellation handlers, used by any number of threads |
| `RwLockObject.dfy` | the same lock as an object updated in place, and whole runs carried out on it |
| `BoundedBuffer.dfy` | many producers and consumers over a circular buffer, with two shutdown schemes |
| `TwoLock.dfy` | many producers and one consumer with separate locks for "put" and "ready" |
| `FileCopy.dfy` | the two-thread file copy |
| `OpenRace.dfy` | the create-or-open races of `mymq_open` and `mysem_open` |
| `CountingSem.dfy` | the semaphore in a mapped file, as a transition system and as an object |
| `SvLock.dfy` | the System V semaphore lock and the sequence-number program |
| `Streams.dfy`, `LineReader.dfy`, `Transfer.dfy` | descriptors with partial transfers, `readline`, `readn` and `writen` |
| `Checksum.dfy` | the Internet checksum (RFC 1071) |
| `Common.dfy` | counting threads by weight, and a few shared types |

## How the concurrent programs are modelled

A multi-threaded program is a transition system: a `State`, a predicate `Ready` that says which
action can happen, a function `Step`, and `Run`, which says that a sequence of actions leads from
one state to another. A step is one semaphore operation, one system call or one mutex-held
section; `pthread_cond_wait` splits a section in two. The scheduler, the choice of the thread a
signal wakes, spurious wake-ups, partial reads and writes, `EINTR`, process ids and the result of
`kill` are chosen freely. Memory is sequentially consistent. Numbers of threads, items, buffers
and messages are unbounded parameters.

The invariants count threads: `Total(w, threads)` is the total weight of the population, and a
step changes it by the weight of one thread. Each module keeps one small lemma per conserved
quantity, then one for a step, then one for a run, then the results about all runs. Termination is
an explicit bound on the length of every run, and freedom from deadlock is the statement that a
state in which nobody can move is the intended end of the program.

The objects that the threads share are also modelled in place, and whole runs are carried out on
them (`QueueRuns.PlayNew`, `RwLockObject.PlayAll`, `CountingSem.PlayAll`).

The message queue is proved in three layers. `MappedQueue.MessageQueue` works in place on two views of the
region (headers by offset, and bytes) and its methods refine the value-level sections of
`QueueSpec`; `QueueProtocol` runs those sections from any number of threads and compares the list
with the messages in order of arrival; `QueueRuns.PlayNew` puts the two together.

## Where the code falls short of what it is for

Each of these is kept as the code has it and delimited by an exact condition, with a run that
shows it or, where it holds of every run, a statement about all of them.

- The mapped queue and the mapped semaphore signal only on the edge, and the queue has one
  condition variable for both sides. One thread that blocks is always woken, whatever the number
  of the others; beyond that a wake-up can be lost. For the semaphore the exact condition is that
  at most one thread ever waits or there are at most two (`CountingSem.CoveredIffOneWaiter`). For
  the queue it is that at most one thread ever blocks, or there are at most two, or two block on a
  queue of at most two messages (`QueueWakeups.CoveredIffFewBlock`).
- A sender that had to wait for room does not look at the registration again when it resumes, so
  a message can come into an empty queue without the notification; this happens for some schedule
  exactly when somebody ever blocks and there are at least two threads (`QueueWakeups.NotifiedIffNobodyBlocks`).
- Cancelling a writer that has already been signalled strands the others exactly when it cannot be
  spared (`RwLock.CancelWokenStrands`).
- With a umask that removes owner-execute, an opener can return before the initialisation
  (`OpenRace.PublishedIffUmaskOrNoRace`).
- An opener gives up after MAX_TRIES looks at a file that is not ready, however far its creator
  has come; it fails for no other reason than this and its flags (`OpenRace.FailsIffMayFail`).
- With nothing to produce, the consumers of `SemMultiprodMulticons.c` never return
  (`BoundedBuffer.FinishesIffCanEnd`).
- A process that waits too long for the System V lock to be initialised gives up, and its rounds
  are then missing from the sequence file; some schedule does this exactly when there are at
  least two processes and something to do (`SvLock.CountsAllIffAlone`), and a given schedule exactly when
  some process takes all its looks before the first semop (`SvLock.TimedOutIffInVain`).
- The checksum is right for all packets of a given length only up to 65537 words
  (`Checksum.RightIffNoOverflow`).
- `readline` returns one more than the number of bytes stored unless the line ends in a newline
  (`LineReader.StoppedIsLine`, and `LineReader.CountsOneTooMany` for an input).

## Model

| member | source | states |
|---|---|---|
| `QueueSpec.InsertAdds` | IPC/unpv22e/my_pxmsg_mmap/mq_send.c:64-81 | the insertion adds exactly the new message and loses none (as multisets) |
| `QueueSpec.InsertKeepsSorted` | IPC/unpv22e/my_pxmsg_mmap/mq_send.c:64-81 | a list by falling priority stays one |
| `QueueSpec.StableSortSorts` | IPC/unpv22e/my_pxmsg_mmap/mq_send.c:64-81 | any sequence of sends leaves a list that is a permutation of what arrived, by falling priority |
| `QueueSpec.Oldest` | IPC/unpv22e/my_pxmsg_mmap/mq_receive.c:48-54 | independent reference for what must be served next: highest priority present and older than every other message of that priority |
| `QueueSpec.OldestIsUnique` | IPC/unpv22e/my_pxmsg_mmap/mq_receive.c:48-54 | the reference determines one message |
| `QueueSpec.TailAfterArrival` | IPC/unpv22e/my_pxmsg_mmap/mq_send.c:69-76 | serving before or after an arrival of no higher priority gives the same list: the order is stable |
| `QueueSpec.HeadIsOldest` | IPC/unpv22e/my_pxmsg_mmap/mq_receive.c:48-52 | the head of the list is the oldest message of the highest priority, and the rest is the list of the other messages |
| `MappedQueue.MsgSize` | IPC/unpv22e/my_pxmsg_mmap/mqueue.h:40 | MSGSIZE is the least multiple of sizeof(long) that holds the message |
| `MappedQueue.SlotsAreSpaced` | IPC/unpv22e/my_pxmsg_mmap/mq_open.c:59-61 | the slots of a new file are disjoint, in order, and fill the computed file size exactly |
| `MappedQueue.ExtentsApart` | IPC/unpv22e/my_pxmsg_mmap/mqueue.h:11-29 | the parts of the queue header, all message headers and all message bodies are pairwise disjoint byte ranges of the file |
| `MappedQueue.PartitionApart` | IPC/unpv22e/my_pxmsg_mmap/mq_open.c:82-99 | two chains that share out the slots have no offset twice and none in common, and cover every slot |
| `MappedQueue.ChainInsert` | IPC/unpv22e/my_pxmsg_mmap/mq_send.c:64-81 | storing the new offset through the predecessor pointer, which may be &mqh_head seen as a message header, splices the slot in at that place |
| `MappedQueue.InsertPlace` | IPC/unpv22e/my_pxmsg_mmap/mq_send.c:67-76 | stopping at the first lower priority is the same as the recursive priority insertion |
| `MappedQueue.MessagesSend` | IPC/unpv22e/my_pxmsg_mmap/mq_send.c:58-62 | bytes, lengths and priorities of all queued messages survive a send, and the new one reads back exactly |
| `MappedQueue.SendKeepsSound` | IPC/unpv22e/my_pxmsg_mmap/mq_send.c:55-81 | moving the first free slot into the message list keeps both chains acyclic, ending at 0, disjoint and jointly visiting every slot once |
| `MappedQueue.SendRefines` | IPC/unpv22e/my_pxmsg_mmap/mq_send.c:55-81 | the memory effect of a send is the abstract insertion |
| `MappedQueue.ReceiveKeepsSound` | IPC/unpv22e/my_pxmsg_mmap/mq_receive.c:51-60 | popping the head and pushing its slot on the free list keeps both chains sound and removes exactly the first message |
| `MappedQueue.FirstFree` | IPC/unpv22e/my_pxmsg_mmap/mq_send.c:55-58 | with fewer than maxmsg messages the free list is not empty, so the err_dump cannot be reached |
| `MappedQueue.MessageQueue.constructor` | IPC/unpv22e/my_pxmsg_mmap/mq_open.c:82-99 | the created file stands for the empty queue, with the file size of the layout |
| `MappedQueue.MessageQueue.ThreadFreeList` | IPC/unpv22e/my_pxmsg_mmap/mq_open.c:91-99 | the loop threads all slots, in order, onto one chain that ends at 0 |
| `MappedQueue.MessageQueue.FillSlot` | IPC/unpv22e/my_pxmsg_mmap/mq_send.c:58-61 | header and bytes of one slot are written and nothing else |
| `MappedQueue.MessageQueue.FindPlace` | IPC/unpv22e/my_pxmsg_mmap/mq_send.c:65-76 | the list walk ends, at the place of the first lower priority, with the predecessor it must link from |
| `MappedQueue.MessageQueue.WriteMessage` | IPC/unpv22e/my_pxmsg_mmap/mq_send.c:58-81 | the whole memory effect of the second half of mymq_send |
| `MappedQueue.MessageQueue.Enqueue` | IPC/unpv22e/my_pxmsg_mmap/mq_send.c:55-85 | the queue gains the message at its stable priority place; waiters are signalled exactly when it was empty; err_dump is unreachable |
| `MappedQueue.MessageQueue.Send` | IPC/unpv22e/my_pxmsg_mmap/mq_send.c:17-52 | mymq_send refines the abstract section: EBADF, EMSGSIZE, notification, EAGAIN, blocking or success |
| `MappedQueue.MessageQueue.ResumeSend` | IPC/unpv22e/my_pxmsg_mmap/mq_send.c:50-51 | back from the wait: blocks again on a full queue, otherwise sends |
| `MappedQueue.MessageQueue.ReadMessage` | IPC/unpv22e/my_pxmsg_mmap/mq_receive.c:48-60 | the first message is returned byte for byte and its slot unlinked; err_dump is unreachable |
| `MappedQueue.MessageQueue.Dequeue` | IPC/unpv22e/my_pxmsg_mmap/mq_receive.c:48-65 | the first message leaves the queue; waiters are signalled exactly when it was full |
| `MappedQueue.MessageQueue.Receive` | IPC/unpv22e/my_pxmsg_mmap/mq_receive.c:17-44 | mymq_receive refines the abstract section: EBADF, EMSGSIZE, EAGAIN, blocking or success |
| `MappedQueue.MessageQueue.ResumeReceive` | IPC/unpv22e/my_pxmsg_mmap/mq_receive.c:41-43 | back from the wait: blocks again on an empty queue, otherwise leaves nwait and receives |
| `MappedQueue.MessageQueue.Notify` | IPC/unpv22e/my_pxmsg_mmap/mq_notify.c:14-38 | one registration at a time, EBUSY while its process lives, and only the owner unregisters |
| `MappedQueue.Create` | IPC/unpv22e/my_pxmsg_mmap/mq_open.c:48-55 | default attributes for a null pointer, EINVAL for a size that is not positive, otherwise the empty queue |
| `QueueProtocol.StepKeepsInv` | IPC/unpv22e/my_pxmsg_mmap/mq_send.c:30-85 | every section of every thread keeps: list is the stable order of the messages present, sent = received + present, curmsgs within maxmsg, nwait exact, registrations balanced |
| `QueueProtocol.RunKeepsInv` | IPC/unpv22e/my_pxmsg_mmap/mq_send.c:30-85 | the same over whole runs |
| `QueueProtocol.ServesOldest` | IPC/unpv22e/my_pxmsg_mmap/mq_receive.c:48-54 | the head of the list is the oldest arrival of the highest priority |
| `QueueProtocol.EveryReceiveIsOldest` | IPC/unpv22e/my_pxmsg_mmap/mq_receive.c:30-61 | in every run a receive returns the oldest message of the highest priority present as it was sent, blocks exactly when nothing is there, and no message is lost, duplicated or invented |
| `QueueProtocol.NoticeIffArrival` | IPC/unpv22e/my_pxmsg_mmap/mq_send.c:34-42 | in every run a signal is sent exactly by a first-time send that takes the queue from 0 to 1 messages with a registration for a signal and no receiver in its wait; it goes to the registered process and uses up the registration |
| `QueueWakeups.StepKeepsWaiters` | IPC/unpv22e/my_pxmsg_mmap/mq_send.c:43-52 | only threads that call without O_NONBLOCK are ever inside a call between two steps |
| `QueueWakeups.ResumedSenderNotifiesNobody` | IPC/unpv22e/my_pxmsg_mmap/mq_send.c:43-52 | finding, for every queue size and number of threads: a sender that had blocked puts a message on an empty queue with a process registered and no receiver waiting, and signals nobody |
| `QueueWakeups.ArrivalIsNoticed` | IPC/unpv22e/my_pxmsg_mmap/mq_send.c:34-42 | when nobody blocks, or with one thread, every such arrival is signalled |
| `QueueWakeups.NotifiedIffNobodyBlocks` | IPC/unpv22e/my_pxmsg_mmap/mq_send.c:34-52 | every arrival in the empty queue of a registered process is signalled if and only if nobody ever calls without O_NONBLOCK or there is at most one thread |
| `QueueWakeups.StepJustifies` | IPC/unpv22e/my_pxmsg_mmap/mq_send.c:50-85 | a step that leaves at most one other thread asleep leaves nobody asleep whose condition is true |
| `QueueWakeups.OneBlockerNeverOversleeps` | IPC/unpv22e/my_pxmsg_mmap/mq_receive.c:40-65 | with one thread that ever blocks and any number that do not, or with at most two threads, in every run a sleeping receiver implies an empty queue and a sleeping sender a full one |
| `QueueWakeups.BothAsleep` | IPC/unpv22e/my_pxmsg_mmap/mq_receive.c:63-65 | two threads asleep on the one condition variable wait for the same thing |
| `QueueWakeups.StepCovers` | IPC/unpv22e/my_pxmsg_mmap/mq_send.c:83-85 | two threads that block, on a queue of at most two messages, cover each other |
| `QueueWakeups.ReceiverLeftBehind` | IPC/unpv22e/my_pxmsg_mmap/mq_receive.c:63-65 | finding: with room for three messages two blocking receivers and any third thread can leave one asleep with a message there and nobody woken |
| `QueueWakeups.SenderLeftBehind` | IPC/unpv22e/my_pxmsg_mmap/mq_receive.c:63-65 | finding: on a queue of any size three blocking threads can leave a sender asleep with room there, its signal spent on a receiver |
| `QueueWakeups.CoveredIffFewBlock` | IPC/unpv22e/my_pxmsg_mmap/mq_send.c:83-84 | no run loses a wake-up if and only if at most one thread ever blocks, or there are at most two threads, or two block on a queue of at most two messages; the threads that do not block are without limit |
| `QueueReplies.EveryReply` | IPC/unpv22e/my_pxmsg_mmap/mq_receive.c:30-65 | every section of every thread answers as the reference on arrivals, standing registration and arguments says: outcome, message, wake-up and process signalled |
| `QueueReplies.EveryReceiveIsAnswered` | IPC/unpv22e/my_pxmsg_mmap/mq_receive.c:30-44 | in every run a receive fails with EMSGSIZE exactly if its buffer is too small, with EAGAIN exactly if nothing is there and it may not block, blocks exactly if it may, and is done exactly if a message is there |
| `QueueReplies.EverySendIsAnswered` | IPC/unpv22e/my_pxmsg_mmap/mq_send.c:30-52 | in every run a send fails with EMSGSIZE exactly if the message is too long, with EAGAIN exactly if maxmsg messages are there and it may not block, blocks exactly if it may, and otherwise the message has arrived |
| `QueueReplies.ResumedSenderSendsItsOwn` | IPC/unpv22e/my_pxmsg_mmap/mq_send.c:50-61 | in every run a sender that had blocked puts the message of its own last call on the queue, exactly when it finds room |
| `QueueReplies.RegisteredAfter` | IPC/unpv22e/my_pxmsg_mmap/mq_notify.c:24-38 | what one step does to the registration: accepted if nobody was registered or that process has died, ended by its own process or by an arrival, otherwise unchanged |
| `QueueReplies.StandsIff` | IPC/unpv22e/my_pxmsg_mmap/mq_notify.c:24-38 | after any number of steps of any run r is registered if and only if it is the last accepted registration, its process has not withdrawn it and no arrival has used it up |
| `QueueReplies.OthersCannotEvict` | IPC/unpv22e/my_pxmsg_mmap/mq_notify.c:25-35 | while the registered process lives every registration gets EBUSY and no withdrawal by another process changes anything; its own withdrawal ends it |
| `QueueReplies.EveryNoticeStands` | IPC/unpv22e/my_pxmsg_mmap/mq_send.c:34-42 | in every run a step signals r if and only if it brings a message into the empty queue with no receiver waiting and r is the registration that stands and asked for a signal; the processes signalled are recorded in order |
| `QueueRuns.ExpectedAt` | IPC/unpv22e/my_pxmsg_mmap/mq_receive.c:30-74 | there is one answer for every step of a run, that of the reference in the state the run has come to |
| `QueueRuns.Play` | IPC/unpv22e/my_pxmsg_mmap/mq_send.c:17-93 | one step of the protocol carried out on the mapped region gives the region of the next protocol state and the answer of the reference |
| `QueueRuns.PlayAll` | IPC/unpv22e/my_pxmsg_mmap/mq_receive.c:17-74 | the same for a whole run of any threads |
| `QueueRuns.PlayNew` | IPC/unpv22e/my_pxmsg_mmap/mq_open.c:82-99 | end to end: from creation on, under every schedule, the lists never disagree, the region stands for the abstract queue, every call gets the outcome, message, wake-up and signal of the reference, and the processes signalled are those of the protocol in order |
| `RwLock.StepKeepsExact` | IPC/unpv22e/my_rwlock/pthread_rwlock_rdlock.c:16-27 | every section of either variant keeps the three counters equal to the threads they count |
| `RwLock.UnlockKeepsExact` | IPC/unpv22e/my_rwlock/pthread_rwlock_unlock.c:16-28 | the same for unlock with any wake-up, and its err_dump is unreachable when only holders unlock |
| `RwLock.UnlockKeepsWriters` | IPC/unpv22e/my_rwlock/pthread_rwlock_unlock.c:23-28 | after an unlock a sleeping writer has the lock held or a woken writer ahead |
| `RwLock.UnlockKeepsReaders` | IPC/unpv22e/my_rwlock/pthread_rwlock_unlock.c:23-28 | after an unlock a sleeping reader has a writer waiting |
| `RwLock.StepKeepsWriters` | IPC/unpv22e/my_rwlock/pthread_rwlock_wrlock.c:16-24 | no other step, spurious wake-up or cancellation strands a sleeping writer |
| `RwLock.StepKeepsReaders` | IPC/unpv22e/my_rwlock_cancel/pthread_rwlock_wrlock.c:6-14 | no other step, including the cancellation of waiting readers and writers, strands a sleeping reader |
| `RwLock.StepKeepsInv` | IPC/unpv22e/my_rwlock_cancel/pthread_rwlock_unlock.c:16-28 | both variants: exact counters and nobody stranded are kept by every step, including the cancellation of sleeping waiters, of woken readers, and of woken writers that can be spared |
| `RwLock.RunKeepsInv` | IPC/unpv22e/my_rwlock_cancel/pthread_rwlock_rdlock.c:28-38 | the same over whole runs |
| `RwLock.EveryRunExcludes` | IPC/unpv22e/my_rwlock/pthread_rwlock_wrlock.c:16-24 | in every run rw_refcount is -1 with exactly one writer and no reader holding, or the number of readers holding; a writer is alone |
| `RwLock.NobodyStranded` | IPC/unpv22e/my_rwlock/pthread_rwlock_unlock.c:16-28 | in every run, whenever anybody sleeps the lock is held or a woken writer can take it at once |
| `RwLock.WritersPreferred` | IPC/unpv22e/my_rwlock/pthread_rwlock_rdlock.c:16-23 | once a writer waits, the number of readers holding never grows until a writer is served (or cancelled) |
| `RwLock.DestroyIsExact` | IPC/unpv22e/my_rwlock/pthread_rwlock_destroy.c:10-12 | after any run, cancellations included, destroy reports EBUSY exactly when some thread holds or waits |
| `RwLock.CancelWokenStrands` | IPC/unpv22e/my_rwlock_cancel/pthread_rwlock_wrlock.c:6-14 | cancelling an already signalled writer is safe if and only if the lock is held, another woken writer is on its way, or nobody sleeps |
| `RwLock.CancelWokenCounterexample` | IPC/unpv22e/my_rwlock_cancel/pthread_rwlock_wrlock.c:28-36 | finding: a reachable state in which that cancellation leaves a reader asleep behind a free lock |
| `RwLock.UnlockMoves` | IPC/unpv22e/my_rwlock/pthread_rwlock_unlock.c:23-28 | an unlock frees its own thread and otherwise only wakes |
| `RwLock.QuietIsOver` | IPC/unpv22e/my_rwlock/pthread_rwlock_unlock.c:16-28 | when nobody can resume or unlock, nobody holds or waits |
| `RwLock.EverybodyIsServed` | IPC/unpv22e/my_rwlock_cancel/pthread_rwlock_unlock.c:16-28 | after any run, once nobody asks for the lock any more, n threads take at most n(n + 2) steps apart from spurious wake-ups and can stop only when all have released the lock or been cancelled |
| `RwLockObject.WaitsExactly` | IPC/unpv22e/my_rwlock/pthread_rwlock_wrlock.c:17-19 | the wait counters are positive exactly when a thread of that kind is inside a wait |
| `RwLockObject.HeldExactly` | IPC/unpv22e/my_rwlock/pthread_rwlock_rdlock.c:17-20 | rw_refcount is nonzero exactly when somebody holds the lock; the test of rdlock succeeds exactly when a writer holds or waits |
| `RwLockObject.RwLockT.constructor` | IPC/unpv22e/my_rwlock/pthread_rwlock_init.c:19-21 | a new lock satisfies the invariant for any number of idle threads |
| `RwLockObject.RwLockT.RdLock` | IPC/unpv22e/my_rwlock/pthread_rwlock_rdlock.c:16-25 | keeps the invariant; waits exactly if some thread holds as a writer or waits as one, and otherwise reads with no writer holding |
| `RwLockObject.RwLockT.WrLock` | IPC/unpv22e/my_rwlock/pthread_rwlock_wrlock.c:16-24 | keeps the invariant; waits exactly if some thread holds the lock, and otherwise is the only holder |
| `RwLockObject.RwLockT.TryRdLock` | IPC/unpv22e/my_rwlock/pthread_rwlock_tryrdlock.c:16-19 | keeps the invariant; EBUSY exactly if a writer holds or waits |
| `RwLockObject.RwLockT.TryWrLock` | IPC/unpv22e/my_rwlock/pthread_rwlock_trywrlock.c:16-19 | keeps the invariant; EBUSY exactly if somebody holds the lock |
| `RwLockObject.RwLockT.Unlock` | IPC/unpv22e/my_rwlock/pthread_rwlock_unlock.c:16-28 | reaches err_dump exactly if nobody holds the lock; by a holder it keeps the invariant, signals a writer exactly if one waits (and, without cancellation, nobody holds any more) and broadcasts exactly if only readers wait |
| `RwLockObject.RwLockT.Cancel` | IPC/unpv22e/my_rwlock_cancel/pthread_rwlock_wrlock.c:6-14 | the cleanup handlers keep the invariant |
| `RwLockObject.Play` | IPC/unpv22e/my_rwlock_cancel/pthread_rwlock_unlock.c:16-28 | one step of any thread on the object, with the fate of the threads told from the results of the calls, is the step of the transition system; err_dump is not reached |
| `RwLockObject.PlayAll` | IPC/unpv22e/my_rwlock/pthread_rwlock_unlock.c:16-28 | a whole run on a new lock: the object goes through the states of the transition system, err_dump is never reached, two holders are both readers, and whoever sleeps has a holder or a woken writer before it |
| `BoundedBuffer.ProducerBalanced` | IPC/unpv22e/pxsem/prodcons4.c:68-90 | every producer statement takes from the semaphores and counters exactly what the thread then holds |
| `BoundedBuffer.ConsumerBalanced` | IPC/Semaphore/SemMultiprodMulticons.c:87-114 | the same for every consumer statement |
| `BoundedBuffer.ProducerAdvances` | IPC/unpv22e/pxsem/prodcons4.c:75-79 | a departing producer posts one shutdown token, and every producer statement uses up work |
| `BoundedBuffer.ConsumerAdvances` | IPC/Semaphore/SemMultiprodMulticons.c:105-110 | the last consumer owes and posts one shutdown token, and every consumer statement uses up work |
| `BoundedBuffer.StepKeepsCounts` | IPC/unpv22e/pxsem/prodcons4.c:68-119 | semaphore values plus threads in flight are conserved: mutex, empty slots, stored tokens with the surplus ones, shutdown tokens, and per-thread counts |
| `BoundedBuffer.RoomToPut` | IPC/unpv22e/pxsem/prodcons4.c:72-84 | a producer never overwrites an item that has not been fetched |
| `BoundedBuffer.NoExtraYet` | IPC/unpv22e/pxsem/prodcons4.c:75-79 | no shutdown token is posted while items remain to be stored |
| `BoundedBuffer.ItemToGet` | IPC/unpv22e/pxsem/prodcons4.c:100-113 | a consumer that passes the nget test has an item to fetch even when it was let in by a shutdown token |
| `BoundedBuffer.ProducerKeepsItems` | IPC/Semaphore/SemMultiprodMulticons.c:69-83 | a store keeps the live part of the circular buffer equal to the next values in order |
| `BoundedBuffer.ConsumerKeepsItems` | IPC/unpv22e/pxsem/prodcons4.c:103-113 | a fetch finds the next value in order and keeps nget <= nput <= nget + NBUFF |
| `BoundedBuffer.StepKeepsInv` | IPC/unpv22e/pxsem/prodcons4.c:68-119 | one statement of any thread of either program keeps all of the above and uses up work |
| `BoundedBuffer.RunKeepsInv` | IPC/Semaphore/SemMultiprodMulticons.c:65-116 | the same over whole runs, which bounds their length |
| `BoundedBuffer.EveryRunIsSafe` | IPC/unpv22e/pxsem/prodcons4.c:82-113 | in every interleaving of either program every consumer reads the next value in order, the error print and exit(-1) are unreachable, and the last consumer's token is posted at most once and after the last item |
| `BoundedBuffer.StuckHasToken` | IPC/Semaphore/SemMultiprodMulticons.c:91-98 | when nobody can move a stored token is left, so no consumer waits for one |
| `BoundedBuffer.StuckIsDone` | IPC/unpv22e/pxsem/prodcons4.c:68-119 | no deadlock: a state in which nobody can move has every thread returned and all items moved |
| `BoundedBuffer.ReturnedCounts` | IPC/unpv22e/pxsem/prodcons4.c:50-58 | when all threads have returned the sums of the per-thread counts are nput and nget |
| `BoundedBuffer.EveryRunFinishes` | IPC/unpv22e/pxsem/prodcons4.c:68-119 | every run has at most 13 nitems + 6 producers + 5 consumers steps and can stop only with all threads returned, both sums of counts equal to nitems and the last consumer's token posted exactly once |
| `BoundedBuffer.NoItemsRun` | IPC/Semaphore/SemMultiprodMulticons.c:91-98 | with nothing to move the last consumer's token is never posted and no consumer passes its first wait |
| `BoundedBuffer.FinishesIffCanEnd` | IPC/Semaphore/SemMultiprodMulticons.c:91-110 | a run that cannot be extended is a completed program if and only if it is prodcons4 or cycleTimes >= 1; otherwise all consumers are deadlocked |
| `TwoLock.ProducerKeepsInv` | IPC/unpv22e/mutex/prodcons6.c:57-79 | each producer section keeps i + taken + ready + producers in between == nput and buff[k] == k below nput |
| `TwoLock.ConsumerKeepsInv` | IPC/MutexAndCondAndRwlock/MutexAndCond.c:55-77 | each consumer section, one at a time or draining, keeps it too |
| `TwoLock.RunKeepsInv` | IPC/unpv22e/mutex/prodcons6.c:57-97 | the same over whole runs of either program |
| `TwoLock.EveryRunIsSafe` | IPC/unpv22e/mutex/prodcons6.c:71-94 | in every run the consumer compares in bounds and finds buff[i] == i, and a sleeping consumer implies that nothing is ready, so signalling only on 0 loses no wake-up; prodcons6 has signalled once for every time the ready count left zero, MutexAndCond once per announced item |
| `TwoLock.EveryRunFinishes` | IPC/MutexAndCondAndRwlock/MutexAndCond.c:33-77 | both programs: apart from spurious wake-ups every run is bounded and can stop only with all threads returned, every item compared and the counts adding up to nitems |
| `FileCopy.ReadKeepsBytes` | IPC/unpv22e/pxsem/mycat2.c:60-67 | filling the next buffer keeps written + buffered + unread equal to the input |
| `FileCopy.WriteKeepsStored` | IPC/unpv22e/pxsem/mycat2.c:84-88 | so does writing one out; the zero-length marker is met exactly when everything has been written |
| `FileCopy.StepKeepsInv` | IPC/unpv22e/pxsem/mycat2.c:48-92 | one step of either thread keeps the byte flow and the semaphore counts |
| `FileCopy.RunKeepsInv` | IPC/unpv22e/pxsem/mycat2.c:48-92 | the same over whole runs |
| `FileCopy.BuffersApart` | IPC/unpv22e/pxsem/mycat2.c:60-86 | reader and writer never work on the same buffer |
| `FileCopy.EveryRunCopies` | IPC/unpv22e/pxsem/mycat2.c:48-92 | for every interleaving and every splitting by read, the output is a prefix of the input and no buffer is filled while being written out |
| `FileCopy.EveryRunFinishes` | IPC/unpv22e/pxsem/mycat2.c:48-92 | every run is bounded and can stop only with both threads returned and the output equal to the input |
| `OpenRace.StepKeepsFile` | IPC/unpv22e/my_pxmsg_mmap/mq_open.c:84-119 | a file that somebody has seen is never recreated, and a published one is never initialised again |
| `OpenRace.StepKeepsInv` | IPC/unpv22e/my_pxsem_mmap/sem_open.c:22-109 | every system call of every caller keeps: one creator, and the file holds exactly what it has done so far |
| `OpenRace.RunKeepsInv` | IPC/unpv22e/my_pxsem_mmap/sem_open.c:22-109 | the same over whole runs, with any umask |
| `OpenRace.ReturnedIsComplete` | IPC/unpv22e/my_pxmsg_mmap/mq_open.c:134-166 | whoever has returned finds a complete object of the size the creator gave it |
| `OpenRace.EveryOpenIsSafe` | IPC/unpv22e/my_pxmsg_mmap/mq_open.c:31-166 | with a umask that keeps owner-execute: in every run of any number of callers at most one initialises, and every success comes after the initialisation and maps the creator's size |
| `OpenRace.EveryOpenEnds` | IPC/unpv22e/my_pxsem_mmap/sem_open.c:92-109 | every call ends: at most MAX_TRIES + 5 steps per caller, and whoever has not returned can move |
| `OpenRace.StepTells` | IPC/unpv22e/my_pxsem_mmap/sem_open.c:80-109 | what a caller has been told by its opens and looks explains where it stands |
| `OpenRace.FailsIffMayFail` | IPC/unpv22e/my_pxmsg_mmap/mq_open.c:39-45 | in every run a call that has ended, not given up for another reason, has failed if and only if the file was to be new and existed, was to exist and did not, or was found not ready at every one of MAX_TRIES looks |
| `OpenRace.PublishedIsOpened` | IPC/unpv22e/my_pxmsg_mmap/mq_open.c:126-166 | once the file is published every call that is not exclusive and has a look left returns, with the size the creator gave the file |
| `OpenRace.ReturnsTooEarly` | IPC/unpv22e/my_pxmsg_mmap/mq_open.c:143-144 | finding: with a umask that removes owner-execute a caller returns before the initialisation |
| `OpenRace.PublishedIffUmaskOrNoRace` | IPC/unpv22e/my_pxmsg_mmap/mq_open.c:38-45 | nobody ever returns too early if and only if the umask keeps owner-execute or no two callers can race |
| `CountingSem.RunCounts` | IPC/unpv22e/my_pxsem_mmap/sem_post.c:15-23 | in every run count + 2^32 wraps + waits == initial + posts |
| `CountingSem.ValueIsConserved` | IPC/unpv22e/my_pxsem_mmap/sem_wait.c:15-23 | the value is initial + posts - waits modulo 2^32, and exactly so below the range of unsigned int |
| `CountingSem.StepJustifies` | IPC/unpv22e/my_pxsem_mmap/sem_post.c:19-21 | a step that leaves at most one other thread asleep leaves nobody asleep on a positive count |
| `CountingSem.RunJustifies` | IPC/unpv22e/my_pxsem_mmap/sem_wait.c:19-21 | with one thread that ever waits and any number that post, or with at most two threads, a sleeper means a zero count in every run |
| `CountingSem.TwoWaitersUncovered` | IPC/unpv22e/my_pxsem_mmap/sem_post.c:19-20 | finding: any two waiters and any third thread have a run that leaves a waiter asleep although the count is positive and nobody is woken |
| `CountingSem.CoveredIffOneWaiter` | IPC/unpv22e/my_pxsem_mmap/sem_post.c:19-21 | no run loses a wake-up if and only if at most one thread ever waits or there are at most two threads |
| `CountingSem.Semaphore.constructor` | IPC/unpv22e/my_pxsem_mmap/sem_open.c:67 | a new semaphore has its starting value |
| `CountingSem.Semaphore.Post` | IPC/unpv22e/my_pxsem_mmap/sem_post.c:19-21 | raises the balance of initial value, posts and waits by one and signals exactly when the balance was zero modulo 2^32; a signal wakes a sleeper if there is one |
| `CountingSem.Semaphore.Wait` | IPC/unpv22e/my_pxsem_mmap/sem_wait.c:19-21 | blocks exactly when the balance is zero modulo 2^32, otherwise lowers it by one |
| `CountingSem.Semaphore.TryWait` | IPC/unpv22e/my_pxsem_mmap/sem_trywait.c:19-25 | EAGAIN exactly when the balance is zero modulo 2^32, otherwise lowers it by one |
| `CountingSem.Play` | IPC/unpv22e/my_pxsem_mmap/sem_wait.c:15-23 | one step of any thread on the object, with the fate of the threads told from the results of the calls, is the step of the transition system |
| `CountingSem.PlayAll` | IPC/unpv22e/my_pxsem_mmap/sem_post.c:15-23 | a whole run on a new semaphore: the field is the balance modulo 2^32, and with one thread that ever waits nobody sleeps while it is positive |
| `SvLock.HolderIsAlone` | IPC/unpv22e/lock/locksvsem.c:46-53 | two processes never hold the lock at once |
| `SvLock.StepKeepsLock` | IPC/unpv22e/lock/locksvsem.c:46-52 | once set, the value plus the holders is one |
| `SvLock.StepLosesNothing` | IPC/unpv22e/lock/lockmain.c:22-33 | file plus increments still to come is constant |
| `SvLock.StepKeepsInv` | IPC/unpv22e/lock/locksvsem.c:16-53 | one system call of any process keeps the invariant |
| `SvLock.RunKeepsInv` | IPC/unpv22e/lock/lockmain.c:19-36 | the same over whole runs, which bounds their length |
| `SvLock.EveryRunIsSafe` | IPC/unpv22e/lock/locksvsem.c:16-46 | in every run SETVAL happens at most once and before any process gets to a semop, and no increment is lost |
| `SvLock.EveryRunFinishes` | IPC/unpv22e/lock/lockmain.c:19-36 | every run is bounded, can stop only with every process finished or timed out, and then the file is its start plus the rounds of all that were not timed out |
| `SvLock.CreatorStalls` | IPC/unpv22e/lock/locksvsem.c:18-33 | finding, for any two or more processes and any rounds: the creator stalls before SETVAL and another process gives up |
| `SvLock.TimesOutIffTwo` | IPC/unpv22e/lock/locksvsem.c:27-33 | no process is ever timed out if and only if there is at most one or nothing to do |
| `SvLock.TimedOutIffInVain` | IPC/unpv22e/lock/locksvsem.c:27-37 | in every run a process gives up if and only if it has taken MAX_TRIES looks, all before the first semop of anybody; one later look lets it in |
| `SvLock.CountsAllIffLooked` | IPC/unpv22e/lock/lockmain.c:19-36 | at the end of a run of any number of processes the file has counted every iteration if and only if no process looked in vain |
| `SvLock.CarryOn` | IPC/unpv22e/lock/lockmain.c:19-37 | every run can be carried on to an end |
| `SvLock.CountsAllUnlessTimedOut` | IPC/unpv22e/lock/lockmain.c:19-36 | at the end of a run the file is its start plus all iterations if and only if nobody was timed out |
| `SvLock.CountsAllIffAlone` | IPC/unpv22e/lock/lockmain.c:19-36 | the file ends at its start plus all iterations under every schedule if and only if there is at most one process or nothing to do |
| `LineReader.LineIsPrefix` | IPC/unpv22e/lib/readline.c:27-50 | a line is a prefix of the stream within the limit, and not empty unless the stream is |
| `LineReader.LineStops` | IPC/unpv22e/lib/readline.c:34-46 | a newline is only ever the last byte of a line, and a line without one is cut by the limit or the end |
| `LineReader.StoppedIsLine` | IPC/unpv22e/lib/readline.c:34-49 | a newline, the limit or the end of the stream, whichever comes first, ends the line, and the count returned is one more than the bytes stored unless it was a newline |
| `LineReader.NextLine` | IPC/unpv22e/lib/readline.c:27-50 | one call takes the first line off the lines of the stream |
| `LineReader.LinesPartition` | IPC/unpv22e/lib/readline.c:27-50 | the lines of a stream concatenate to it, each within the limit |
| `LineReader.Reader.Fill` | IPC/unpv22e/lib/readline.c:11-20 | refilling loses nothing, retries on EINTR, and reports zero exactly at the end of the file |
| `LineReader.Reader.Take` | IPC/unpv22e/lib/readline.c:22-24 | hands out the next pending byte |
| `LineReader.Reader.MyRead` | IPC/unpv22e/lib/readline.c:4-25 | buffered reading gives the same bytes as reading the stream one at a time, for every splitting by read |
| `LineReader.Reader.ReadLine` | IPC/unpv22e/lib/readline.c:27-50 | stores exactly the next line, at most maxlen - 1 bytes, and a zero behind it; the count returned is one more than the bytes stored unless the line ended in a newline |
| `LineReader.Reader.ReadAll` | IPC/unpv22e/fifocliserv/mainserver.c:21 | successive calls store exactly the lines of the stream |
| `LineReader.CountsOneTooMany` | IPC/unpv22e/lib/readline.c:39-49 | finding: on the stream of the single byte a, with room for nine, one byte is stored and the count returned is 2 |
| `Transfer.WriteN` | IPC/unpv22e/lib/writen.c:4-25 | all bytes in order under any partial writes and interruptions, or -1 with a proper prefix written |
| `Transfer.ReadN` | IPC/unpv22e/lib/readn.c:4-26 | the next bytes of the stream in order; fewer than n only at the end of the file |
| `Transfer.SendAndReceive` | IPC/unpv22e/lib/writen.c:11-24 | writen followed by readn delivers the same bytes, whatever the partial transfers, unless an end fails |
| `Checksum.AddUp` | UNPLearning/notes/ping/myping.c:221-237 | the loop and the odd last byte give the sum of the 16-bit words modulo 2^32 |
| `Checksum.Compute` | UNPLearning/notes/ping/myping.c:221-244 | for packets of up to 131074 bytes the complement of the end-around-carry sum; beyond, the wrapped sum folded |
| `Checksum.OnesSumReduces` | UNPLearning/notes/ping/myping.c:239-240 | end-around-carry addition word by word is the sum reduced modulo 65535, with 0 only for 0 |
| `Checksum.FoldReduces` | UNPLearning/notes/ping/myping.c:239-240 | two folds reduce any 32-bit sum the same way |
| `Checksum.DeferredCarries` | UNPLearning/notes/ping/myping.c:221-244 | up to 65537 words the sum cannot overflow and the result is the complement of the end-around-carry sum |
| `Checksum.ChecksummedPacketSumsToOnes` | UNPLearning/notes/ping/myping.c:221-244 | a packet whose zeroed checksum word is replaced by the result sums to all ones |
| `Checksum.WordsUpdate` | UNPLearning/notes/ping/myping.c:193-194 | storing the checksum bytes changes that word and no other |
| `Checksum.ReceiverComputesZero` | UNPLearning/notes/ping/myping.c:193-194 | a packet of up to 131074 bytes with its zeroed checksum bytes filled in checks to zero |
| `Checksum.SendAndCheck` | UNPLearning/notes/ping/myping.c:193-194 | the sender fills in the checksum, the receiver computes zero, and no other byte is changed |
| `Checksum.RightIffNoOverflow` | UNPLearning/notes/ping/myping.c:227-240 | the result is right on every packet of n words if and only if n <= 65537 |

## Left out

- Multi-threaded programs are transition systems over values; update in place of the shared structures is modelled for the mapped queue, the read-write lock, the semaphore and the library functions, whose methods are the sections that the transition systems interleave.
- BoundedBuffer.EveryRunFinishes: speaks of programs with at least one producer and one consumer and a buffer of at least one slot; the sums are of mathematical integers, without the overflow of `int`.
- TwoLock.EveryRunFinishes: the bound grows with the number of spurious wake-ups, which nothing limits.
- TwoLock.EveryRunIsSafe: a mismatch that makes `MutexAndCond.c` exit is counted as an error instead of ending the run; it is proved that none occurs.
- MappedQueue.MessageQueue: message headers and message bytes are two views of the same offsets; that no two of them share a byte is proved separately (`MappedQueue.ExtentsApart`), and the fields of the queue header other than `mqh_head` are fields of the class. A null `priop` and the sizes of types on other machines are not modelled; the size of the queue header is a parameter.
- MappedQueue.Create: does not model the unlinking of the file after EINVAL.
- OpenRace.EveryOpenIsSafe: the name is never unlinked and the creator does not fail; after an unlink the descriptor and the later stat may name different files.
- OpenRace.EveryOpenEnds: `goto again` after a file has vanished cannot happen without an unlink, so it does not lengthen a call.
- SvLock.EveryRunFinishes: counts the rounds of the processes that were not timed out; when that is all of them is `SvLock.CountsAllIffAlone`.
- SvLock.EveryRunIsSafe: no process dies and the set is never removed, so SEM_UNDO does nothing; the sequence file is a number, not text.
- RwLock.NobodyStranded: every thread holds the lock at most once and only holders unlock; a `pthread_cond_wait` that returns an error, after which the cancelable variant returns 0 without the lock, is not modelled.
- Checksum.Compute: the words are those of a little-endian machine.
- Checksum.ChecksummedPacketSumsToOnes: is about words; the statement on bytes is `Checksum.ReceiverComputesZero`.
- Streams.Descriptor and Streams.Sink are the environment of the library functions, not code of the repository.
- Failures of malloc, mmap and the pthread initialisers, errno beyond the error codes named above, and the EINVAL tests of `rw_magic` and `sem_magic`.
- `mymq_close`, `mymq_getattr`, `mymq_setattr`, `mymq_unlink`, `mysem_close`, `mysem_getvalue`: they would only add easy members.
- The shared-memory message log `pxshm/client2.c` and `server2.c`, which copies the message after releasing the mutex.
- Programs that are unsynchronised or deadlock on purpose, benchmarks and timing.
- Doors, Sun RPC, the System V command-line tools, real-time signals, pipes and FIFOs, sockets, interface listing, and the rest of `myping.c`: input/output and kernel behaviour.
