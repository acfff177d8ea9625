# Control board kernel: a verified model

The control board firmware runs on the RT-Thread 2.1 kernel and the finsh shell. This project models its
hard, self-contained parts in Dafny and proves what they are relied on for.

| file | what it models |
|---|---|
| `SerialProtocol.dfy` | the byte-stuffing encoder and resynchronising decoder of the serial link |
| `IpcList.dfy`, `WaitList.dfy` | the wait lists of the IPC objects |
| `Event.dfy`, `Mutex.dfy`, `Mailbox.dfy`, `MessageQueue.dfy` | IPC objects as machines whose steps are the sections between disabling and enabling interrupts; threads interleave between steps |
| `RtList.dfy`, `MemHeap.dfy` | the doubly linked rings and the heap built on two of them |
| `SmallMem.dfy` | the offset-linked first-fit heap with its lfree shortcut |
| `PageAlloc.dfy`, `Slab.dfy` | the page allocator and the zones above it |
| `Timer.dfy` | the skip list of timers under wrap-around of the 32-bit tick, with ticks between the sections of a start |
| `Ffs.dfy`, `Scheduler.dfy` | find-first-set, ready queues, priority bitmap, thread states, time slices; again the sections are the steps |
| `FinshHeap.dfy` | the heap of the shell with its garbage collector |
| `FinshMachine.dfy`, `FinshArithmetic.dfy`, `FinshCompiler.dfy`, `FinshParser.dfy`, `FinshLines.dfy`, `FinshValues.dfy` | the byte-code machine and what its arithmetic means, the type check and compiler, and the parser of the shell |
| `Sequences.dfy`, `Division.dfy` | sequences without repetition, optional values, quotients |

Each module has the state as a value and the operations as functions on it, the theorems about these
functions, and a class whose methods do the same in place, with the loops of the source, and are proved
against the functions.

Where the code does not do what one expects of it, the model follows the code, a lemma gives an input, and
another one says for all inputs when code and expectation agree:

| | input | if and only if |
|---|---|---|
| the 8-bit hold count of a mutex | `Mutex.WrappedHoldFreesTheMutex` | `Mutex.KeepsInvIff` |
| hand-off under the FIFO flag | `Mutex.FifoInverts` | `Mutex.StepInheritsIff` |
| lfree after a shrinking realloc | `SmallMem.ShrinkHidesBlock` | `SmallMem.LowestShrunk` |
| a realloc to a smaller size, refused | `SmallMem.SmallerReallocFails` | `SmallMem.SmallerRefusedIff` |
| ticks between the sections of a timer start | `Timer.LateInsertIsLost` | `Timer.InsertKeepsIff` |
| resumes of one thread that overlap | `Scheduler.ResumedTwice` | `Scheduler.StepKeepsInvIff` |
| a decoder just after a lone SOM | `SerialProtocol.LoneSomLosesFrame` | `SerialProtocol.IdleDecodesIff` |
| ++ and -- of pointees | `FinshCompiler.StepCorrectIff` | `FinshCompiler.StepCorrectIff` |
| lines with empty statements | `FinshLines.LostStatement` | `FinshLines.HarmlessIff` |
| assignments to what has no address | `FinshValues.TwoValuesLeft` | `FinshValues.ValuesLeft` |

Besides, the search of `rt_malloc` never ends in a heap below the minimum size
(`SmallMem.SmallHeapSearchesForever`). The wrapped comparison of timers orders them exactly if a window of half
the tick range holds all time-outs (`Timer.OrderNeedsWindow`); pairwise distances are not enough
(`Timer.PairwiseIsNotEnough`), and the code keeps the window as long as every tick is checked and no timer is
inserted later than init_tick ticks after its start has read the tick (`Timer.WindowAlways`). Then every timer
fires on time (`Timer.FiresOnTime`). The starts and resumes of `src/ipc.c` and of
`rt_thread_sleep` run with interrupts disabled throughout; those of drivers and applications need not.

## Model

| member | source | states |
|---|---|---|
| SerialProtocol.PutCharKeepsConsistent | SC_CtrlBoard_arm/bsp/stm32f40x/TOOLS/serial_protocol.c:14-101 | any byte, in any consistent decoder state, leaves the write index within rx_length and the buffer, yields at most one callback, and only for a payload that is well formed |
| SerialProtocol.FeedKeepsConsistent | SC_CtrlBoard_arm/bsp/stm32f40x/TOOLS/serial_protocol.c:14-110 | the same over any byte sequence |
| SerialProtocol.FeedBody | SC_CtrlBoard_arm/bsp/stm32f40x/TOOLS/serial_protocol.c:32-110 | the stuffed bytes of a payload rebuild its prefix, byte by byte, without a callback before the end |
| SerialProtocol.ChecksumDecides | SC_CtrlBoard_arm/bsp/stm32f40x/TOOLS/serial_protocol.c:57-70 | from any decoder state not just after a lone SOM: a well-formed payload sent with any byte where its checksum belongs is delivered if that byte is the checksum, and is reported as a checksum failure otherwise |
| SerialProtocol.OnlyFramesDeliver | SC_CtrlBoard_arm/bsp/stm32f40x/TOOLS/serial_protocol.c:42-110 | over any bytes an idle decoder delivers nothing but what was sent: each payload that comes out is well formed, and its whole frame, checksum included, stands in the bytes |
| SerialProtocol.ShortLengths | SC_CtrlBoard_arm/bsp/stm32f40x/TOOLS/serial_protocol.c:21-25 | the four payload lengths that a header byte of 0xc0 and above announces |
| SerialProtocol.FrameDecodes | SC_CtrlBoard_arm/bsp/stm32f40x/TOOLS/serial_protocol.c:14-134 | from any decoder state not just after a lone SOM, feeding the encoding of a well-formed payload gives exactly one callback with that payload and leaves the decoder idle |
| SerialProtocol.FrameDecodesIff | SC_CtrlBoard_arm/bsp/stm32f40x/TOOLS/serial_protocol.c:14-134 | in a consistent state a frame comes back as its payload if and only if the payload is well formed (first byte not SOM, length as its header says) |
| SerialProtocol.LoneSomLosesFrame | SC_CtrlBoard_arm/bsp/stm32f40x/TOOLS/serial_protocol.c:76-101 | just after a lone SOM an idle decoder yields nothing for a frame |
| SerialProtocol.IdleDecodesIff | SC_CtrlBoard_arm/bsp/stm32f40x/TOOLS/serial_protocol.c:76-134 | an idle decoder yields the payload of a well-formed frame if and only if it has not just seen a lone SOM |
| SerialProtocol.StreamDecodes | SC_CtrlBoard_arm/bsp/stm32f40x/TOOLS/serial_protocol.c:14-134 | concatenated frames decode to the sequence of payloads |
| SerialProtocol.StreamDecodesAfterNoise | SC_CtrlBoard_arm/bsp/stm32f40x/TOOLS/serial_protocol.c:14-134 | the same behind arbitrary noise that does not end in a lone SOM: the decoder resynchronises |
| SerialProtocol.FrameEndsApart | SC_CtrlBoard_arm/bsp/stm32f40x/TOOLS/serial_protocol.c:14-134 | in whatever state a frame meets the decoder, it does not leave it just after a lone SOM |
| SerialProtocol.StreamDecodesAfterAnyNoise | SC_CtrlBoard_arm/bsp/stm32f40x/TOOLS/serial_protocol.c:14-134 | so after any noise, from any state, no more than the first frame is lost |
| SerialProtocol.Protocol.Put | SC_CtrlBoard_arm/bsp/stm32f40x/TOOLS/serial_protocol.c:76-101 | the in-place decoder step is PutChar on its state, callbacks included, and keeps the buffer invariant |
| SerialProtocol.Protocol.PutBuffer | SC_CtrlBoard_arm/bsp/stm32f40x/TOOLS/serial_protocol.c:103-110 | the loop over a buffer is Feed |
| SerialProtocol.Protocol.GetOutputData | SC_CtrlBoard_arm/bsp/stm32f40x/TOOLS/serial_protocol.c:112-134 | the encoder fills the transmit buffer with exactly the frame of the payload |
| IpcList.InsertKeepsSorted | SC_CtrlBoard_arm/src/ipc.c:92-135 | a priority wait list stays sorted, and a new waiter goes behind those of equal or better priority and before all others |
| IpcList.FindPosition | SC_CtrlBoard_arm/src/ipc.c:92-135 | the search loop finds that place, and the end under the FIFO flag |
| WaitList.EnqueueWaits | SC_CtrlBoard_arm/src/ipc.c:92-135 | suspending a thread that does not wait adds it, and it only, to a wait list without duplicates |
| WaitList.FirstLeaves | SC_CtrlBoard_arm/src/ipc.c:146-159 | resuming takes the first waiter off, and it only |
| WaitList.EnqueuePlaces | SC_CtrlBoard_arm/src/ipc.c:92-135 | a thread goes behind all others under FIFO; under PRIO behind those that are no worse and before those that are |
| Event.ScanLeavesUnsatisfied | SC_CtrlBoard_arm/src/ipc.c:998-1077 | after a send, no waiter left on the list is satisfied by the bits left, although CLEAR takes bits away in mid-scan |
| Event.ScanPartitions | SC_CtrlBoard_arm/src/ipc.c:998-1077 | each waiter either still waits or has been woken with its own request; nobody is woken twice |
| Event.ScanDecides | SC_CtrlBoard_arm/src/ipc.c:1021-1062 | the i-th waiter is woken exactly if the bits left by those before it satisfy its condition, and is told exactly those of its bits |
| Event.ScanConserves | SC_CtrlBoard_arm/src/ipc.c:1021-1062 | a bit is gone after the scan exactly if some woken waiter asked to clear it, and at most one waiter takes it |
| Event.StepKeepsInv | SC_CtrlBoard_arm/src/ipc.c:998-1238 | send, receive, time-out, reset and return keep: no suspended waiter is satisfied, and every woken one got a non-empty part of what it asked for (all of it under AND) |
| Event.RunsKeepInv | SC_CtrlBoard_arm/src/ipc.c:998-1238 | no wake-up is lost over any run, in any interleaving |
| Event.NoWakeUpIsLost | SC_CtrlBoard_arm/src/ipc.c:998-1238 | so none is lost from rt_event_init on |
| Event.StepSets | SC_CtrlBoard_arm/src/ipc.c:998-1238 | a bit is set after a step exactly if it was set or is sent in it, the step is no reset, and nobody with CLEAR takes the bit |
| Event.EventsAre | SC_CtrlBoard_arm/src/ipc.c:998-1238 | over all runs from rt_event_init: a bit is set exactly if some thread has sent it, and since then, that step included, there has been no reset and no receiver with CLEAR, woken or not, has taken it |
| Event.RunsAsAsked | SC_CtrlBoard_arm/src/ipc.c:998-1238 | over all runs threads wait for the very bits and options they have asked for, and are told that they have received some, that their time is over, or that there was a reset, whichever has happened |
| Event.RecvAnswers | SC_CtrlBoard_arm/src/ipc.c:1110-1192 | what rt_event_recv answers at once: an error exactly for an empty set, the wanted bits that are set exactly if they satisfy it, a time-out exactly if they do not and it does not wait; otherwise it waits |
| Event.SatisfiedIff | SC_CtrlBoard_arm/src/ipc.c:1118-1132 | AND is satisfied exactly by all bits asked for, OR exactly by any one |
| Event.SuspendPlaces | SC_CtrlBoard_arm/src/ipc.c:92-135 | where a receiver goes in the wait list, under either flag |
| Event.EventObject.SendBits | SC_CtrlBoard_arm/src/ipc.c:998-1077 | the in-place loop over the wait list is the scan |
| Event.EventObject.Receive | SC_CtrlBoard_arm/src/ipc.c:1093-1201 | the section of rt_event_recv is Recv on the state |
| Mutex.StepKeepsInv | SC_CtrlBoard_arm/src/ipc.c:642-859 | every take, release, time-out and return keeps: value 1, no owner and hold 0 coincide, waiters imply an owner, a blocked take that returns OK does so as owner; with the PRIO flag the owner is never worse than a waiter and the list is in order |
| Mutex.RunsKeepInv | SC_CtrlBoard_arm/src/ipc.c:642-859 | the same over all runs without overflow of the hold count |
| Mutex.NetIsHeld | SC_CtrlBoard_arm/src/ipc.c:642-859 | successful takes less releases of a thread are what it holds |
| Mutex.MutualExclusion | SC_CtrlBoard_arm/src/ipc.c:642-859 | two threads never both hold the mutex: if one has taken more often than released, it is the owner and the other one has not |
| Mutex.PriorityInheritance | SC_CtrlBoard_arm/src/ipc.c:642-859 | over all runs with the PRIO flag: the owner is never worse than any waiter, everyone else has its own priority, and the last release restores the priority of the owner and hands the mutex on exactly if someone waits |
| Mutex.RunsBorrowExactly | SC_CtrlBoard_arm/src/ipc.c:642-859 | over all runs, under either flag: the owner runs at its own priority, or at the best of the threads that have blocked on it since it got the mutex, whichever is better, and at no other |
| Mutex.TakeAnswers | SC_CtrlBoard_arm/src/ipc.c:642-761 | a take succeeds at once exactly if the mutex is free or the own one, fails at once exactly if it is not and the thread does not wait, and otherwise suspends the thread, with a timer exactly if the time is positive, behind all others under FIFO |
| Mutex.ReleaseAnswers | SC_CtrlBoard_arm/src/ipc.c:772-859 | a release succeeds exactly for the owner, who gives one hold back, or the mutex to the first waiter; otherwise nothing changes but the error |
| Mutex.KeepsInvIff | SC_CtrlBoard_arm/src/ipc.c:667-671 | a step keeps the invariant if and only if it does not take the 8-bit hold count over its limit |
| Mutex.TakeManyHolds | SC_CtrlBoard_arm/src/ipc.c:667-671 | nested takes count up to the limit, and wrap to 0 there |
| Mutex.WrappedHoldFreesTheMutex | SC_CtrlBoard_arm/src/ipc.c:642-859 | a concrete failing family: after one take more than the 8-bit hold count has values, one release frees the mutex to another thread |
| Mutex.HandOffInheritsIff | SC_CtrlBoard_arm/src/ipc.c:805-850 | under either flag the end of the last hold leaves the new owner no worse than any waiter if and only if the first waiter was the best of all |
| Mutex.StepInheritsIff | SC_CtrlBoard_arm/src/ipc.c:642-859 | under either flag a step from a state without inversion leads to one if and only if it is such a hand-off to a waiter that is worse than another |
| Mutex.RunsInherit | SC_CtrlBoard_arm/src/ipc.c:642-859 | so a run without such hand-offs has no inversion, under either flag |
| Mutex.PrioNeverInverts | SC_CtrlBoard_arm/src/ipc.c:92-135 | and under the PRIO flag, whose lists are in order, there is none |
| Mutex.FifoInverts | SC_CtrlBoard_arm/src/ipc.c:772-859 | a reachable run under the FIFO flag whose hand-off leaves the new owner worse than a waiter |
| Mutex.MutexObject.TakeMutex | SC_CtrlBoard_arm/src/ipc.c:642-761 | the in-place sections of rt_mutex_take are Take, and keep the invariant unless the count wraps |
| Mutex.MutexObject.ReleaseMutex | SC_CtrlBoard_arm/src/ipc.c:772-859 | the in-place section of rt_mutex_release is Release, and keeps the invariant |
| Mailbox.PutAppends | SC_CtrlBoard_arm/src/ipc.c:1499-1505 | writing at in_offset, with wrap-around, appends to the queue that the ring stands for |
| Mailbox.GetRemovesFirst | SC_CtrlBoard_arm/src/ipc.c:1645-1653 | reading at out_offset yields and removes its first mail |
| Mailbox.StepKeepsInv | SC_CtrlBoard_arm/src/ipc.c:1406-1717 | every section of send, receive, time-out and reset keeps the ring and: if receivers wait, there are at most as many mails as receivers woken and not yet run; if senders wait, the same of free places |
| Mailbox.RunsKeepInv | SC_CtrlBoard_arm/src/ipc.c:1406-1717 | the same over any interleaving, barging included; under PRIO no thread waits behind a worse one |
| Mailbox.MailboxIsAQueue | SC_CtrlBoard_arm/src/ipc.c:1406-1717 | mails sent, as their senders gave them, are, in order, the mails got and then those in the ring; each call that waits or was resumed has its operation, its priority and what is left of its time, and the reason for which it was resumed; when every pending call is suspended, receivers wait only at an empty mailbox and senders only at a full one |
| Mailbox.CallAnswers | SC_CtrlBoard_arm/src/ipc.c:1406-1676 | what a call returns: the error of its reset or time-out; else, at a full mailbox (or an empty one), it gives up exactly if no time is left and waits exactly if there is some; else a sender has sent, and a receiver gets the oldest mail |
| Mailbox.ResetKeepsInv | SC_CtrlBoard_arm/src/ipc.c:1688-1717 | a reset empties the ring and resumes every waiter with an error |
| Mailbox.MailboxObject.SendSection | SC_CtrlBoard_arm/src/ipc.c:1406-1524 | a section of rt_mb_send_wait on the array is SendPass |
| Mailbox.MailboxObject.RecvSection | SC_CtrlBoard_arm/src/ipc.c:1553-1676 | a section of rt_mb_recv on the array is RecvPass |
| MessageQueue.InitHolds | SC_CtrlBoard_arm/src/ipc.c:1740-1787 | rt_mq_init puts every node on the free list |
| MessageQueue.StepKeepsInv | SC_CtrlBoard_arm/src/ipc.c:1926-2280 | at every step of send, urgent send, receive, copying, time-out and reset each node is in exactly one of queue, free list and the hands of one thread, entry is the length of the queue, tail is its last node or null, and queued nodes hold their messages while others copy outside the lock |
| MessageQueue.StepOnDeque | SC_CtrlBoard_arm/src/ipc.c:1926-2280 | what each step does to the messages: a send appends, an urgent one prepends, a receive takes the first, a reset empties, copying and time-outs change nothing |
| MessageQueue.EndGivesMessage | SC_CtrlBoard_arm/src/ipc.c:2191-2216 | the bytes that a receive ends with are as many as its call was set to copy, and agree with the message that was first when it took the node |
| MessageQueue.ReceiverGetsWhatItAsked | SC_CtrlBoard_arm/src/ipc.c:2191-2216 | their number is the one the caller of rt_mq_recv gave, or the size of a message if that is less; and if the caller gave no less than the length of the message, the whole message comes first in them |
| MessageQueue.DrainKeeps | SC_CtrlBoard_arm/src/ipc.c:2243-2269 | a reset moves every queued node to the free list and leaves nodes in the hands of threads alone |
| MessageQueue.RunsKeepInv | SC_CtrlBoard_arm/src/ipc.c:1926-2280 | the invariant over any interleaving |
| MessageQueue.MessageQueueIsADeque | SC_CtrlBoard_arm/src/ipc.c:1740-2280 | over all runs from rt_mq_init: nodes are conserved, no wake-up is lost, and without calls in progress every node is queued or free |
| MessageQueue.RunsAsAsked | SC_CtrlBoard_arm/src/ipc.c:1926-2280 | over all runs a send links the message it was given, urgently exactly if it was called so, and a receive that waits or was resumed has its size, its priority, what is left of its time, and the reason for which it was resumed |
| MessageQueue.RunsGiveWhatIsAsked | SC_CtrlBoard_arm/src/ipc.c:1740-2280 | so over all runs from rt_mq_init every receive that ends gives its caller what it asked for |
| MessageQueue.SendAnswers | SC_CtrlBoard_arm/src/ipc.c:1926-1958 | a send fails at once exactly if the message is too long, is refused as full exactly if it fits and no node is free, and otherwise begins to fill a node |
| MessageQueue.RecvAnswers | SC_CtrlBoard_arm/src/ipc.c:2097-2205 | a receive, or a new try of it, returns the error of its reset or time-out; else at an empty queue it gives up exactly if no time is left and waits exactly if there is some, and at any other it takes the first message |
| MessageQueue.RunsKeepOrder | SC_CtrlBoard_arm/src/ipc.c:1926-2280 | under PRIO no receiver ever waits behind a worse one |
| MessageQueue.MessageQueueObject.BeginSend | SC_CtrlBoard_arm/src/ipc.c:1926-1958 | the first section of a send on the linked nodes is SendStart |
| MessageQueue.MessageQueueObject.EndSend | SC_CtrlBoard_arm/src/ipc.c:1965-2000 | its second section is SendLink |
| MessageQueue.MessageQueueObject.Receive | SC_CtrlBoard_arm/src/ipc.c:2097-2205 | a pass of rt_mq_recv is RecvPass |
| MessageQueue.MessageQueueObject.EndReceive | SC_CtrlBoard_arm/src/ipc.c:2210-2223 | its last section is RecvEnd |
| MessageQueue.MessageQueueObject.ResetQueue | SC_CtrlBoard_arm/src/ipc.c:2243-2269 | the loop of a reset is Reset |
| RtList.InsertKeepsRing | SC_CtrlBoard_arm/include/rtservice.h:62-71 | inserting behind a node of a ring gives the ring with the new node in that place, next and prev inverse |
| RtList.InsertBeforeIsAfter | SC_CtrlBoard_arm/include/rtservice.h:77-84 | inserting before a node is inserting behind its predecessor |
| RtList.InsertBeforeHeadAppends | SC_CtrlBoard_arm/include/rtservice.h:77-84 | inserting before the head appends to the list |
| RtList.RemoveKeepsRing | SC_CtrlBoard_arm/include/rtservice.h:90-96 | a removed node is a ring of its own and the others close up in order |
| RtList.DetachUndoesInsert | SC_CtrlBoard_arm/include/rtservice.h:62-96 | unlinking undoes insertion, link for link, for every other node |
| MemHeap.InitHolds | SC_CtrlBoard_arm/src/memheap.c:60-131 | the initial pool satisfies the invariant and nothing is allocated |
| MemHeap.AllocKeepsInv | SC_CtrlBoard_arm/src/memheap.c:146-288 | allocation at a free block keeps: blocks tile the pool up to the used tailer, both rings are doubly linked, the free ring holds exactly the unused blocks, no two of them touch, available_size is the sum of their payloads, max_used_size bounds what is used; the new block has at least the size asked for and less than the splitting threshold more |
| MemHeap.AllocSplit | SC_CtrlBoard_arm/src/memheap.c:195-243 | a block with room for another one is split to exactly the request |
| MemHeap.AllocWhole | SC_CtrlBoard_arm/src/memheap.c:244-262 | a smaller one is taken whole |
| MemHeap.FreeKeepsInv | SC_CtrlBoard_arm/src/memheap.c:499-596 | free, with coalescing on either side, keeps the invariant and takes away exactly that block from the allocated ones |
| MemHeap.GrowKeepsInv | SC_CtrlBoard_arm/src/memheap.c:319-406 | growing in place into the next free block keeps the invariant and changes the size of that block only |
| MemHeap.ShrinkKeepsInv | SC_CtrlBoard_arm/src/memheap.c:423-496 | shrinking in place, with the rest joined to a free neighbour, keeps it likewise |
| MemHeap.LiveInPool | SC_CtrlBoard_arm/src/memheap.c:60-596 | an allocated block lies inside the pool, aligned, before the tailer |
| MemHeap.LiveApart | SC_CtrlBoard_arm/src/memheap.c:60-596 | allocated blocks do not overlap |
| MemHeap.PoolAddsUp | SC_CtrlBoard_arm/src/memheap.c:60-596 | available_size, the allocated bytes and one header per block add up to the pool size |
| MemHeap.RequestIsLeast | SC_CtrlBoard_arm/src/memheap.c:154-159 | the size allocated for is the least multiple of the alignment that is no less than the request and the minimum |
| MemHeap.GrowsIff | SC_CtrlBoard_arm/src/memheap.c:337-357 | a block grows in place if and only if the next one is free and up to the one behind it there is room for the new size, a header and more than the minimum |
| MemHeap.ListedFirst | SC_CtrlBoard_arm/src/memheap.c:206-240 | the rest of a split, of a growth or of a shrink, and a released block that is not merged to the left, come first in the free list |
| MemHeap.MostUsed | SC_CtrlBoard_arm/src/memheap.c:241-249 | max_used_size becomes the larger of itself and what is in use, at every allocation and growth, and at nothing else |
| MemHeap.MemoryHeap.Alloc | SC_CtrlBoard_arm/src/memheap.c:146-288 | first fit: null exactly if the aligned request is not below available_size or no free block is large enough, and then nothing changes; otherwise one block is added, in the first block of the free list that is large enough |
| MemHeap.MemoryHeap.FreeBlock | SC_CtrlBoard_arm/src/memheap.c:499-596 | null is ignored; otherwise the new state is Free, and the block is gone |
| MemHeap.MemoryHeap.Realloc | SC_CtrlBoard_arm/src/memheap.c:291-496 | size 0 frees; a size that fits stays in place, with the excess split off if it makes a block; a larger one grows into the next block if that is free and large enough, and otherwise moves, by first fit; null exactly if the size is 0, or a new block is needed and Alloc would refuse it, and then, but for a size of 0, neither the heap nor any byte changes; otherwise the result has the size asked for, keeps the first min(old, new) bytes, and leaves all other blocks and their bytes alone |
| MemHeap.MemoryHeap.Move | SC_CtrlBoard_arm/src/memheap.c:409-421 | null exactly if Alloc would refuse the request, and then nothing changes; otherwise allocates by first fit, copies the old payload and frees the old block |
| SmallMem.AllocatedKeeps | SC_CtrlBoard_arm/src/mem.c:246-375 | malloc at a free block keeps: blocks tile the heap, no two free ones touch (the no-split branch relies on it: what follows is used), used words grow by the span of the new block |
| SmallMem.PluggedKeeps | SC_CtrlBoard_arm/src/mem.c:136-174 | plug_holes restores that no two free blocks touch, whatever the neighbours, and changes no allocation |
| SmallMem.FreedKeeps | SC_CtrlBoard_arm/src/mem.c:505-559 | free gives back exactly that block and its span |
| SmallMem.ShrunkKeeps | SC_CtrlBoard_arm/src/mem.c:431-455 | a shrinking realloc leaves the block with the new size and gives back the difference |
| SmallMem.MarkRepresents | SC_CtrlBoard_arm/src/mem.c:313-341 | writing the used flag into the heap array is Mark on the blocks |
| SmallMem.SplitRepresents | SC_CtrlBoard_arm/src/mem.c:303-319 | the header writes of a split, prev of heap_end excepted, are Split on the blocks |
| SmallMem.JoinRepresents | SC_CtrlBoard_arm/src/mem.c:136-174 | those of a merge are Join |
| SmallMem.SplitKeepsData | SC_CtrlBoard_arm/src/mem.c:303-319 | splitting a block touches no word of another allocation |
| SmallMem.JoinKeepsData | SC_CtrlBoard_arm/src/mem.c:136-174 | merging free blocks touches no word of an allocation |
| SmallMem.LfreePluggedOk | SC_CtrlBoard_arm/src/mem.c:136-174 | plug_holes keeps lfree on a free block, and on the lowest one if it was |
| SmallMem.LfreeFreed | SC_CtrlBoard_arm/src/mem.c:505-559 | so does free |
| SmallMem.LfreeShrunk | SC_CtrlBoard_arm/src/mem.c:431-455 | a shrinking realloc keeps lfree on a free block or heap_end |
| SmallMem.LowestShrunk | SC_CtrlBoard_arm/src/mem.c:431-455 | after a shrink lfree is still the lowest free block if and only if it lies below the rest cut off or was the block merged with it: exactly when the code keeps the invariant that it otherwise relies on |
| SmallMem.LowestSearchesAll | SC_CtrlBoard_arm/src/mem.c:279-288 | with lfree the lowest free block, a block fits from lfree on exactly if it is free, large enough and starts strictly below the heap size less the request |
| SmallMem.LowestFindsAny | SC_CtrlBoard_arm/src/mem.c:279-288 | so the search from lfree fails exactly if no large-enough free block starts strictly below that bound; an exact fit in the tail is skipped |
| SmallMem.ShrinkHidesBlock | SC_CtrlBoard_arm/src/mem.c:431-455 | a concrete case of the shrink that loses this: the heap is full, its block shrinks, and a request is refused although 24 words are free |
| SmallMem.SmallHeapSearchesForever | SC_CtrlBoard_arm/src/mem.c:273-281 | on a heap smaller than the minimum request the unsigned bound of the search wraps and no block ever ends it |
| SmallMem.SystemHeap.PlugHoles | SC_CtrlBoard_arm/src/mem.c:136-174 | the in-place merge is Plugged, and moves lfree as the code does |
| SmallMem.SystemHeap.Malloc | SC_CtrlBoard_arm/src/mem.c:246-375 | null exactly if the size is 0, exceeds the heap, or no block fits from lfree on below the bound, which with lfree the lowest free block is: no large-enough free block starts strictly below memSize less the request; otherwise one allocation is added, in the first block that fits, at most one minimum block larger than asked for, all other data stay, lfree stays the lowest free block if it was, and max_mem rises to used_mem if that is more |
| SmallMem.SystemHeap.Free | SC_CtrlBoard_arm/src/mem.c:505-559 | the block is given back, data of the others stay, lfree stays the lowest free block if it was; pointers outside the heap are ignored |
| SmallMem.SystemHeap.Realloc | SC_CtrlBoard_arm/src/mem.c:386-467 | null exactly if the request exceeds the heap, or rt_malloc refuses it where it is asked: for a null pointer, and for a block of another size that is not larger by more than a minimum block with its header; a block of the same size stays, a larger one is cut in place to the size asked for, and a pointer outside the heap comes back as it is; a moved block keeps its first min(old, new) words; all other allocations and their data stay, and failure changes nothing |
| SmallMem.SmallerReallocFails | SC_CtrlBoard_arm/src/mem.c:431-466 | a sound heap, filled by one block, in which a realloc to three words less is refused |
| SmallMem.SmallerRefusedIff | SC_CtrlBoard_arm/src/mem.c:431-466 | with lfree the lowest free block, a realloc to fewer words is refused if and only if it would give back no more than a minimum block with its header, and the size is 0 or no free block below the bound is large enough |
| SmallMem.SystemHeap.Search | SC_CtrlBoard_arm/src/mem.c:279-290 | the first fit from lfree |
| Timer.Compare | SC_CtrlBoard_arm/src/timer.c:356-363 | within half the tick range of a common base, the modular comparison is the order by distance from the base |
| Timer.PairwiseIsNotEnough | SC_CtrlBoard_arm/src/timer.c:316-363 | three tick values can be in a ring, each later than the next, although any two are less than half the range apart |
| Timer.OrderNeedsWindow | SC_CtrlBoard_arm/src/timer.c:316-363 | a row is in order under the modular comparison if and only if one window of half the range holds all its time-outs and it is sorted there |
| Timer.SearchFindsPlace | SC_CtrlBoard_arm/src/timer.c:339-367 | the row search by modular comparison finds the place behind all time-outs not later, so equal ones are first in, first out |
| Timer.PutSorted | SC_CtrlBoard_arm/src/timer.c:339-388 | inserting there keeps a row sorted by wrapped time-out |
| Timer.PutSubRow | SC_CtrlBoard_arm/src/timer.c:376-388 | an upper row stays an ordered part of the row below, whether or not the timer is inserted in the upper one |
| Timer.PutRowsOk | SC_CtrlBoard_arm/src/timer.c:294-409 | start keeps all rows, for any number of levels and any height |
| Timer.WithoutRowsOk | SC_CtrlBoard_arm/src/timer.c:123-131 | removal keeps all rows |
| Timer.SkippingFindsPlaces | SC_CtrlBoard_arm/src/timer.c:339-388 | the search that goes down from the node found above inserts at the very places that a full search of each row gives |
| Timer.HeightIff | SC_CtrlBoard_arm/src/timer.c:369-388 | a timer goes into more than k rows if and only if the last k pairs of bits of the counter are 0 |
| Timer.LinkedRows | SC_CtrlBoard_arm/src/timer.c:369-388 | so with the counter one higher, every fourth start goes into the second row from below, every sixteenth into the third |
| Timer.FiredAreDue | SC_CtrlBoard_arm/src/timer.c:488-546 | in rows in order the due timers are exactly those at the front of the bottom row up to the place of now |
| Timer.NoneDueMovesBase | SC_CtrlBoard_arm/src/timer.c:488-546 | when no timer is due the current tick takes the place of the base that the rows were seen from |
| Timer.CheckedKeeps | SC_CtrlBoard_arm/src/timer.c:488-546 | rt_timer_check as a function: the due timers, those at the front, fire and no others; afterwards none is due, and the window begins at the current tick |
| Timer.LinkedIff | SC_CtrlBoard_arm/src/timer.c:319-396 | rows in order seen from the current tick stay so by an insertion if and only if the timer is in no row and its time-out is less than half the range ahead |
| Timer.StartedIff | SC_CtrlBoard_arm/src/timer.c:294-409 | and by a start with nothing between its sections if and only if its time-out is |
| Timer.InsertKeepsIff | SC_CtrlBoard_arm/src/timer.c:311-396 | in a start, if and only if no more than init_tick ticks have come between reading the tick and inserting (or so many more than half the range beyond that, modulo the range, that the time-out looks like a coming one again) |
| Timer.LateInsertIsLost | SC_CtrlBoard_arm/src/timer.c:311-396 | a timer of one tick, inserted two ticks after its start read the tick, goes behind one that is due in half the range, and is not fired although it is overdue |
| Timer.RunsKeepWindow | SC_CtrlBoard_arm/src/timer.c:294-546 | over any sequence of ticks with their checks, starts and stops, however long, in which a start is two steps, reading the tick and inserting, and anything may come between: if no timer is inserted after its time is over, all active timers time out within half the range from the current tick |
| Timer.WindowAlways | SC_CtrlBoard_arm/src/timer.c:294-546 | from rt_system_timer_init on, over all such runs: the rows are in order seen from the current tick, no three time-outs are in a ring, and what fires at a tick is due at it, or was inserted in the last one when it was due already |
| Timer.StaysActive | SC_CtrlBoard_arm/src/timer.c:294-546 | over all such runs a timer that nobody starts or stops stays active with its time-out as long as fewer ticks come than it has left |
| Timer.FiresOnTime | SC_CtrlBoard_arm/src/timer.c:294-546 | a timer that is started, and then not stopped or started again, fires in the tick that is exactly init_tick ticks after the one the start has read, and not before, whatever comes between, even within the start |
| Timer.FiringRestarts | SC_CtrlBoard_arm/src/timer.c:520-535 | a periodic timer that fires is active again, and due a period later; any other one is not active any more |
| Timer.TimerList.SearchRows | SC_CtrlBoard_arm/src/timer.c:339-367 | the search loop over the levels |
| Timer.TimerList.Start | SC_CtrlBoard_arm/src/timer.c:294-409 | a start, also of an active timer, removes it from all rows and puts it in its place with its new time-out; seen from the current tick every init_tick that the source allows will do |
| Timer.TimerList.Stop | SC_CtrlBoard_arm/src/timer.c:419-442 | a stop removes the timer from all rows, and fails exactly if it was not active |
| Timer.TimerList.Check | SC_CtrlBoard_arm/src/timer.c:488-546 | seen from any tick that no active timer lies before, rt_timer_check terminates, fires exactly the due timers, in order, restarts the periodic ones from now, leaves none due, and the rows can then be seen from the current tick |
| Ffs.TableIsLowest | SC_CtrlBoard_arm/src/kservice.c:1194-1212 | each of the 255 table entries is the number of the lowest set bit |
| Ffs.FindsFirstSet | SC_CtrlBoard_arm/src/kservice.c:1224-1238 | __rt_ffs is 0 exactly for 0, and otherwise one more than the number of the lowest set bit of the 32 |
| Ffs.FindsLowestOfBits | SC_CtrlBoard_arm/src/kservice.c:1224-1238 | read as a set of priorities: the least member, plus one |
| Scheduler.SetMarks | SC_CtrlBoard_arm/src/scheduler.c:297-300 | with one level or two, setting a priority marks it and no other |
| Scheduler.ClearMarks | SC_CtrlBoard_arm/src/scheduler.c:338-349 | clearing unmarks it and no other, the group bit of the second level included |
| Scheduler.HighestIsBest | SC_CtrlBoard_arm/src/scheduler.c:205-212 | the search by __rt_ffs on one level or two gives the best marked priority |
| Scheduler.ScheduleSelects | SC_CtrlBoard_arm/src/scheduler.c:191-258 | unlocked, with some thread ready, rt_schedule makes current the first of the queue of the best priority among all ready threads |
| Scheduler.StepKeepsInvIff | SC_CtrlBoard_arm/src/scheduler.c:191-401 | every section of startup, suspend, resume, time-out, yield, change of priority, time slice and critical sections is a step of its own, with any other between; a step keeps (bit p is set exactly if queue p is not empty, and each ready thread is in exactly the queue of its priority) if and only if it is not one of a startup or a resume that finds its thread ready |
| Scheduler.RunsSelectTheBest | SC_CtrlBoard_arm/src/scheduler.c:191-401 | so after any run without those, however the calls interleave, rt_schedule selects the best ready thread, the one longest in its queue |
| Scheduler.StepKeepsCurrent | SC_CtrlBoard_arm/src/scheduler.c:191-401 | while the scheduler is locked no step, rt_schedule and time-outs included, changes the current thread |
| Scheduler.CriticalSection | SC_CtrlBoard_arm/src/scheduler.c:359-401 | over all runs: from rt_enter_critical to the rt_exit_critical that matches it, with other sections inside or around, the current thread is the same, and the nesting comes back to where it was |
| Scheduler.ExitSelects | SC_CtrlBoard_arm/src/scheduler.c:379-401 | the end of the outermost section makes the best ready thread current, that of an inner one changes nothing but the count |
| Scheduler.StepSelects | SC_CtrlBoard_arm/src/scheduler.c:191-401 | only rt_schedule changes the current thread, and an unlocked time-out ends with the best ready thread current |
| Scheduler.InsertIff | SC_CtrlBoard_arm/src/scheduler.c:267-304 | rt_schedule_insert_thread keeps the queues if and only if the thread is not ready |
| Scheduler.SchedulerObject.RunSchedule | SC_CtrlBoard_arm/src/scheduler.c:191-258 | the in-place section is Schedule, and keeps the invariant |
| Scheduler.SchedulerObject.InsertThread | SC_CtrlBoard_arm/src/scheduler.c:267-304 | the in-place section is Insert, and keeps the invariant for a thread that was not ready |
| Scheduler.SchedulerObject.RemoveThread | SC_CtrlBoard_arm/src/scheduler.c:313-353 | the in-place section is Remove; the invariant holds again once the thread is no longer ready |
| Scheduler.SchedulerObject.LeaveCritical | SC_CtrlBoard_arm/src/scheduler.c:379-401 | leaving the outermost critical section schedules, and the invariant is kept |
| Scheduler.UnlinkIff | SC_CtrlBoard_arm/src/thread.c:612-622 | the first section of rt_thread_resume keeps the queues if and only if the thread is not ready; then it is in none of them |
| Scheduler.PrepareIff | SC_CtrlBoard_arm/src/thread.c:203-226 | what rt_thread_startup writes before it resumes the thread keeps them if and only if the thread is not ready |
| Scheduler.ApartRunsAreSafe | SC_CtrlBoard_arm/src/thread.c:203-657 | calls in which no startup, resume or time-out of a thread begins while a startup or resume of it is under way never make such a step, however else they interleave |
| Scheduler.ResumedTwice | SC_CtrlBoard_arm/src/thread.c:603-627 | two resumes that both pass the check before either goes on put any suspended thread into its queue twice |
| Scheduler.ResumedTwiceExample | SC_CtrlBoard_arm/src/thread.c:603-627 | an input for that |
| Scheduler.SectionsResume | SC_CtrlBoard_arm/src/thread.c:595-627 | a resume with nothing between its sections is Resume |
| Scheduler.StepChanges | SC_CtrlBoard_arm/src/thread.c:203-657 | each section gives the thread that it is about the state and the priority that it should have, puts it last among its equals if it is inserted, and leaves the state, the priorities and the order of all others alone |
| Scheduler.YieldRotates | SC_CtrlBoard_arm/src/thread.c:377-411 | a yield of the current thread moves it behind the others of its priority and runs the next |
| Scheduler.SchedulerObject.YieldThread | SC_CtrlBoard_arm/src/thread.c:377-411 | the in-place section is Yield |
| Scheduler.SchedulerObject.SuspendThread | SC_CtrlBoard_arm/src/thread.c:554-585 | only a ready thread is suspended, and the invariant is kept |
| Scheduler.SchedulerObject.UnlinkThread | SC_CtrlBoard_arm/src/thread.c:612-615 | the in-place section is Unlink |
| Scheduler.SchedulerObject.ResumeThread | SC_CtrlBoard_arm/src/thread.c:595-627 | only a suspended thread is resumed, and the invariant is kept |
| Scheduler.SchedulerObject.ChangeThreadPriority | SC_CtrlBoard_arm/src/thread.c:485-526 | a ready thread changes queues, another one only its priority, and the invariant is kept |
| Scheduler.RoundRobin | SC_CtrlBoard_arm/src/clock.c:83-105 | with nothing but ticks, after the time slices of the first k threads of the top queue these have moved behind the others with init_tick, and the k-th runs |
| Scheduler.RoundRobinTurn | SC_CtrlBoard_arm/src/clock.c:83-105 | the thread at position k runs from exactly the sum of remaining_tick of those ahead of it, for its own slice |
| Scheduler.SchedulerObject.TickIncrease | SC_CtrlBoard_arm/src/clock.c:83-105 | the in-place section is Tick |
| PageAlloc.AllocRefuses | SC_CtrlBoard_arm/src/slab.c:246-280 | page allocation fails exactly for 0 pages or if no run is long enough, and then changes nothing |
| PageAlloc.AllocTakes | SC_CtrlBoard_arm/src/slab.c:246-280 | otherwise the pages given were free, are free no longer, and no other page changes; the list stays sorted, disjoint and coalesced |
| PageAlloc.AllocFirstFit | SC_CtrlBoard_arm/src/slab.c:246-280 | they are the first ones of the first run that is long enough |
| PageAlloc.FreeGives | SC_CtrlBoard_arm/src/slab.c:282-332 | a release adds exactly its pages and keeps the list sorted, disjoint and maximally coalesced, for all neighbours |
| PageAlloc.RunsKeepInv | SC_CtrlBoard_arm/src/slab.c:246-332 | over all runs free and allocated pages are the whole range, each page once |
| PageAlloc.AllBackIsOneRun | SC_CtrlBoard_arm/src/slab.c:246-332 | when everything has been given back the list is again one run |
| PageAlloc.PageAllocator.PageAlloc | SC_CtrlBoard_arm/src/slab.c:246-280 | the in-place list walk is Alloc |
| PageAlloc.PageAllocator.PageFree | SC_CtrlBoard_arm/src/slab.c:282-332 | the in-place list walk is Free |
| Slab.ZoneFitsBest | SC_CtrlBoard_arm/src/slab.c:411-469 | zoneindex gives the first zone whose chunks are large enough, and their size, across all brackets; less than n/8 is wasted from 128 bytes on |
| Slab.ZoneIndexMonotone | SC_CtrlBoard_arm/src/slab.c:411-469 | the index is monotone, and equal exactly for equal rounded sizes |
| Slab.ChunkInZone | SC_CtrlBoard_arm/src/slab.c:640-660 | chunks lie inside the zone behind its header, and do not overlap |
| Slab.ChunkAligned | SC_CtrlBoard_arm/src/slab.c:643-650 | chunks of power-of-two size up to a page are aligned to their size |
| Slab.TakeKeepsZone | SC_CtrlBoard_arm/src/slab.c:554-592 | taking a chunk keeps: z_nfree counts free list and never-used chunks, each chunk is exactly one of live, on the list, or never used; the chunk taken was not live |
| Slab.GiveKeepsZone | SC_CtrlBoard_arm/src/slab.c:861-877 | giving it back keeps the same |
| Slab.AllFree | SC_CtrlBoard_arm/src/slab.c:885-931 | a zone with z_nfree equal to z_nmax has no live chunk, so it may be retired |
| Slab.PointersAreFound | SC_CtrlBoard_arm/src/slab.c:826-858 | the page entry of any live pointer leads back to its zone |
| Slab.LiveChunksApart | SC_CtrlBoard_arm/src/slab.c:488-684 | live chunks, of one zone or of two, do not overlap |
| Slab.StepKeepsInv | SC_CtrlBoard_arm/src/slab.c:488-935 | malloc of chunks and of pages, both frees and the retiring of zones keep the zones, the lists by index, the idle list, the page tags, and that pages are free, of a zone or of a large block, each once; a zone is on the list of its index exactly if it has free chunks |
| Slab.RunsKeepInv | SC_CtrlBoard_arm/src/slab.c:488-935 | the same over all runs |
| Slab.FreeRetires | SC_CtrlBoard_arm/src/slab.c:852-935 | a zone leaves its list exactly when its last live chunk is released and the list has another zone; it becomes idle if fewer than two are, and otherwise its pages go back, marked free |
| Slab.RunsAreThrifty | SC_CtrlBoard_arm/src/slab.c:488-935 | over all runs a list keeps at most one zone that is wholly free, and at most two are idle |
| Slab.MallocChooses | SC_CtrlBoard_arm/src/slab.c:546-684 | a chunk comes from the first zone of its list, without one from the idle zone retired last, and only then from new pages |
| Slab.LastReleasedFirst | SC_CtrlBoard_arm/src/slab.c:560-600 | chunks never used are given first, in order, and then the one released last |
| Slab.LargeGivesBack | SC_CtrlBoard_arm/src/slab.c:826-850 | a large block gives back as many pages as the page table says, and leaves a count of 0 there |
| Slab.InitHolds | SC_CtrlBoard_arm/src/slab.c:354-405 | rt_system_heap_init takes the pages of the memusage array from the first run, and the state of the pages behind it satisfies the invariant |
| Slab.SlabAllocator.Malloc | SC_CtrlBoard_arm/src/slab.c:488-684 | null for size 0, and nothing changes; a large request gets fresh pages, at a page boundary, or null exactly if there is no run of so many; a small one gets a chunk that was not live and is large enough, or null exactly if no zone of its index has a free chunk, no zone is idle, and no run of pages makes a zone |
| Slab.SlabAllocator.Free | SC_CtrlBoard_arm/src/slab.c:793-935 | the in-place release is that of the chunk or the pages at the address |
| FinshHeap.AllocatedSound | SC_CtrlBoard_arm/components/finsh/finsh_heap.c:73-110 | an allocation keeps: blocks tile the heap, no two free ones touch, and the highest is free |
| FinshHeap.ReleasedSound | SC_CtrlBoard_arm/components/finsh/finsh_heap.c:115-298 | so does a release with its three ways to merge |
| FinshHeap.AllocatedLive | SC_CtrlBoard_arm/components/finsh/finsh_heap.c:73-110 | an allocation adds one block and no other |
| FinshHeap.ReleasedLive | SC_CtrlBoard_arm/components/finsh/finsh_heap.c:115-128 | a release takes away one block and no other |
| FinshHeap.LiveDetermines | SC_CtrlBoard_arm/components/finsh/finsh_heap.c:55-298 | the blocks and their sizes are determined by what is allocated: the state of the heap does not depend on how it came about |
| FinshHeap.HighestIsFree | SC_CtrlBoard_arm/components/finsh/finsh_heap.c:166-200 | behind an allocated block there is a free one, so an insertion in the free list is never at its end, where a stale link would stay |
| FinshHeap.ShellHeap.constructor | SC_CtrlBoard_arm/components/finsh/finsh_heap.c:55-68 | the initial heap is one free block |
| FinshHeap.ShellHeap.BlockInsert | SC_CtrlBoard_arm/components/finsh/finsh_heap.c:166-200 | the block comes to its place in the sorted list, if it is not last or its link is NULL |
| FinshHeap.ShellHeap.BlockRemove | SC_CtrlBoard_arm/components/finsh/finsh_heap.c:205-227 | the block leaves the list, the others stay in order |
| FinshHeap.ShellHeap.BlockSplit | SC_CtrlBoard_arm/components/finsh/finsh_heap.c:232-246 | the rest of a split block follows it in the list |
| FinshHeap.ShellHeap.BlockMerge | SC_CtrlBoard_arm/components/finsh/finsh_heap.c:248-298 | in all four cases the free list has the addresses, and the headers the lengths, of the merged blocks |
| FinshHeap.ShellHeap.HeapFree | SC_CtrlBoard_arm/components/finsh/finsh_heap.c:115-128 | both lists stay those of the used and of the free blocks, by address, and exactly that block is gone |
| FinshHeap.ShellHeap.Collect | SC_CtrlBoard_arm/components/finsh/finsh_heap.c:133-161 | the collector keeps exactly the blocks that variables point to |
| FinshHeap.ShellHeap.FirstFit | SC_CtrlBoard_arm/components/finsh/finsh_heap.c:79-98 | the search finds the first free block that is long enough, or there is none |
| FinshHeap.ShellHeap.Allocate | SC_CtrlBoard_arm/components/finsh/finsh_heap.c:73-110 | NULL exactly if after a collection no free block holds the request and a header; collection only if none is longer; otherwise one block of the aligned size is added, in the first free block that fits |
| FinshMachine.Machine.RunProgram | SC_CtrlBoard_arm/components/finsh/finsh_vm.c:47-72 | the fetch and dispatch loop on the stack array runs the text segment as Run does, faults included |
| FinshMachine.Machine.Dispatch | SC_CtrlBoard_arm/components/finsh/finsh_ops.c:55-441 | each OP function of the four-byte fragment, on the stack array, does what Perform says of its opcode; any other opcode is a fault |
| FinshMachine.DivisionLaw | SC_CtrlBoard_arm/components/finsh/finsh_ops.c:111-140 | division and remainder truncate: quotient times divisor plus remainder is the dividend, the remainder smaller than the divisor |
| FinshArithmetic.ArithmeticMeans | SC_CtrlBoard_arm/components/finsh/finsh_ops.c:42-309 | every binary operator gives a result exactly where C defines one, and this obeys its law on signed longs: sums, differences, products and left shifts modulo 2 to the 32, truncating quotient and remainder, &, bar and ^ bit by bit, the right shift as a floor |
| FinshArithmetic.MeaningDetermines | SC_CtrlBoard_arm/components/finsh/finsh_ops.c:42-309 | the laws leave no choice: two results that obey the law of an operator are the same |
| FinshArithmetic.ComplementMeans | SC_CtrlBoard_arm/components/finsh/finsh_ops.c:245-250 | ~ turns over every bit |
| FinshArithmetic.LowByteFirst | SC_CtrlBoard_arm/components/finsh/finsh_ops.c:317-325 | operands and stored words have the byte of the least weight first |
| FinshArithmetic.StoreBytes | SC_CtrlBoard_arm/components/finsh/finsh_ops.c:428-434 | a store puts its four bytes at the address and the three behind it |
| FinshArithmetic.StoreElsewhere | SC_CtrlBoard_arm/components/finsh/finsh_ops.c:428-434 | and changes no other byte |
| FinshMachine.LoadAfterStore | SC_CtrlBoard_arm/components/finsh/finsh_ops.c:375-434 | a word stored in byte memory loads back |
| FinshMachine.JoinDword | SC_CtrlBoard_arm/components/finsh/finsh_ops.c:317-325 | an operand written as four bytes reads back |
| FinshCompiler.TreeCode | SC_CtrlBoard_arm/components/finsh/finsh_compiler.c:43-901 | type check and compilation of the tree of an expression yield the code written directly for it, for every l-value mode |
| FinshCompiler.ProgramCodeIsGenAll | SC_CtrlBoard_arm/components/finsh/finsh_compiler.c:903-937 | a statement list compiles to the codes of its statements with one pop between two |
| FinshCompiler.RunExpr | SC_CtrlBoard_arm/components/finsh/finsh_compiler.c:43-757 | the code of an expression, wherever it lies, pushes its value and makes its stores, and faults exactly if the expression does |
| FinshCompiler.RunAll | SC_CtrlBoard_arm/components/finsh/finsh_compiler.c:903-937 | the same for statement lists: one value is left, that of the last statement |
| FinshCompiler.CompilerCorrect | SC_CtrlBoard_arm/components/finsh/finsh_compiler.c:43-937 | for every statement list of the fragment that fits text segment and stack: type-checked, compiled and run, it leaves exactly the value of the last statement on the stack and exactly its stores in memory; the zero bytes behind it do nothing |
| FinshCompiler.StepCorrectIff | SC_CtrlBoard_arm/components/finsh/finsh_compiler.c:373-713 | a ++ or -- that has a meaning in C, compiled and run, has this meaning if and only if it is applied to a variable; applied to *e it makes the stores of e and never its own, for every e and memory |
| FinshCompiler.Compiler.Compile | SC_CtrlBoard_arm/components/finsh/finsh_compiler.c:43-757 | the recursive emitter writes exactly the code of the tree at finsh_compile_pc |
| FinshCompiler.Compiler.Run | SC_CtrlBoard_arm/components/finsh/finsh_compiler.c:903-937 | finsh_compiler_run leaves the program, padded with zeros, in the text segment |
| FinshParser.ExpressionBack | SC_CtrlBoard_arm/components/finsh/finsh_parser.c:433-857 | an expression without parentheses, printed, parses back to its tree: binary levels group to the left in the stated precedence, assignment to the right, a minus sign is a difference from 0 |
| FinshParser.ParsesExactly | SC_CtrlBoard_arm/components/finsh/finsh_parser.c:433-911 | and nothing else does: the parser reads a node without an error if and only if the tokens are the print of an expression of the grammar with that tree, there are nodes enough, and the next token cannot continue it |
| FinshParser.OperandsBack | SC_CtrlBoard_arm/components/finsh/finsh_parser.c:467-668 | each level returns exactly the operands that bind as tightly |
| FinshParser.MoreBack | SC_CtrlBoard_arm/components/finsh/finsh_parser.c:467-668 | the loop of a level comes to its next operator with the whole left operand as one tree |
| FinshParser.LineBack | SC_CtrlBoard_arm/components/finsh/finsh_parser.c:916-998 | a line of statements parses to the list of their trees |
| FinshLines.EmptyStatement | SC_CtrlBoard_arm/components/finsh/finsh_parser.c:944-990 | an empty statement at the beginning ends the line; behind others it makes the parser drop the next token |
| FinshLines.HarmlessIff | SC_CtrlBoard_arm/components/finsh/finsh_parser.c:916-998 | over all lines of statements, some of them empty: the parser yields the trees of the others without an error if and only if none is stated, or the line does not begin with an empty one and, behind a statement, empty ones come in pairs, or at the end, or before a statement that keeps its tree without its first token |
| FinshLines.ShedsIff | SC_CtrlBoard_arm/components/finsh/finsh_parser.c:916-998 | a statement keeps its tree without its first token if and only if that is a plus sign, or it begins with the difference of 0 and a single operand |
| FinshLines.LostStatement | SC_CtrlBoard_arm/components/finsh/finsh_parser.c:916-998 | in a;;b; the statement b is lost, without an error |
| FinshLines.ShedStatements | SC_CtrlBoard_arm/components/finsh/finsh_parser.c:916-998 | a;;+b; and a;;0-b; come out right, a;;0-b*b; does not |
| FinshParser.LineComputes | SC_CtrlBoard_arm/components/finsh/finsh_parser.c:412-998 | end to end: a line of statements, parsed, type-checked, compiled and run, computes what its statements mean; 16 nodes never need more than the stack |
| FinshValues.OperatorsCompute | SC_CtrlBoard_arm/components/finsh/finsh_parser.c:412-668 | end to end: a line of two numbers with an operator between them leaves the one result that the law of the operator says, or faults where C defines none |
| FinshValues.ValuesLeft | SC_CtrlBoard_arm/components/finsh/finsh_parser.c:442-998 | every line that the parser accepts, with a meaning or without: compiled and run, it faults, or leaves one value more on the stack than it has assignments to what has no address; so exactly one if and only if it has none |
| FinshValues.TwoValuesLeft | SC_CtrlBoard_arm/components/finsh/finsh_parser.c:442-461 | the line 1=2; is accepted, stores nothing and leaves two values |
| FinshParser.Parser.ProcPrimary | SC_CtrlBoard_arm/components/finsh/finsh_parser.c:814-857 | the method on the token state is Primary |
| FinshParser.Parser.ProcPostfix | SC_CtrlBoard_arm/components/finsh/finsh_parser.c:758-807 | the loop is Postfix |
| FinshParser.Parser.ProcUnary | SC_CtrlBoard_arm/components/finsh/finsh_parser.c:710-750 | the switch is Unary |
| FinshParser.Parser.ProcOperands | SC_CtrlBoard_arm/components/finsh/finsh_parser.c:467-668 | the loops of the six levels are Operands |
| FinshParser.Parser.ProcExpression | SC_CtrlBoard_arm/components/finsh/finsh_parser.c:442-461 | the method is Expression |
| FinshParser.Parser.ProcExprStatement | SC_CtrlBoard_arm/components/finsh/finsh_parser.c:412-428 | the method is Statement |
| FinshParser.Parser.Run | SC_CtrlBoard_arm/components/finsh/finsh_parser.c:916-998 | the loop over statements terminates on every token sequence and builds the list of ReadLine |
| FinshParser.Parser.Replay | SC_CtrlBoard_arm/components/finsh/finsh_token.h:75-75 | a token is only replayed once, and it is the last one read: one slot is enough |

## Left out

- SerialProtocol.FrameDecodes: the position just after a lone SOM is excluded, because there the first SOM of a frame completes the lone one. For a decoder that is idle there, SerialProtocol.LoneSomLosesFrame says what happens; in the middle of a message the frame becomes part of it.
- Mutex.PriorityInheritance: one mutex with the PRIO flag and no other changes of priority; restoring is per mutex in the code, so nested mutexes are outside. Detaching and deleting a mutex are not modelled.
- Event.RunsKeepInv: 32-bit event sets are sets of bit numbers; the tick count of a time-out is a step that may happen to any timed waiter.
- Mailbox.MailboxIsAQueue: the time that has passed in a wait is a parameter of the step that resumes it.
- MessageQueue.EndGivesMessage: bytes asked for beyond the length of the message are what the node held before; lengths are not kept by the code.
- MemHeap.MemoryHeap.Realloc: the headers are fields by address, not bytes of the pool; the lock (a semaphore) and the magic word are not modelled, and no other call comes between the allocation and the release of a move, each of which keeps the invariant by itself.
- SmallMem.SystemHeap.Realloc: no other call comes between the sections of a call that moves the block; each section keeps the heap sound by itself.
- SmallMem.SystemHeap.Malloc: offsets and sizes are in words of four bytes, and the magic number is not stored; `rt_calloc` and hooks are left out. Heaps below the minimum size are excluded where the search does not end.
- Slab.StepKeepsInv: the free list of a zone holds chunk numbers, operations are atomic (no claim about the lock), and the power-of-two test is a predicate. `rt_realloc` and `rt_calloc` of this allocator are left out.
- Timer.TimerList.Check: callbacks do no timer operations; soft timers are off in the configuration.
- Timer.RunsKeepWindow: every tick is followed by its check, and ticks are not set by hand; init_tick of a timer does not change while it is active or being started; no timer is worked on by two callers at once (that a second insertion of an active timer breaks the rows is part of Timer.LinkedIff). A periodic timer with the longest period there is, inserted in the very tick that it is due in, is excluded as well: Timer.InsertKeepsIff still covers its insertion.
- FinshMachine.Machine.Dispatch: the byte, word and call operations are faults.
- Scheduler.ScheduleSelects: with no thread ready the code would index by -1; the idle thread rules that out and the model leaves current alone. The context switch is the change of current.
- Scheduler.StepKeepsInvIff: the writes of a startup before its resume are one step; they touch nothing but the thread itself. What a broken ring of queue links does afterwards is not part of the model: queues are sequences.
- Scheduler.RoundRobin: no events but ticks, and the scheduler unlocked.
- FinshHeap.ShellHeap.Allocate: addresses are offsets from the start of the heap; clearing the data is not modelled.
- FinshCompiler.CompilerCorrect: four-byte values and user variables only. Mixed widths, casts, strings and calls are outside, and a store outside mapped memory is a fault.
- FinshLines.HarmlessIff: lines whose stated expressions are without parentheses and have nodes enough.
- FinshParser.ParsesExactly: tokens of the fragment only. Characters and the symbol lookup are left to the scanner (a name is the address of its variable, or unknown); parentheses, which the code takes for casts, calls, declarations and the other literals are not tokens here. Nodes are values, and the pool is a count.
- Semaphores (`src/ipc.c:211-510`) and memory pools (`src/mempool.c`): their sections are simpler cases of the mailbox and of the free list of the message queue.
- Wait lists and ready queues are sequences; that rings represent sequences is proved once, in `RtList`.
- Creation, detaching and deletion of objects, hooks, object names, the module loader, device drivers, the console and the commands of the shell: input, output or simple record keeping.
