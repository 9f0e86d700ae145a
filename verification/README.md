# LateralusOS kernel: verified models

LateralusOS is a small kernel in C. This project models the parts of it that
hold logic rather than hardware access, in Dafny, and proves what they keep
over every run:

- TCP (`net/tcp.c`): one connection block with its receive ring, state machine
  and timers (`Tcp`), the table of blocks (`TcpTable`), a client and a server
  over a network that loses, doubles and reorders segments (`TcpPair`), what a
  FIN acknowledges between them (`TcpFins`), how connections open and carry
  data and how they close (`TcpFlow`, `TcpCloses`), and a run across the wrap of
  the sequence numbers (`TcpWrap`).
- The kernel heap (`kernel/heap.c`): the layout of blocks and its accounts
  (`Heap`), what each call makes live and ends (`HeapEffects`), and the allocator
  on memory words, the link of a free block lying over its magic number
  (`HeapMemory`).
- The RAM filesystem (`fs/ramfs.c`): the inode pool as one tree (`Ramfs`), the
  path printer and resolver (`RamfsPaths`), which nodes, names and paths a call
  makes, ends and leaves (`RamfsEffects`), and the pool of fixed-size records
  changed in place (`RamfsPool`).
- The scheduler and message queues (`kernel/sched.c`, `kernel/ipc.c`): calls up
  to the switch with what remains after it (`Sched`, `Ipc`), the same in place
  (`Scheduling`, class `MessageQueue`), and runs of many tasks: who runs and who
  owns which stack, with the heap underneath (`SchedRuns`), how long a ready task
  waits (`SchedTurns`), what a waiting, sleeping or blocked task can rely on
  (`SchedWaits`), what calls and ticks do for sleepers, parents and signalled
  tasks (`SchedEffects`), runs from the start of the kernel (`SchedExamples`),
  what a queue gives its callers (`IpcEffects`), wake-ups and order of messages
  (`IpcRuns`), and what breaks them (`IpcBreaks`).
- DNS names and the resolver's cache (`net/dns.c`; `Dns`, `DnsCache`), the
  Internet checksum (`net/ip.c`, `net/tcp.c`; `Checksum`), and the rasterisers
  of the framebuffer (`gui/framebuffer.c`; `Framebuffer`).
- File descriptors and pipes (`fs/vfs.c`; `Vfs`, `VfsTables`) over the RAM
  filesystem, against a machine of plain bytes (`VfsPlain`), when calls succeed
  and what pipes deliver (`VfsEffects`), the open flags of pipe ends
  (`VfsEnds`), and the line editor's buffer, against one string with a cursor,
  and its files (`apps/apps.c`; `Editor`, `EditorText`, `EditorFiles`).

Each component has a specification: functions on values that say what a call
does to the state. Where the kernel changes state in place, a class does the
same with its loops, arrays and fields, and each method is proved equal to the
specification function on the old state. The lemmas are about the specification
functions and about runs of them. `Rings` holds what the circular buffers
share, `Words` the machine words. `dafny verify dfyconfig.toml` checks all of it.

Strings are the characters before the terminator. Clocks, fresh sequence
numbers, the network and the answers of other machines are parameters. A
context switch is a change of the current task; a blocking call is given up to
its switch, and what is left of it is part of the task's state.

Where code and documentation disagree the model follows the code:

- `kernel/heap.h:4` announces coalescing; `kfree` only pushes at the head of
  the free list (`kernel/heap.c:168-172`), and adjacent free blocks stay apart.
- `kernel/sched.h:157-159` says sched_wait blocks until the child is dead; any
  unblocking ends the wait, and the child's slot may be reaped and used again
  before the parent resumes.
- `net/dns.h:7` calls the cache's eviction least-recently-used; it is always
  slot 0, and entries made after 2^32 milliseconds of uptime are never found.
- `net/tcp.c:397` and `net/tcp.c:407` speak of simultaneous close; two such
  ends ignore each other's FIN until their timers close them, and CLOSING is
  never entered. `net/tcp.c:335` speaks of simultaneous open; it counts the SYN
  twice and waits for a timer.
- `fs/vfs.c:393` speaks of an open reference count of pipe ends; the open flags
  are flags, and a dup2 does not set them.

Hypotheses, each of which something in the code makes necessary: two TCP
parties open one connection once, active against passive, no RST is forged, and
each stream stays below 2^32 bytes (data is never retransmitted and a FIN is
taken out of order, so completeness is not claimed, and acknowledgement is
claimed up to the peer's FIN and, for a FIN, under the exact condition of
FinAcknowledgesStoredBytesIff); sizes passed to the heap do not wrap 64 bits
and kfree and krealloc get null or a pointer that kmalloc once returned; a task
whose slot has been reaped under it does not put that slot to use again
(StepKeepsSoundIff); tasks waiting on a queue are not killed or continued by
signals, are not preempted between entering a list and blocking, and find
another task to switch to when they block (KillKeepsInvIff,
ContinueKeepsInvIff, PreemptionLosesWakeupIff and BlockedCallSleepsIff say
exactly when that matters), and the idle task makes no blocking call on a queue,
though it may sleep; a write through an offset is asked for only within the 2048
bytes of the buffer that file writes work in. Every call is taken whole, up to
its switch: the timer, which interrupts the kernel's calls as any other code,
ticks between them only, but for the break between list and sleep of a queue's
blocking call.

## Model

| member | source | states |
|---|---|---|
| TcpPair.DeliveredIsPrefixOfSent | net/tcp.c:145-207 | In every reachable state of a client and a server over a network that loses, doubles and reorders, what either side has read followed by what waits in its receive ring is a prefix of what the other side wrote. |
| TcpPair.HandshakeAgrees | net/tcp.c:291-354 | Whoever has been ESTABLISHED holds the peer's initial sequence number; the server gets there only after the client did, for every interleaving and retransmission (section 3.4 of RFC 793). |
| TcpPair.RcvNxtCountsStored | net/tcp.c:365-376 | In ESTABLISHED rcv_nxt is the peer's first sequence number plus exactly the number of bytes stored, modulo 2^32. |
| TcpPair.AcknowledgedIsStored | net/tcp.c:145-185 | No segment in flight from a side that has not taken a FIN acknowledges a byte that side has not stored (section 3.3 of RFC 793). |
| TcpPair.UnclosedWriterKnowsDelivery | net/tcp.c:356-363 | In ESTABLISHED and CLOSE_WAIT the bytes before snd_una are a prefix of what the peer has stored. |
| TcpPair.EarlyFinAcknowledgesLostByte | net/tcp.c:378-389 | A concrete run in which a FIN that overtakes a lost byte makes the receiver acknowledge that byte while it has stored nothing. |
| TcpPair.NextKeepsInv | net/tcp.c:247-456 | Every delivery, timer, write, read and close keeps the two-party invariant over both ends and every segment in flight. |
| TcpPair.RunKeepsInv | net/tcp.c:247-526 | The invariant holds after any number of events. |
| TcpPair.InitialInv | net/tcp.c:530-591 | It holds when one side has just connected and the other has just listened. |
| Tcp.SilentConnectionCloses | net/tcp.c:460-526 | With no answer, a connection waiting on SYN, SYN+ACK or FIN is closed by the timer exactly when six expiries (counted from retries = 0) have passed; until then each expiry costs one retry, the state stays, and snd_nxt never moves. |
| Tcp.TickWaiting | net/tcp.c:465-511 | One timer call on a waiting connection: nothing before the timeout, else one more retry, else CLOSED. |
| Tcp.ClosedStays | net/tcp.c:522-524 | The timer never wakes a closed connection. |
| Tcp.RetransmissionKeepsSndNxt | net/tcp.c:486-508 | A retransmission leaves snd_nxt unchanged, and sends a segment, exactly if the interface is configured. |
| Tcp.WindowIsRoom | net/tcp.c:165-165 | Every segment sent in answer to one received carries an acknowledgement, no data, and exactly the free room of the receive ring as window. |
| TcpFins.FinAcknowledgesStoredBytesIff | net/tcp.c:378-389 | For every reachable world and every FIN delivered to an ESTABLISHED end: the new rcv_nxt acknowledges no unstored byte of the writer exactly if all is stored, or the byte at the FIN's place is, or the FIN's place lies outside the stream. Early FINs fail, and so do FINs in order that stand before the end of the stream; FINs from the past do not. |
| TcpFins.FinInOrderIffAllStored | net/tcp.c:378-389 | If every FIN of the writer left when it was due, a FIN in flight is in order exactly when the whole stream is stored; for streams of fewer than 2^32 - 1 bytes just then taking it acknowledges stored bytes only. |
| TcpFins.FinPlace | net/tcp.c:502-507 | Every FIN in flight stands at the end of its stream, less one place for each earlier try of at most six that found the interface unconfigured. |
| TcpFins.InOrderFinAcknowledgesLostByte | net/tcp.c:628-661 | A run in which tcp_close fails to send, the timer sends the FIN with the number of a lost byte, and the server takes it in order and acknowledges that byte without having it. |
| TcpFins.NextKeepsFins | net/tcp.c:486-508 | Every event keeps where FINs are numbered: snd_nxt counts stream and FIN, less the tries that never left. |
| Tcp.FinMovesByOneIff | net/tcp.c:378-389 | A FIN in ESTABLISHED moves rcv_nxt on by just its own number exactly if it arrives in order. |
| Tcp.NewAckIsTakenIff | net/tcp.c:357-363 | An acknowledgement of something new is accepted exactly if the sequence numbers from snd_una to it do not wrap, since the comparison is on plain integers. |
| Tcp.WrappedAckIsRefused | net/tcp.c:357-363 | A wrapping interval occurs: with snd_una at 2^32 - 1 the acknowledgement of the next byte is refused. |
| TcpWrap.StoredByteStaysUnacknowledged | net/tcp.c:357-363 | A run of client and server to it: the byte is stored, its acknowledgement refused. |
| Tcp.Connection.RecvBufWrite | net/tcp.c:189-197 | The byte loop stores the longest prefix of the data that fits, appended to what the ring held. |
| Tcp.Connection.RecvBufRead | net/tcp.c:199-207 | The byte loop takes the oldest bytes out of the ring, in order, as many as were asked for and are there. |
| Tcp.Connection.SendSegment | net/tcp.c:145-185 | Builds the segment from the connection's numbers, advances snd_nxt by data and by SYN or FIN, notes the time; nothing without a configured interface. |
| Tcp.Connection.ActiveOpen | net/tcp.c:537-562 | The opened connection and the SYN sent are those of the specification. |
| Tcp.Connection.PassiveOpen | net/tcp.c:576-582 | The block becomes a cleared listener on the port. |
| Tcp.Connection.SendData | net/tcp.c:595-605 | A write sends at most one MSS in ESTABLISHED and nothing in any other state. |
| Tcp.Connection.ReadData | net/tcp.c:609-624 | A read takes bytes from the ring in the four states that allow it and nothing in the others. |
| Tcp.Connection.Shutdown | net/tcp.c:628-661 | Closing moves ESTABLISHED and CLOSE_WAIT on with a FIN, drops LISTEN and SYN_SENT, and changes no other state. |
| Tcp.Connection.InSynSent | net/tcp.c:317-341 | A SYN_SENT block after a segment is the one the specification gives, with the same segments sent. |
| Tcp.Connection.InEstablished | net/tcp.c:356-390 | An ESTABLISHED block after a segment: acknowledgement, in-order data and FIN taken in that order. |
| Tcp.Connection.InFinWait1 | net/tcp.c:392-412 | A FIN_WAIT_1 block after a segment, its simultaneous-close branches included; TcpCloses says where that leads in every run. |
| Tcp.Connection.InOtherState | net/tcp.c:414-454 | The remaining states after a segment. |
| Tcp.Connection.Recv | net/tcp.c:247-456 | The whole receive state machine, RST and matching included, equals the specification function on connection and segment. |
| Tcp.Connection.TimerTick | net/tcp.c:460-526 | One timer call on one connection equals the specification. |
| TcpTable.DeliverIsReceive | net/tcp.c:77-97 | A segment reaches a block that matches it, an exact one if there is any, changes that block as the state machine says and no other; without a match nothing happens. |
| TcpTable.DeliverKeepsDistinctIff | net/tcp.c:266-303 | A segment keeps live blocks standing for different connections exactly if it does not make a listener take up a peer that a live block stands for. |
| TcpTable.OnlyBlankPeersClash | net/tcp.c:79-94 | That can only happen to a segment from address 0 and port 0, which a listener's blank peer matches. |
| TcpTable.ClashIsReached | net/tcp.c:79-94 | A run from the blank table to such a clash. |
| TcpTable.RunKeepsDistinct | net/tcp.c:460-661 | Over any run of segments, opens, listens, timers, writes, reads and closes in which no such segment comes and no connection is opened that is there, live blocks stand for different connections. |
| TcpTable.OpenKeepsDistinctIff | net/tcp.c:530-551 | An active open keeps connections apart exactly if no live block stands for the same one already. |
| TcpTable.ExactMatchIsUnique | net/tcp.c:79-87 | While connections are apart the exact match found is the only one. |
| TcpTable.ReceiveNames | net/tcp.c:291-303 | A segment never renames a block other than a listener, and makes a listener stand for the sender. |
| TcpTable.Table.FindConn | net/tcp.c:77-97 | The two scans over the blocks return the block the specification finds. |
| TcpTable.Table.AllocConn | net/tcp.c:100-105 | The scan returns the first closed block, or -1. |
| TcpCloses.OrderlyClose | net/tcp.c:392-454 | From every reachable world with both ends ESTABLISHED: one end closes, its FIN and the acknowledgement are delivered, the other end closes, its FIN and the last acknowledgement are delivered. Just these four segments are sent; then the first end is in TIME_WAIT since it answered, the other is CLOSED, and no byte written, stored or read has changed (section 3.5 of RFC 793). |
| TcpCloses.HalfClose | net/tcp.c:392-404 | The first half of it, step by step: after the acknowledgement of its FIN the closing end is in FIN_WAIT_2 and the other in CLOSE_WAIT, and in every world on the way both rings can be read, oldest bytes first. |
| TcpCloses.OtherHalfCloses | net/tcp.c:414-442 | The second half: the FIN_WAIT_2 end answers the FIN, and its ring can be read until that FIN comes; the last acknowledgement closes the other end. |
| TcpCloses.CloseSendsFin | net/tcp.c:628-661 | Closing an end that is open for writing sends one FIN, numbered snd_nxt, and changes no byte on either side. |
| TcpCloses.FinIsAnswered | net/tcp.c:378-389 | Whatever FIN of the network reaches an ESTABLISHED end, one acknowledgement of the number after it leaves and the end is in CLOSE_WAIT. |
| TcpCloses.FinIsAcknowledged | net/tcp.c:392-442 | A plain acknowledgement of the own FIN takes FIN_WAIT_1 to FIN_WAIT_2 and LAST_ACK to CLOSED, and sends nothing. |
| TcpCloses.SecondFinIsAnswered | net/tcp.c:414-450 | The other end's FIN is acknowledged in FIN_WAIT_2, and again in TIME_WAIT each time it comes again, which restarts the wait. |
| TcpCloses.TimeWaitEndsIff | net/tcp.c:516-520 | Over every event of every reachable world, an end leaves TIME_WAIT exactly at a timer call of its own 5000 ms or more after the last FIN it answered. |
| TcpCloses.SimultaneousClose | net/tcp.c:392-412 | When both ends of any reachable world close in ESTABLISHED, then over every run of deliveries, timers on a configured interface, writes, reads and closes no FIN is ever taken: each end is in FIN_WAIT_1 until its own timer has expired six times and CLOSED from then on, with the bytes it has stored. |
| TcpCloses.FinInFinWait1Iff | net/tcp.c:392-412 | In every reachable world in which the FINs of both sides left when due, a FIN that reaches FIN_WAIT_1 is answered exactly if its sender had taken a FIN itself; otherwise nothing at all happens. |
| TcpCloses.ClosingIsNeverEntered | net/tcp.c:406-411 | No end of a client and a server is ever in CLOSING, since every FIN carries an ACK. |
| TcpCloses.NextKeepsNamed | net/tcp.c:77-97 | Every event keeps it that ends which have met name each other, and that segments in flight carry their sender's address and ports. |
| TcpCloses.NextKeepsOrdered | net/tcp.c:392-454 | Every event keeps it that an end passes FIN_WAIT_1 only if its peer took a FIN, and that the FINs of a peer that took one acknowledge it. |
| TcpFlow.HandshakeOpens | net/tcp.c:291-354 | From every start with the server's address and port asked for, the SYN, its answer and the acknowledgement open both ends, and no other segment is sent (section 3.4 of RFC 793). |
| TcpFlow.SimultaneousOpenNeedsTimer | net/tcp.c:317-354 | Two ends that call each other answer each other's SYN, but count their own twice, so the crossing SYN+ACK is ignored; after the retransmission timer the same SYN+ACK opens the connection. |
| TcpFlow.WrittenIsRead | net/tcp.c:595-624 | In every reachable world with both ends ESTABLISHED and all written bytes stored, what one application writes next, as far as a segment and the ring hold it, is what the other reads next, after all the rest. |
| TcpFlow.DataArrives | net/tcp.c:365-376 | An in-order payload is stored as far as there is room and one acknowledgement of just those bytes leaves. |
| TcpFlow.OtherSegmentsStoreNothing | net/tcp.c:365-376 | A payload out of order, or a segment in any other state, stores nothing and costs no stored byte. |
| TcpFlow.ReadsDrain | net/tcp.c:609-624 | Reads of any sizes in a readable state give the oldest waiting bytes, as many as were asked for in all, and leave the others; in the other states they give nothing. |
| TcpFlow.ResetEnds | net/tcp.c:270-280 | A reset that matches ends the connection and what waits can no longer be read; one that does not match changes nothing. |
| TcpFlow.EarlyClose | net/tcp.c:646-656 | Closing a listener or an unanswered SYN frees the block and sends nothing; in SYN_RECEIVED nothing happens. |
| TcpTable.OpenEffect | net/tcp.c:530-562 | An active open fails exactly if no block is closed; otherwise the first closed block waits in SYN_SENT, no other changes, and the peer's segments go to it unless a block stands for the connection already. |
| Heap.RunKeepsWf | kernel/heap.c:77-173 | After any run of kmalloc, kfree and krealloc the blocks tile the used region without gap or overlap, 16-byte aligned, the free list has no block twice, and allocated plus free bytes are the whole region; blocks once made stay blocks. |
| Heap.InitialWf | kernel/heap.c:66-75 | The empty heap is well formed and starts at the first 4096-byte boundary after the kernel. |
| Heap.MallocWf | kernel/heap.c:77-120 | kmalloc keeps the tiling and the accounts, through whole use, split or bump. |
| Heap.FreeWf | kernel/heap.c:157-173 | kfree keeps them and changes no block. |
| Heap.ReallocWf | kernel/heap.c:132-155 | krealloc keeps them. |
| Heap.MallocFailsIff | kernel/heap.c:77-120 | kmalloc returns null exactly for size 0, or when no free block is large enough and the bump region is exhausted. |
| Heap.MallocGivesFreshBlock | kernel/heap.c:88-119 | A successful kmalloc makes one block live that was not, large enough and aligned, and leaves every other block's liveness as it was. |
| Heap.SecondFreeIsIgnored | kernel/heap.c:157-173 | The first kfree of a live block returns its bytes; a second one changes nothing. |
| Heap.EveryByteInOneBlock | kernel/heap.c:77-120 | Every address of the used region lies in exactly one block. |
| Heap.AccountsBalance | kernel/heap.c:97-118 | The counter of allocated bytes is the sum of the live blocks' sizes, and with the free bytes it makes up heap_next - heap_start. |
| Heap.TotalHasRoomIff | kernel/heap.c:80-81 | The rounded 64-bit size has room for header and payload exactly if the addition does not wrap. |
| HeapMemory.Allocator.KMalloc | kernel/heap.c:77-120 | On memory words, with the free list threaded through the blocks: layout and pointer are those of the specification, and no live block's payload changes. |
| HeapMemory.Allocator.FindFit | kernel/heap.c:83-109 | The list walk stops at the first block that is large enough, with the block whose link leads to it. |
| HeapMemory.Allocator.KFree | kernel/heap.c:157-173 | Freeing a live block puts it at the head of the list; null, or a pointer freed before, leaves every word of memory as it was. |
| HeapMemory.Allocator.KRealloc | kernel/heap.c:132-155 | Growth moves the old payload to the new block word for word; failure leaves the old block; no other live payload changes; the layout afterwards, the old block ended by a growth, is that of HeapEffects.ReallocEffect. |
| HeapMemory.Allocator.CopyWords | kernel/heap.c:149-151 | The copy loop copies the payload and touches nothing else. |
| HeapMemory.MagicTellsLive | kernel/heap.c:27-33 | The word behind the size is the magic number exactly in live blocks, because a free block keeps null or a 16-byte aligned address there. |
| HeapMemory.PayloadWritesHold | kernel/heap.c:105-105 | Whatever its owner writes into a payload, headers and free list stay readable. |
| HeapMemory.FreeHolds | kernel/heap.c:164-172 | Writing the link over the magic number turns the memory of a layout into the memory of the layout with that block freed. |
| HeapMemory.TakeFrontHolds | kernel/heap.c:89-102 | Splitting writes a remainder that takes the block's place in the list and a header in front of it. |
| HeapMemory.TakeWholeHolds | kernel/heap.c:95-102 | Using a whole block unlinks it and makes it live. |
| HeapMemory.BumpHolds | kernel/heap.c:111-119 | Bumping adds one live block at the end. |
| HeapEffects.MallocEffect | kernel/heap.c:77-120 | A successful kmalloc makes live exactly one block more, at least as large as asked for and by less than a split's worth larger, and counts exactly its size. |
| HeapEffects.MallocIsFirstFit | kernel/heap.c:83-119 | The block is the first on the free list that is large enough, and only if there is none, a new one at the end of the used region. |
| HeapEffects.FailedMallocChangesNothing | kernel/heap.c:77-120 | A kmalloc that returns null leaves the heap as it was. |
| HeapEffects.FreeEffect | kernel/heap.c:157-173 | A kfree of a live block ends exactly that block's life and takes exactly its size off the counter. |
| HeapEffects.FreedIsHandedOutAgain | kernel/heap.c:88-109 | After a kfree the next kmalloc that fits in the block returns the same pointer. |
| HeapEffects.ReallocEffect | kernel/heap.c:132-155 | krealloc of a live pointer: size 0 ends just that block; a size that fits returns the pointer and changes nothing; growth makes live the new block and ends the old one, just those two sizes entering the counter; failure leaves exactly the old live blocks. |
| HeapEffects.ReallocOfOther | kernel/heap.c:132-144 | krealloc of null is kmalloc; of a pointer that is not live it is refused without a change. |
| Ramfs.RunKeepsTree | fs/ramfs.c:148-304 | Any run of create, mkdir, remove, write and append, slots being reused, keeps the pool one finite tree at slot 0 in which every live node is listed by its live parent directory, and node_count is the number of live nodes. |
| Ramfs.CreateKeepsTree | fs/ramfs.c:148-190 | Creating a file or directory keeps the tree. |
| Ramfs.RemoveKeepsTree | fs/ramfs.c:279-304 | Removing a file or empty directory keeps the tree; anything else is refused. |
| Ramfs.ContentKeepsTree | fs/ramfs.c:194-223 | Writing content does not touch the tree. |
| Ramfs.EmptyIsTree | fs/ramfs.c:56-67 | The pool with nothing but its root is a tree. |
| Ramfs.ParentsReachRoot | fs/ramfs.c:378-390 | From every live node the parent indices lead to the root in as many steps as the node is deep, and no sooner. |
| Ramfs.ListedOnce | fs/ramfs.c:163-164 | A live node other than the root stands once in its parent's list and in no other live node's. |
| Ramfs.CreateKeepsNamesApartIff | fs/ramfs.c:152-159 | Creation keeps sibling names distinct exactly if the name as stored, its first 31 characters, is not taken; names of at most 31 characters always pass. |
| Ramfs.LongNamesCollide | fs/ramfs.c:18-22 | Two longer names that share their first 31 characters are both created in one directory. |
| Ramfs.RemoveKeepsNamesApart | fs/ramfs.c:286-299 | Removal keeps sibling names distinct. |
| Ramfs.ApplyKeepsNamesApartIff | fs/ramfs.c:148-304 | A call of any kind keeps sibling names distinct exactly if it does not create a node whose name, once cut, is taken. |
| Ramfs.RunKeepsNamesApart | fs/ramfs.c:148-304 | Any run of creations under names of at most 31 characters, removals and writes keeps sibling names distinct. |
| RamfsPaths.ReachablePathRoundTripIff | fs/ramfs.c:308-405 | In every pool that calls can make of the empty one under names of at most 31 characters, resolving the path printed for a live node leads back to it exactly if every name on the way can be looked up (not empty, no slash, not "." or ".."), it is at most seven levels deep, and its path fits the buffer. |
| RamfsPaths.PathRoundTripIff | fs/ramfs.c:308-405 | The same for any pool that is one tree with distinct sibling names. |
| RamfsPaths.WalkIsNoDeeper | fs/ramfs.c:312-342 | A resolved path is no deeper than it has components, and where it is as deep, its components cut to 31 characters are the names on the way. |
| RamfsPaths.WalkMeetsGoodNames | fs/ramfs.c:320-328 | The resolver only ever arrives at nodes all of whose names on the way can be looked up. |
| RamfsPaths.NamesLeadThere | fs/ramfs.c:326-330 | Walking the good names from the root down to a node leads to it. |
| RamfsPaths.SplitSlashed | fs/ramfs.c:316-340 | Splitting undoes printing components with slashes, for slash-free components. |
| RamfsPaths.SlashedSplit | fs/ramfs.c:316-340 | Printing undoes splitting, for any text. |
| RamfsPool.Pool.AllocNode | fs/ramfs.c:38-52 | The scan takes the first slot not in use and clears it, or reports the pool full. |
| RamfsPool.Pool.Create | fs/ramfs.c:148-167 | The pool after creating a file is the specification's, in every error case too. |
| RamfsPool.Pool.Mkdir | fs/ramfs.c:171-190 | The same for directories. |
| RamfsPool.Pool.Find | fs/ramfs.c:243-253 | The scan returns the first live listed child of that name, or -1. |
| RamfsPool.Pool.Remove | fs/ramfs.c:279-304 | The shifting loop takes the node out of its parent's list; the pool is the specification's; RamfsEffects.RemoveEffect says what is gone and what stays. |
| RamfsPool.ShiftDown | fs/ramfs.c:291-293 | The inner loop closes the gap and keeps the order. |
| RamfsPool.Pool.Write | fs/ramfs.c:194-205 | At most 2047 characters replace the content. |
| RamfsPool.Pool.Append | fs/ramfs.c:209-223 | As many characters as still fit are appended. |
| RamfsPool.Pool.Read | fs/ramfs.c:227-239 | The content, cut to the buffer, is returned with its length; -1 for anything but a file. |
| RamfsPool.Pool.ResolvePath | fs/ramfs.c:308-343 | The resolver's loop over characters equals the walk over the components between slashes. |
| RamfsPool.Pool.PathOf | fs/ramfs.c:378-405 | The printer's two loops with a cut at every append equal one cut of the last seven components. |
| RamfsEffects.CreateSucceedsIff | fs/ramfs.c:148-190 | A creation succeeds exactly if the parent is a directory with room and nothing of that name, and a slot is unused; a refused one changes nothing. |
| RamfsEffects.CreateEffect | fs/ramfs.c:148-190 | The created node is the one the parent finds under the name as stored, empty, of the kind asked for, last in the list; every other node and list is as it was. |
| RamfsEffects.RemoveSucceedsIff | fs/ramfs.c:279-285 | A removal succeeds exactly for a live node that is not the root and not a directory with children; a refused one changes nothing. |
| RamfsEffects.RemoveEffect | fs/ramfs.c:286-303 | Then the node is out of the pool, the count is one less, no live node lists it, and every other node keeps its name, kind, content, parent and, less the one, its children in their order. |
| RamfsEffects.FindAfterRemove | fs/ramfs.c:243-253 | A look-up in any other live directory finds what it found before, or nothing if that was removed. |
| RamfsEffects.RemovedPathsFail | fs/ramfs.c:308-343 | A path that led to the removed node leads nowhere; every other one that resolved without passing through it still does, to the same node. |
| RamfsEffects.ContentEffect | fs/ramfs.c:194-223 | A write keeps the first 2047 characters and an append adds as many as fit, to this file only, and the number kept is the result. |
| RamfsEffects.PathIsNormal | fs/ramfs.c:308-343 | Only absolute paths resolve, and one that does leads to the same node as the path without empty components and dots in which each double dot has taken back the component before it, or nothing at the root. |
| IpcRuns.NoLostWakeup | kernel/ipc.c:162-254 | In every reachable state, blocking tasks finding another to switch to, a sleeping receiver means that at least as many receivers as there are messages have been woken and are due to run; the same for senders and free slots. |
| IpcRuns.DestroyWakesListed | kernel/ipc.c:147-152 | Unblocking the listed tasks one by one, as destruction does, wakes all that sleep. |
| IpcRuns.FifoAndConserved | kernel/ipc.c:162-206 | Messages received followed by the ring's contents are the messages sent, in order; total_sent - total_received is the count and tail is (head + count) mod 32. |
| IpcRuns.SleepersAreListedOnce | kernel/ipc.c:213-219 | Under the same hypothesis every sleeping task is listed exactly once and every listed task sleeps; the lists never overflow. |
| IpcRuns.StepKeepsInv | kernel/ipc.c:143-262 | Each blocking and non-blocking call, resumption, creation and destruction keeps: blocked receivers imply as many woken receivers as messages, blocked senders as many woken senders as free slots. |
| IpcRuns.RunKeepsInv | kernel/ipc.c:143-262 | So does any run of them. |
| IpcBreaks.PreemptionLosesWakeupIff | kernel/ipc.c:213-247 | For every run of other tasks between a task's entry in a blocked list and its sleep, as sender or receiver: it sleeps on no list, and the wake-up invariant is lost, exactly if one of those steps popped it or destroyed the queue. |
| IpcBreaks.HalvesMakeCall | kernel/ipc.c:241-247 | Listing and blocking without a break are the calls of the runs. |
| IpcBreaks.StepCommutes | kernel/ipc.c:179-184 | Where a task stands matters to another task's step only through being unblocked by it. |
| IpcBreaks.PreemptionLosesWakeup | kernel/ipc.c:242-247 | One such run: with a send between listing and blocking the receiver sleeps beside the message, on no list, and nobody is woken. |
| IpcBreaks.BlockedCallSleepsIff | kernel/ipc.c:241-251 | A blocking call's task leaves the processor, and sleeps as in the runs, exactly if another task is ready; if none is, sched_block returns at once, the next pass of the loop lists the task again, and no places of the tasks agree with the lists. |
| SchedWaits.BlockSwitchesIff | kernel/sched.c:468-477 | A block takes its caller off the processor exactly if the caller was running or ready and another task is ready. |
| SchedExamples.BlockReturnsAtOnce | kernel/sched.c:172-176 | A run from the start of the kernel to a block that returns at once. |
| IpcBreaks.KillKeepsInvIff | kernel/ipc.c:179-202 | A kill keeps the wake-up invariant exactly if its victim was in no call, or was woken and without it the woken still number at least the messages (the free slots, for senders) or nobody sleeps. |
| IpcBreaks.ContinueKeepsInvIff | kernel/ipc.c:223-247 | A wake-up from outside the queue keeps it exactly if the task did not sleep. |
| IpcBreaks.KillLosesWakeup | kernel/ipc.c:179-184 | A case: killing the only woken receiver leaves another asleep beside the message. |
| Ipc.FilledCarriesData | kernel/ipc.c:165-173 | The stored message has the sender, kind and a length of at most 256, and its first length bytes are the sender's; with a null pointer they are what the slot held before. |
| Ipc.EnqueueAppends | kernel/ipc.c:162-177 | Enqueueing appends the message written to the pending ones. |
| Ipc.DequeueTakesOldest | kernel/ipc.c:189-196 | Dequeueing takes the oldest message, whole. |
| Ipc.MessageQueue.Put | kernel/ipc.c:162-187 | The in-place enqueue equals the specification, the newest blocked receiver popped included. |
| Ipc.MessageQueue.Take | kernel/ipc.c:189-206 | The in-place dequeue equals it, the newest blocked sender popped included. |
| Ipc.MessageQueue.SendPass | kernel/ipc.c:210-226 | One pass of the blocking send: failure, listing and blocking, or enqueue. |
| Ipc.MessageQueue.RecvPass | kernel/ipc.c:238-254 | One pass of the blocking receive. |
| Ipc.MessageQueue.TrySending | kernel/ipc.c:230-234 | The non-blocking send. |
| Ipc.MessageQueue.TryReceiving | kernel/ipc.c:258-262 | The non-blocking receive. |
| Ipc.MessageQueue.Peek | kernel/ipc.c:266-271 | Peeking shows the oldest pending message and changes nothing. |
| Ipc.MessageQueue.Destroy | kernel/ipc.c:143-158 | Destroying unblocks all listed senders, then all listed receivers. |
| IpcEffects.SendEffect | kernel/ipc.c:210-236 | A send succeeds exactly on an active queue with room, appends the message with the sender's bytes and wakes the receiver listed last; on a full queue the blocking call lists its task and the other fails. |
| IpcEffects.RecvEffect | kernel/ipc.c:238-264 | A receive succeeds exactly on an active queue that is not empty, takes the oldest message and wakes the sender listed last; on an empty one the blocking call lists its task and the other fails. |
| IpcEffects.BurstIsReceived | kernel/ipc.c:162-264 | Any messages sent one after the other, up to 32 with those that wait, are received one after the other, whole and in order, after those that waited. |
| IpcEffects.SendFeedsReceiver | kernel/ipc.c:162-254 | A send wakes the receiver listed last and no other, and when that task goes on it gets the oldest message of the queue. |
| IpcEffects.RecvFeedsSender | kernel/ipc.c:189-228 | A receive wakes the sender listed last and no other, and when that task goes on its own message enters the queue. |
| IpcEffects.CreateAndDestroy | kernel/ipc.c:95-155 | A fresh queue is active and empty; a destroyed one leaves nobody asleep, and every call that was blocked returns with a failure. |
| SchedTurns.BoundedWaiting | kernel/sched.c:161-201 | A ready task above which no ready task of higher priority stands at any pick runs at the 31st pick at the latest and before 310 ticks have passed. |
| SchedTurns.StepCloser | kernel/sched.c:161-201 | Every pick strictly brings the current task nearer to the waiting one round the pool, and every tick shrinks the measure of slices still to pass. |
| SchedRuns.RunKeepsSound | kernel/sched.c:181-631 | Over every run in which no task misuses its own reaped slot (as SchedRuns.StepKeepsSoundIff says), tasks that die and cannot be switched away from included, only the current task is running, a slot from 1 on is free exactly if its stack is null, and the other stacks are distinct live blocks of a well-formed heap. |
| SchedRuns.StepLeavesIff | kernel/sched.c:368-447 | A call, signal or tick with a living task at the processor leaves one there exactly if the task it ends, if it ends the current one, can be switched away from. |
| SchedRuns.LeavingRunKeepsInv | kernel/sched.c:368-447 | So over a run in which every ended task could be, the current task is alive at every moment. |
| SchedRuns.StepKeepsSoundIff | kernel/sched.c:252-631 | Each call, signal and tick, whoever stands at the processor and with the rest of the kernel using the heap in between, keeps states, stacks and heap in that order exactly if it is not a misuse of the caller's own reaped slot: a sleep, an exit, a wait that blocks, or a create that lands in that slot. |
| SchedRuns.StartInv | kernel/sched.c:216-250 | It holds after sched_init. |
| SchedRuns.StacksFreedOnce | kernel/sched.c:584-630 | Over such a run from the start every stack is freed exactly as often as it was allocated, once less while a task still owns it. |
| SchedRuns.ExitLeavesIff | kernel/sched.c:368-402 | An exiting task leaves the processor exactly if some task is ready, or the idle task can run. |
| SchedRuns.IdleReadyCanTakeOver | kernel/sched.c:172-175 | As long as the idle task stays ready every other task can leave. |
| SchedRuns.StrandedOnFreedStack | kernel/sched.c:398-401 | Otherwise the dead task stays current and the next reaping tick frees the stack it stands on. |
| SchedRuns.LoneTaskWithIdleAsleep | kernel/sched.c:358-366 | That happens: the idle task may sleep and leave one task alone. |
| SchedExamples.StrandedTaskIsReaped | kernel/sched.c:398-401 | A run from the start of the kernel to a freed slot at the processor. |
| SchedRuns.SelfKillIsExit | kernel/sched.c:556-563 | A task that kills itself exits with code -9, but that sched_kill returns to it when nobody takes over. |
| SchedExamples.StrandedSelfKillIsReaped | kernel/sched.c:556-563 | A run from the start of the kernel: a task kills itself, nobody takes over, its slot is reaped under it, and it goes on; it may yield, but a sleep would break ownership. |
| SchedWaits.WaitReturnsOwnCode | kernel/sched.c:595-606 | A parent that waited gets its child's exit code, reaped or not, if the child's slot has not been used again before it resumes. |
| SchedWaits.LiveAtResumeEither | kernel/sched.c:592-606 | A live task is in the slot at resumption only if the child never ended, or ended and the slot was used again. |
| SchedWaits.EndWaitTakesLiveTask | kernel/sched.c:598-603 | Then the parent takes the live task's stack, frees its slot and returns a code nobody exited with. |
| SchedExamples.ReusedSlotIsTaken | kernel/sched.c:376-383 | A run from the start of the kernel for the first cause: the child exits with 7, is reaped, its slot is used again, and sched_wait returns 0 and takes the new task's stack. |
| SchedExamples.ContinuedParentTakesLiveChild | kernel/sched.c:677-685 | A run for the second: SIGCONT wakes the waiting parent, and sched_wait takes the stack of its living child. |
| Sched.PickNextIs | kernel/sched.c:161-177 | The pick is a ready task of the highest priority, the nearest after the current one round the pool; with none ready, the idle task if it can run, else the current task. |
| Scheduling.Scheduler.Pick | kernel/sched.c:161-177 | The nested scan computes that pick. |
| Scheduling.Scheduler.SwitchTo | kernel/sched.c:181-201 | State, slice and counters of both tasks after a switch. |
| Scheduling.Scheduler.Create | kernel/sched.c:252-345 | The first free slot gets a ready task on a fresh stack, or nothing changes. |
| SchedWaits.YieldHandsOver | kernel/sched.c:347-356 | A running task that yields while another is ready hands over to the best of the ready ones, everybody else unchanged, and is ready again, to run at the 31st pick at the latest while none of higher priority stands above it. |
| SchedWaits.SleepsUntilDeadline | kernel/sched.c:358-366 | A running task that sleeps while another is ready hands over to the best of the ready ones and, whatever happens, does not run again before the first tick at its deadline or later, unless a signal it does not mask, or a kill, comes. |
| Scheduling.Scheduler.Exit | kernel/sched.c:368-402 | Exiting marks the task, readies a waiting parent and hands over. |
| Scheduling.Scheduler.Kill | kernel/sched.c:533-564 | Killing does the same for another task, refuses the idle, free and dead, and hands over when the task kills itself. |
| SchedWaits.BlocksUntilRoused | kernel/sched.c:468-477 | A running task that blocks while another is ready hands over to the best of the ready ones and does not run again before something unblocks it. |
| SchedWaits.ParkedStays | kernel/sched.c:404-484 | No call, signal or tick but the few that rouse it moves a blocked or sleeping task or brings it to the processor. |
| SchedWaits.UnblockUndoesBlockIff | kernel/sched.c:468-484 | Unblocking takes back the blocking of another task exactly if that task was not blocked already. |
| Scheduling.Scheduler.Wait | kernel/sched.c:568-595 | Waiting returns at once for no child, no parent or a dead child, and else blocks up to the switch. |
| Scheduling.Scheduler.EndWait | kernel/sched.c:597-606 | What is left of the wait after the switch. |
| Scheduling.Scheduler.ReapDead | kernel/sched.c:610-631 | The scan gives back the dead that no live parent waits for, in slot order. |
| Scheduling.Scheduler.DeliverSignals | kernel/sched.c:729-787 | Pending signals are taken in order up to the first that ends the task. |
| Scheduling.Scheduler.Signal | kernel/sched.c:651-702 | Kill, stop and continue act at once; others become pending and wake a sleeper that does not mask them. |
| Scheduling.Scheduler.UnblockMask | kernel/sched.c:719-727 | Unmasking delivers what has become deliverable. |
| Scheduling.Scheduler.Tick | kernel/sched.c:404-447 | A tick counts, wakes sleepers, reaps every 1024 ticks, delivers signals, and counts the slice down to a hand-over; SchedEffects.SleeperRunsInTime says when a sleeper runs. |
| SchedEffects.SleeperRunsInTime | kernel/sched.c:411-415 | For every sleeper and every first tick at its deadline or later: after that tick it is at the processor or ready, and over every run in which no ready task of higher priority stands above it, it runs at the 31st pick and within 310 ticks at the latest. |
| SchedEffects.SleepEndsInTime | kernel/sched.c:358-415 | A whole sleep: over every undisturbed run the task is away until its deadline, and the first tick from there on wakes it, to run in that time. |
| SchedEffects.TickWakes | kernel/sched.c:411-415 | A tick leaves no task asleep whose time has come: it is ready or at the processor, with its priority and stack. |
| SchedEffects.TickWakesCurrent | kernel/sched.c:411-415 | One asleep at the processor, no other being able to run, is woken too, unless a signal of that tick ends it. |
| SchedEffects.TickReapsIff | kernel/sched.c:610-631 | A dead task's slot is taken back by a tick exactly if the time is a multiple of 1024 and no live parent waits for it. |
| SchedEffects.KillEffect | kernel/sched.c:533-564 | A kill of another task succeeds exactly on a live one other than the idle task; it is dead with exit code -9 then, a parent waiting for it can run, and no other slot changes. |
| SchedEffects.ExitEffect | kernel/sched.c:368-401 | An exit leaves the task dead with its code and another at the processor; a parent waiting for it is ready or running. |
| SchedEffects.ExitCodeReachesParent | kernel/sched.c:577-585 | When a child has exited and, after any run without reuse of its slot, the parent asks for it, it gets the child's exit code as long as the slot has not been reaped, and is refused after that. |
| SchedEffects.WaitEffect | kernel/sched.c:568-593 | sched_wait is refused for anything but an own child; of a dead one it returns the exit code, releases the stack and frees the slot; for a live one the caller is blocked on that child. |
| SchedEffects.CreateEffect | kernel/sched.c:252-345 | The first free slot takes a ready child of the caller on a fresh stack of at least 16384 bytes, without signals, that waits for its turn; refused exactly without a slot or room. |
| SchedEffects.TickEndsSignalled | kernel/sched.c:729-765 | A task with SIGTERM or SIGINT pending, unmasked and unhandled, is dead with exit code 128 plus the signal, SIGTERM first, after the next tick at which it is at the processor. |
| SchedEffects.UnmaskingDelivers | kernel/sched.c:719-798 | Unmasking delivers at once what was held back and ends nobody: exactly those signals are no longer pending and nothing else changes. |
| SchedEffects.SignalWakesOrWaits | kernel/sched.c:687-703 | A signal sent to a live task is pending for it, wakes it exactly if it sleeps without masking it, and touches no other task. |
| SchedEffects.StopThenContinue | kernel/sched.c:666-684 | SIGSTOP keeps a ready task from being picked, and SIGCONT gives back the pool as it was. |
| SchedEffects.SignalRefusedIff | kernel/sched.c:651-662 | Signals are refused exactly for slots without a live task, numbers out of range, and SIGKILL to the idle task. |
| SchedEffects.KillAndStopCannotBeHeldBack | kernel/sched.c:704-717 | No mask holds back SIGKILL or SIGSTOP and no handler can be set for them; any other can be masked and handled. |
| Dns.EncodeThenDecode | net/dns.c:110-187 | Decoding a host name where it was encoded, anywhere in a packet, gives it back exactly if it does not end in a dot and fits the output; it then consumes two bytes more than the name has (section 3.1 of RFC 1035). |
| Dns.CompressedNameDecodesIff | net/dns.c:143-187 | For a compressed name the decoder puts out the labels before the sixteenth pointer on its way: all of them exactly if it goes through at most fifteen pointers or has no label after the sixteenth, and the whole name exactly if it fits the output besides; success is reported for any number of pointers (section 4.1.4 of RFC 1035). |
| Dns.LabelAfterSixteenIsLost | net/dns.c:149-167 | A packet whose label stands after sixteen pointers: success, and the empty name. |
| Dns.LabelBeforeSixteenIsKept | net/dns.c:149-167 | A packet whose label stands before them: the name is whole. |
| Dns.SpanStopsAtPointer | net/dns.c:163-166 | The bytes consumed reach to the root label or through the first pointer and stay inside the packet. |
| Dns.DecodeName | net/dns.c:143-187 | The loop ends on every packet and reads only inside it; it returns 0 for a malformed name, else the name's own length and as much of the labels met as the buffer holds. |
| Dns.EncodeName | net/dns.c:110-133 | The name is written exactly if every label has 1 to 63 bytes and it fits, else 0 is returned; no byte outside the given room is touched. |
| Dns.TrailOfWire | net/dns.c:152-183 | The decoder meets exactly the labels that were encoded, wherever they stand. |
| Dns.DottedLabels | net/dns.c:114-128 | The labels between the dots, put together again, are the name less a dot at its end. |
| Dns.WithLabelClips | net/dns.c:177-181 | Appending labels with a cut each time is one cut of the dotted name. |
| DnsCache.CachedAnswerFoundIff | net/dns.c:191-224 | An answer just cached is found under any spelling until its lifetime is over, exactly if it was cached before 2^32 milliseconds of uptime; later entries are never found. |
| DnsCache.ResolveKeepsUnique | net/dns.c:389-443 | Every call of dns_resolve keeps cached names unique up to case. |
| DnsCache.FreshIff | net/dns.c:194-199 | An entry has not expired exactly if its 32-bit time stamp had not wrapped and its time is not up. |
| DnsCache.MissLeavesNone | net/dns.c:191-204 | A look-up that finds nothing leaves no entry of that name. |
| DnsCache.SameName | net/dns.c:56-63 | The comparing loop decides equality up to the case of ASCII letters. |
| DnsCache.Cache.Find | net/dns.c:191-204 | The scan equals the specification, an expired entry dropped included. |
| DnsCache.Cache.Insert | net/dns.c:206-224 | The entry goes to the first invalid slot, or to slot 0. |
| DnsCache.CachedAnswerIsGiven | net/dns.c:397-432 | While a cached answer is found it is the result and the cache stays; after that the network's answer is. |
| DnsCache.OthersStayCached | net/dns.c:206-224 | A new answer costs no other name its entry, except that in a full cache it takes slot 0. |
| Checksum.StoredChecksToZero | net/ip.c:79-89 | Storing the checksum in a zeroed field at an even offset makes the check over the same bytes zero, for any data. |
| Checksum.SameBytesOnTheWire | net/ip.c:79-89 | The two bytes the little-endian machine stores are those of the checksum defined on network-order words (section 2(B) of RFC 1071). |
| Checksum.WordErrorUndetectedIff | net/ip.c:79-89 | With one word changed the check is still zero exactly if the word is the same, or 0 and 0xFFFF have been exchanged (and not all data is zero). |
| Checksum.IpChecksum | net/ip.c:79-89 | The loops compute the folded complement of the word sum; the 32-bit accumulator never overflows and folding ends. |
| Checksum.TcpChecksum | net/tcp.c:110-141 | The segment's checksum equals the same function of pseudo-header and segment (section 3.1 of RFC 793). |
| Checksum.FoldIs | net/ip.c:87-87 | Folding takes the remainder by 65535, with 65535 for the positive multiples. |
| Checksum.SumBound | net/ip.c:82-86 | The sum of the words is at most 65535 for each word begun, which 32 bits hold for any 16-bit length. |
| Framebuffer.Screen.DrawLine | gui/framebuffer.c:330-352 | The loop visits one point more than the longer side has steps, from end to end, one step along the longer side each, neighbours all, each within half a pixel of the line; those on the screen are coloured and nothing else is. |
| Framebuffer.AdvanceStaysClose | gui/framebuffer.c:348-350 | Every pass makes exactly one step along the longer side and stays within half a pixel, in all octants. |
| Framebuffer.CloseIsHalfPixel | gui/framebuffer.c:341-350 | On a line not steeper than the diagonal the integer bound is the half-pixel distance from the ideal line in y. |
| Framebuffer.SteepCloseIsHalfPixel | gui/framebuffer.c:341-350 | On a steeper one it is that distance in x. |
| Framebuffer.TrackEnds | gui/framebuffer.c:347-347 | The end point is reached after exactly as many steps as the longer side has, before the step limit. |
| Framebuffer.Screen.FillRect | gui/framebuffer.c:291-313 | Exactly the pixels of the rectangle that are on the screen are coloured. |
| Framebuffer.Screen.FillCircle | gui/framebuffer.c:376-387 | Exactly the pixels with squared distance at most r*r that are on the screen are coloured. |
| Framebuffer.HalfChord | gui/framebuffer.c:382-384 | The counting loop finds the largest dx inside the disc on that row. |
| Framebuffer.Screen.PutPixel | gui/framebuffer.c:279-285 | One pixel, if it is on the screen. |
| VfsPlain.RunIsPlain | fs/vfs.c:107-418 | Any run of open, read, write, seek, dup, dup2 and close through any number of descriptors is, bytes read and results included, a run of a machine of byte sequences with an own offset for each descriptor (splice or append, zeros in gaps), if every write ends within 2047 bytes and every seek below 2^31. |
| VfsPlain.RunKeepsPaths | fs/vfs.c:128-161 | Over such a run a path keeps leading to the file it led to, so opening it again opens the same bytes. |
| VfsPlain.OpenIsPlain | fs/vfs.c:107-186 | An open enters a new handle on the file its path leads to, or if it leads nowhere and O_CREAT is set, on one made empty; truncated if asked, at the end if it appends, and nothing else changed; it may also make the file and then fail. |
| VfsPlain.ReopenOpensSameFile | fs/vfs.c:122-161 | A file once opened under a path that led to it, or can be found, is what every later open of that path enters, through any table and after any run. |
| VfsPlain.SeekIsPlain | fs/vfs.c:358-378 | A seek moves this handle alone, from the start, its place or the end, and not below zero. |
| VfsPlain.Dup2IsPlain | fs/vfs.c:403-418 | A dup2 makes one handle a copy of another, or loses it if they are the same. |
| Vfs.RunKeepsFifo | fs/vfs.c:188-465 | For every pipe, over any interleaving of opens, reads and writes through duplicated descriptors, what was accepted is what was delivered followed by what waits in the ring. |
| VfsPlain.WriteIsPlainIff | fs/vfs.c:258-298 | A write is the byte machine's write (appended, or spliced at this handle's offset, which moves on), with every byte counted, exactly if it ends within 2047 bytes. |
| Vfs.LongWriteLosesLastByte | fs/vfs.c:273-297 | A splice past that keeps 2047 bytes and reports one more. |
| Vfs.SpliceThenRead | fs/vfs.c:280-295 | What was spliced in is read back; bytes around it are unchanged and a gap is zero. |
| VfsPlain.ReadIsPlain | fs/vfs.c:198-214 | A read returns the byte machine's bytes from this handle's offset on, moves that offset over them, and changes nothing else. |
| Vfs.CreatedPathResolves | fs/vfs.c:128-161 | What an open with O_CREAT makes under an absolute path is what the path then resolves to, if the last name can be looked up, is not cut, and the directory part fits its buffer. |
| Vfs.WalkSurvives | fs/vfs.c:159-160 | Creating a file changes no path that resolved before. |
| Vfs.StepKeepsSound | fs/vfs.c:107-465 | Opens, reads, writes, seeks, duplications, closes and new pipes keep tables, rings and contents within their bounds. |
| Vfs.StepKeepsOffsets | fs/vfs.c:358-378 | Only a seek can take a descriptor beyond the buffer file writes work in. |
| Vfs.PushAllAppends | fs/vfs.c:314-324 | Filling the ring appends the characters. |
| Vfs.PopAllTakesOldest | fs/vfs.c:229-238 | Draining the ring takes the oldest characters in order. |
| VfsEnds.BrokenWhileHeldIff | fs/vfs.c:334-465 | Over any run a pipe end is marked closed while a descriptor of it is left exactly if one is left and the last event that marked the end was a close, or a dup2 over one of its descriptors, and not its making or a dup. |
| VfsEnds.StepKeepsAgreementIff | fs/vfs.c:343-348 | Where an end's flag and its descriptors agree, a call keeps them so exactly if it does not drop a descriptor of that end while another is left. |
| VfsEnds.CloseOneOfTwoReadEnds | fs/vfs.c:343-348 | A case: closing one of two read ends breaks the pipe for its writer while the other is open. |
| VfsEnds.Dup2ActsIff | fs/vfs.c:403-418 | After a dup2 the new descriptor acts as the old, the openness of its pipe end included, exactly if the two are different and not of the same open pipe end; it reports success either way. |
| VfsEnds.Dup2OverSameEnd | fs/vfs.c:411-416 | A case: dup2 over another descriptor of the same read end breaks the pipe with both in place. |
| VfsEnds.Dup2OntoItself | fs/vfs.c:411-416 | A case: duplicating a descriptor onto itself loses it. |
| VfsTables.Tables.Open | fs/vfs.c:107-186 | Opening equals the specification: special path, creation, directories refused, truncation, append offset. |
| VfsTables.Tables.Read | fs/vfs.c:188-246 | Reading through a descriptor of any kind equals the specification; VfsEffects.ReadThroughDescriptor says what a pipe delivers. |
| VfsTables.Tables.Write | fs/vfs.c:248-332 | Writing through a descriptor of any kind equals it. |
| VfsTables.Tables.Spliced | fs/vfs.c:280-292 | The work buffer of a file write is the splice. |
| VfsTables.Tables.Close | fs/vfs.c:334-356 | Closing frees the descriptor and marks its pipe end. |
| VfsTables.Tables.Seek | fs/vfs.c:358-378 | Seeking sets the offset, not below zero. |
| VfsTables.Tables.Dup | fs/vfs.c:380-401 | Duplication copies the descriptor to the first free one and marks its pipe end open. |
| VfsTables.Tables.Dup2 | fs/vfs.c:403-418 | Duplication onto a given descriptor closes it first. |
| VfsTables.Tables.MakePipe | fs/vfs.c:424-465 | A pipe takes two free descriptors and a ring never used before, or nothing changes. |
| VfsEffects.ReadPipeEffect | fs/vfs.c:229-238 | A read delivers exactly the oldest of what waits, as much as is asked for and there, and leaves the rest waiting. |
| VfsEffects.WritePipeEffect | fs/vfs.c:307-326 | A write with the read end open accepts exactly the first characters that find room among 512, behind what waits. |
| VfsEffects.ReadThroughDescriptor | fs/vfs.c:218-240 | The same for a read through any read descriptor of the pipe, with nothing else changed. |
| VfsEffects.WriteThroughDescriptor | fs/vfs.c:301-328 | The same for a write through any write descriptor of the pipe. |
| VfsEffects.WriteThenRead | fs/vfs.c:218-328 | A write and then a read of the ring's size, through any descriptors of the pipe, give back what waited and then what was accepted. |
| VfsEffects.AllAcceptedCanBeRead | fs/vfs.c:188-332 | After every run, one read of the ring's size through any read descriptor completes what was delivered to all that was accepted. |
| VfsEffects.OpenSucceedsIff | fs/vfs.c:107-186 | An open succeeds exactly if the table is in use with a free descriptor and the path leads, or with O_CREAT is made to lead, to a file, or names the null device; the lowest free descriptor is entered. |
| VfsEffects.CloseSucceedsIff | fs/vfs.c:334-356 | A close succeeds exactly for an open descriptor, frees it, and touches no other. |
| VfsEffects.DupSucceedsIff | fs/vfs.c:380-401 | A dup succeeds exactly for an open descriptor in a table with a free one, and the lowest free one is the copy. |
| VfsEffects.PipeSucceedsIff | fs/vfs.c:424-465 | A pipe is made exactly if a ring is left and two descriptors are free; they are its two ends, open and empty. |
| VfsEffects.OtherDescriptors | fs/vfs.c:188-332 | What is not open and the wrong end of a pipe are refused; console and null device take everything and give nothing. |
| Editor.EnterThenBackspaceIff | apps/apps.c:1011-1066 | Backspace takes Enter back, text and cursor, exactly if the line has at most 254 characters or the cursor stood at its end; in a full document, exactly at the very start. |
| Editor.InsertThenBackspaceIff | apps/apps.c:1011-1081 | Backspace takes a character back exactly if the line had room for it, or at the very start. |
| Editor.SaveThenLoadIff | apps/apps.c:891-977 | Parsing what a file keeps of the saved text gives the same lines exactly if the text has at most the 2047 bytes a file holds. |
| EditorFiles.SaveThenLoadIff | apps/apps.c:887-965 | Through the RAM filesystem, saving under a name and loading it gives the same lines exactly if the name led to a file before the save and the text has at most 2047 bytes; a name that led nowhere still leads nowhere. |
| EditorFiles.SecondSaveFails | apps/apps.c:961-971 | A second save under a relative name finds its file taken but not findable, and fails. |
| Editor.TypingKeepsSound | apps/apps.c:983-1081 | Whatever is typed, the cursor stays on the document and no line outgrows its buffer. |
| Editor.ParseText | apps/apps.c:899-911 | Loading undoes saving for text that is whole. |
| Editor.ParseCutText | apps/apps.c:899-911 | A text cut short loads with fewer lines. |
| Editor.Buffer.InsertChar | apps/apps.c:1069-1079 | The shifting loop inserts the character at the cursor. |
| Editor.Buffer.DoBackspace | apps/apps.c:1011-1037 | Backspace in place: a character out, or the line joined to the one above where it fits. |
| Editor.Buffer.DoEnter | apps/apps.c:1042-1064 | Enter in place: lines shifted down, the line split. |
| Editor.Buffer.Content | apps/apps.c:951-959 | The saving loops produce the whole text up to 8000 characters, and its beginning beyond. |
| Editor.Buffer.LoadContent | apps/apps.c:898-911 | The loading loop equals the specification, the forced split at 255 characters included. |
| EditorText.TypingEditsText | apps/apps.c:983-1081 | The editor refines one string with a cursor: whatever is typed, each key where it has room, the text before and after the cursor is what inserting, deleting and stepping by characters make of it. |
| EditorText.KeyEditsIff | apps/apps.c:983-1081 | Every key but Up and Down has that effect on the text exactly if it has room: a line of at most 253 characters for a character, 2046 lines for Enter, a joined line of at most 254 for Backspace. |
| EditorText.BackspaceJoins | apps/apps.c:1019-1035 | At the start of a line Backspace removes the newline before it, and loses the line's own text exactly if the joined line would have 255 characters or more. |
| EditorText.LineArrows | apps/apps.c:983-998 | Up and Down keep the text and go to the neighbouring line, as far right as it allows. |
| Rings.Push | kernel/ipc.c:167-176 | Writing at the tail slot of a ring appends to the elements it holds; the same ring serves TCP, queues and pipes. |
| Rings.Pop | kernel/ipc.c:193-195 | Advancing the head takes the oldest element. |

## Left out

- Tcp.Connection.Recv: takes a parsed segment; header layout and byte order of the segment are not modelled beyond the checksum.
- Tcp.Connection.ActiveOpen: the interface is taken to be configured, and the sequence-number generator's value is a parameter.
- TcpPair.DeliveredIsPrefixOfSent: says nothing about progress, because data is never retransmitted and a lost segment is never made up for.
- TcpCloses.SimultaneousClose: takes each timer call on a configured interface and streams of at most 2^32 - 2 bytes; a FIN that failed to leave is numbered too low and may be answered.
- TcpCloses.FinInFinWait1Iff: likewise excludes ends with a FIN that failed to leave; what such a FIN acknowledges is in TcpFins.
- EditorText.TypingEditsText: Up and Down are not steps of the string with a cursor; LineArrows says what they do.
- TcpPair.AcknowledgedIsStored: stops at the first FIN taken, because a FIN moves rcv_nxt without an order check; EarlyFinAcknowledgesLostByte is the run that shows it.
- HeapMemory.Allocator.CopyWords: copies 64-bit words where the kernel copies bytes; block sizes are multiples of 16, so the words are the same bytes.
- kcalloc and the printing of heap statistics: easy members over kmalloc.
- The default files that ramfs_init writes, and ramfs_list: text only.
- Ipc: queue names and the table of sixteen queues; each queue is independent of the others.
- IpcRuns.NoLostWakeup: wake-ups by signals or kills from outside are excluded; IpcBreaks says exactly when they, or a break before the block, do harm.
- SchedRuns.RunKeepsSound: user signal handlers are taken not to touch the scheduler's state; names, load averages and the saved registers are not modelled.
- SchedTurns.BoundedWaiting: a running task keeps its processor until its slice ends whatever the priorities, because the pick looks at ready tasks only; strict priority over the running task is not claimed.
- dns_recv and the sending of queries: packet plumbing around the name decoder.
- Framebuffer.Screen.FillRect: sums that overflow 32 bits are excluded, as C leaves them undefined; fb_draw_circle, rounded rectangles, gradients and fonts are not modelled.
- VfsPlain.WriteIsPlainIff: offsets beyond 2048 of descriptors that do not append are excluded, where the kernel's arithmetic wraps.
- VfsPlain.SeekIsPlain: positions of 2^31 and beyond are excluded, where the kernel's signed arithmetic overflows.
- vfs_alloc_task and vfs_free_task: the setting up of a table with three console descriptors, and the closing of all its descriptors.
- VfsTables.Tables.Write: what is written to the console is counted, not shown.
- EditorFiles.SaveThenLoadIff: takes a file name of at most 127 characters; the editor keeps no more of a longer one for saving, but loads by the whole of it.
- Editor.Buffer.LoadContent: scrolling, rendering and the keyboard are not modelled.
- ltlc_compile: a scanner that counts tokens and delimiters.
- Port access, PCI, disk, network card, interrupts, boot code, the GUI, the shell, procfs, ARP, DHCP, HTTP, chat and packages: hardware or plumbing.
