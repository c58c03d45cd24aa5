# lwIP engine of TunForge: a verified model

TunForge carries IP traffic through the lwIP TCP/IP engine that it compiles in. This project models the
parts of that engine where correctness is hardest to see, and proves what they promise for every input
or every run:

- the heap allocator, down to the bytes of its block headers (`HeapLayout`, `HeapImage`, `HeapRam`),
- the Internet checksum in its three versions and over pbuf chains (`InternetSum`, `Checksum`),
- the pool free list and its cycle detection (`MempPool`),
- the timer list under wrapping 32-bit time (`TimerQueue`, `Timeouts`),
- TCP control blocks: timers whose callbacks change the list they walk (`TcpTimer`), backlog counting,
  closing and eviction (`TcpPcbs`, `TcpSteps`, `TcpStack`), the receive window (`TcpWindow`), delivery and redelivery
  of data (`TcpFlow`, `TcpRefused`, `TcpInput`),
- packet buffers: reference counts, chains with 16-bit totals, byte access (`PbufRefs`, `PbufRelease`,
  `PbufChain`, `PbufOps`, `PbufBytes`),
- the wakeup protocol of `lwip_select` (`Select`).

Most parts have two layers. Functions on values say what an operation means, and lemmas prove the
properties of whole runs about them. Classes with fields and loops follow the C code, and their contracts
tie each method to those functions. `Basics` and `IdList` hold what several modules share.
`dafny verify dfyconfig.toml` verifies the project.

## Modelling conventions

- Addresses are numbers: heap offsets, and identifiers for PCBs, pbufs and list entries. A linked list is
  a sequence of them, or a store of records with `next` fields where links themselves matter (pbufs, the
  pool, the heap).
- Unsigned arithmetic wraps explicitly: 8-bit reference counts, stamps and counters, 16-bit totals, 32-bit
  times, sequence numbers and sums.
- Time, memory shortage, application callbacks and the peer's segments are inputs, and arbitrary.
- Where the code asserts something that can fail, the method reports it (`tripped`) or its `requires` states
  what the assertion demands of the caller.
- Configuration as in the macOS build: `MEM_ALIGNMENT` 8, 32-bit `mem_size_t`, a 16-byte block header,
  window scaling on, `TCP_QUEUE_OOSEQ` and `TCP_LISTEN_BACKLOG` on, a little-endian host.

## Findings

Some properties one might expect do not hold for all inputs. The code is modelled as it is, and the exact
condition is proved.

- The first and second version of the checksum return the right value for all data of a length exactly up to
  length 0x20002 (`Checksum.LengthExact`, from `InternetSum.LimitExact` for the 32-bit sum); the third version
  folds on the way and has no limit.
- `pbuf_take_at` can refuse a slice that lies inside a chain of 65536 bytes or more, as the 16-bit totals wrap.
  It succeeds exactly under `PbufBytes.Reaches`; `PbufBytes.ReachesFits` relates this to the length of the
  chain, and `PbufBytes.LongRefused` is a chain in which not one byte can be written.
- The time comparison is right for times less than 2^32 ms apart exactly if their difference is from -2^31 to
  2^31 - 1 (`Timeouts.Faithful`), and beyond that if it is so modulo 2^32 (`Timeouts.FaithfulIff`).
- `sys_check_timeouts` need not end when a handler starts itself again with delay zero
  (`TimerQueue.ZeroDelayNeverEnds`). It ends exactly if from some round on no handler starts a timer that is
  due by the moment the call began, and no cyclic timer with interval zero re-arms itself by then
  (`TimerQueue.EndsExactly`); after the clock has moved on, a delay of zero does no harm.
- A cyclic timer keeps its rhythm exactly if every firing is handled before the next one is due
  (`TimerQueue.NoDrift`).
- With window scaling the right edge that segments show to the peer can move left, although the announced edge
  never does (`TcpWindow.WireShrinksIffScaled`).
- `tcp_backlog_delayed` is right exactly for a PCB that is active, already pending or without a listener
  (`TcpPcbs.DelayedKeeps`); a run leads to one that is not (`TcpPcbs.DelayedAfterRun`).
- `pbuf_dechain` returns a stale pointer exactly when the tail starts with a positive multiple of 256 pbufs that
  have one reference each (`PbufOps.Pbufs.Dechain`), which a run from the empty store reaches
  (`PbufOps.DanglingTail`).
- The assertion in `mem_trim` about the end of the heap can be reached, and the code after it would be right
  (`HeapLayout.TrimAssertionReachable`).

## Model

| member | source | states |
|---|---|---|
| `HeapLayout.TakeWellFormed` | Sources/Lwip/src/core/mem.c:873-915 | taking a fitting block, split or whole, leaves blocks that tile the heap in aligned order with no two free neighbours |
| `HeapLayout.ReleaseWellFormed` | Sources/Lwip/src/core/mem.c:656-667 | freeing a block and merging it with a free neighbour on either side restores that no two neighbours are free |
| `HeapLayout.ShrinkWellFormed` | Sources/Lwip/src/core/mem.c:738-793 | trimming, whether it moves the next free block down or cuts off a new one, keeps the heap well formed |
| `HeapLayout.RunWellFormed` | Sources/Lwip/src/core/mem.c:603-963 | after any sequence of allocations, frees and trims the blocks tile the heap and are coalesced |
| `HeapLayout.LiveDisjoint` | Sources/Lwip/src/core/mem.c:835-963 | the data areas of two live allocations do not overlap |
| `HeapLayout.NothingLiveIsInitial` | Sources/Lwip/src/core/mem.c:460-532 | no allocation is live exactly when the heap is the single initial free block |
| `HeapLayout.MallocFailsIffNoneFits` | Sources/Lwip/src/core/mem.c:826-962 | mem_malloc returns NULL exactly when no free block holds the request, although sizes are rounded up and checked for overflow first |
| `HeapLayout.LiveDetermines` | Sources/Lwip/src/core/mem.c:460-963 | two well-formed heaps with the same live allocations are the same, so that what a call does to the live allocations is all it does |
| `HeapLayout.MallocLive` | Sources/Lwip/src/core/mem.c:817-963 | in all cases: of the lowest free block with the bytes asked for an allocation of the least aligned size is handed out and the rest stays a free block behind it, if that can hold a header and the minimum, otherwise the whole block; the result is its address; without such a block it is NULL and nothing changes |
| `HeapLayout.AlignedUnique` | Sources/Lwip/src/core/mem.c:826-834 | the aligned size of a request is determined: the least multiple of the alignment that holds it and the minimum |
| `HeapLayout.MallocBounded` | Sources/Lwip/src/core/mem.c:873-915 | the allocation has at least the bytes asked for, and fewer than the aligned size and one further block; the bytes in use grow by exactly its length |
| `HeapLayout.BytesConserved` | Sources/Lwip/src/core/mem.c:460-963 | bytes in use, free bytes and headers always add up to the heap |
| `HeapLayout.FreeLive` | Sources/Lwip/src/core/mem.c:603-675 | a free removes exactly the given block from the live ones |
| `HeapLayout.TrimLive` | Sources/Lwip/src/core/mem.c:685-807 | a trim keeps the address and leaves all other live blocks alone; the block has the least aligned size afterwards, if what is cut off can join a free block behind it or hold one of its own, and otherwise its old size |
| `HeapLayout.TrimTooMuch` | Sources/Lwip/src/core/mem.c:722-733 | a trim to more than the block has is refused, exactly then, and changes nothing |
| `HeapLayout.TrimAssertionReachable` | Sources/Lwip/src/core/mem.c:767-793 | a heap filled by one allocation reaches the assertion that forbids trimming a block that touches the end, and the code behind it would keep the invariant |
| `HeapImage.LinkInEncodes` | Sources/Lwip/src/core/mem.c:886-901 | writing the header of a new block between two others and correcting the two neighbouring links encodes the list with that block added |
| `HeapImage.LinkOutEncodes` | Sources/Lwip/src/core/mem.c:473-496 | unlinking a block by two link writes encodes the merged list |
| `HeapImage.MoveEncodes` | Sources/Lwip/src/core/mem.c:738-766 | rewriting the header of the next free block lower down encodes the list with that block enlarged |
| `HeapImage.WordOfOctets` | Sources/Lwip/src/core/mem.c:336-347 | a 32-bit link written as four bytes is read back unchanged |
| `HeapImage.OthersKept` | Sources/Lwip/src/core/mem.c:886-901 | header writes touch no byte of the data of any other block |
| `HeapImage.NoneFitsAbove` | Sources/Lwip/src/core/mem.c:856-874 | the early end of the search loses nothing: no block that starts beyond its bound can hold the request |
| `HeapImage.TakeLowest` | Sources/Lwip/src/core/mem.c:918-936 | when the lowest free block is taken, moving lfree up over used blocks finds the lowest free one again |
| `HeapImage.FreedLowest` | Sources/Lwip/src/core/mem.c:656-667 | after a free, the smaller of the old lfree and the freed block, followed through merging, is the lowest free block |
| `HeapImage.SplitLowest` | Sources/Lwip/src/core/mem.c:767-793 | after a trim that cuts off a new block, lfree is again the lowest free block |
| `HeapImage.LiveAccepted` | Sources/Lwip/src/core/mem.c:537-552 | the pointer that mem_malloc returned passes the tests mem_free applies to it |
| `HeapRam.Heap.constructor` | Sources/Lwip/src/core/mem.c:502-532 | mem_init writes one free block and the end marker; prev, next, flags and lfree encode the initial layout |
| `HeapRam.Heap.FindFit` | Sources/Lwip/src/core/mem.c:853-874 | the search from lfree over the bytes finds the lowest-addressed free block that fits, or reports that none does |
| `HeapRam.Heap.TakeBlock` | Sources/Lwip/src/core/mem.c:873-936 | the chosen block is split or taken whole in place, lfree advanced, and all other data bytes are kept |
| `HeapRam.Heap.AdvanceLfree` | Sources/Lwip/src/core/mem.c:919-936 | the walk over used blocks stops at the lowest free block or at the end marker |
| `HeapRam.Heap.Malloc` | Sources/Lwip/src/core/mem.c:817-963 | for every size the bytes afterwards encode the layout of the abstract allocation, what was handed out and what is left free is as `MallocLive` says, the result is its address or NULL, and live data is unchanged |
| `HeapRam.Heap.PlugHoles` | Sources/Lwip/src/core/mem.c:460-497 | both merges, with the adjustment of lfree, give the coalesced layout |
| `HeapRam.Heap.MemLinkValid` | Sources/Lwip/src/core/mem.c:537-552 | answers whether both neighbours of a header point back to it, on any bytes |
| `HeapRam.Heap.Free` | Sources/Lwip/src/core/mem.c:603-675 | NULL, foreign, unaligned, out of range, unused and corrupted pointers are turned away without a change; a live block is freed as the layout says |
| `HeapRam.Heap.Trim` | Sources/Lwip/src/core/mem.c:685-807 | every branch of mem_trim, including refusals, leaves the bytes encoding the trimmed layout; the assertion at the heap's end is reported |
| `HeapRam.Heap.WriteData` | Sources/Lwip/src/core/mem.c:817-963 | writing anywhere into the data of a live block, from its first byte up to the next header, changes that byte only and leaves the bytes encoding the same layout |
| `InternetSum.RfcIsNet` | Sources/Lwip/src/core/inet_chksum.c:79-114 | the end-around-carry sum of section 2 of RFC 1071 is the big-endian word sum modulo 65535, zero only for all-zero data |
| `InternetSum.HostIsSwappedNet` | Sources/Lwip/src/core/inet_chksum.c:132-173 | summing in the other byte order gives the byte-swapped sum |
| `InternetSum.SumAppendOdd` | Sources/Lwip/src/core/inet_chksum.c:274-281 | after an odd number of bytes the following bytes count in swapped order |
| `InternetSum.SumFits` | Sources/Lwip/src/core/inet_chksum.c:88-100 | for lengths up to 0x20002 a 32-bit accumulator loses no carry |
| `InternetSum.LimitExact` | Sources/Lwip/src/core/inet_chksum.c:79-173 | a 32-bit sum of words, in either byte order, is right for all data of a length exactly if the length is at most 0x20002 |
| `InternetSum.ReceiverAccepts` | Sources/Lwip/src/core/inet_chksum.c:554-588 | with the complemented sum stored in its place the data sums to 0xffff |
| `InternetSum.SingleByteErrorDetected` | Sources/Lwip/src/core/inet_chksum.c:554-588 | data that sums to 0xffff no longer does after a change of any one byte |
| `Checksum.StandardChksum1` | Sources/Lwip/src/core/inet_chksum.c:79-114 | the first algorithm, for every buffer: it returns the folded 32-bit sum, and up to 0x20002 bytes that is the RFC 1071 sum in host order |
| `Checksum.StandardChksum2` | Sources/Lwip/src/core/inet_chksum.c:132-173 | the same for the second, for every start alignment |
| `Checksum.ReturnedRight` | Sources/Lwip/src/core/inet_chksum.c:79-173 | what these two return is the RFC 1071 sum exactly for the buffers whose 32-bit sum is right modulo 65535 |
| `Checksum.LengthExact` | Sources/Lwip/src/core/inet_chksum.c:79-173 | so each of them returns the right value for all data of a length exactly if the length is at most 0x20002 |
| `Checksum.StandardChksum3` | Sources/Lwip/src/core/inet_chksum.c:188-255 | the third, which adds 32-bit words with carry, computes the RFC 1071 sum in host order for every start alignment and every length |
| `Checksum.InetChksum` | Sources/Lwip/src/core/inet_chksum.c:554-558 | the complement of that sum |
| `Checksum.SumChain` | Sources/Lwip/src/core/inet_chksum.c:265-281 | the running sum over pieces, swapped back and forth after odd pieces, is the sum of the bytes in one sequence |
| `Checksum.InetChksumPbuf` | Sources/Lwip/src/core/inet_chksum.c:567-588 | the checksum of a chain is that of its concatenated bytes, however they are split |
| `Checksum.StoredInPlace` | Sources/Lwip/src/core/inet_chksum.c:554-588 | storing the result as the host stores a u16_t puts the RFC 1071 checksum into the packet in network order |
| `Checksum.InetChksumPseudo` | Sources/Lwip/src/core/inet_chksum.c:309-330 | the pseudo-header form equals the checksum of the pseudo-header bytes followed by the data |
| `Checksum.SumChainPartial` | Sources/Lwip/src/core/inet_chksum.c:406-429 | the prefix form sums exactly the first bytes, and its length assertion fails exactly for a first pbuf that leaves 0x7fff or more |
| `Checksum.InetChksumPseudoPartial` | Sources/Lwip/src/core/inet_chksum.c:455-476 | the same for a prefix of the chain with a pseudo-header |
| `MempPool.EndsIffAcyclic` | Sources/Lwip/src/core/memp.c:101-116 | a walk along next pointers ends exactly if no cycle is reached |
| `MempPool.Meet` | Sources/Lwip/src/core/memp.c:107-113 | on a cycle the slow and the fast pointer meet |
| `MempPool.MempSanity` | Sources/Lwip/src/core/memp.c:101-116 | on every finite pointer graph the two-pointer walk ends, and returns 0 exactly if the list runs into a cycle |
| `MempPool.Pool.constructor` | Sources/Lwip/src/core/memp.c:174-213 | the initial free list holds every element once, the last one first |
| `MempPool.Pool.Malloc` | Sources/Lwip/src/core/memp.c:244-300 | takes the first free element, or returns NULL and changes nothing when there is none |
| `MempPool.Pool.Free` | Sources/Lwip/src/core/memp.c:358-394 | puts the element in front; the sanity walk afterwards fails exactly if the element was already free |
| `TimerQueue.InsertSorted` | Sources/Lwip/src/core/timeouts.c:183-221 | inserting keeps the list sorted by true due time |
| `TimerQueue.InsertExact` | Sources/Lwip/src/core/timeouts.c:183-221 | inserting adds the entry and loses none |
| `TimerQueue.CancelExact` | Sources/Lwip/src/core/timeouts.c:317-341 | cancelling removes exactly the first entry with the handler |
| `TimerQueue.CancelNone` | Sources/Lwip/src/core/timeouts.c:317-341 | and nothing where there is none |
| `TimerQueue.InsertFifo` | Sources/Lwip/src/core/timeouts.c:206-220 | among equal due times the new entry is last |
| `TimerQueue.EndsExactly` | Sources/Lwip/src/core/timeouts.c:352-396 | the call ends exactly if, from some round on, no handler it calls starts a timer that is due already by the moment the call began, and no cyclic timer without an interval re-arms itself before the clock has moved on |
| `TimerQueue.QuietEnds` | Sources/Lwip/src/core/timeouts.c:352-396 | once that is so, it ends within one more round per due one-shot timer and two per due cyclic timer |
| `TimerQueue.PatientRound` | Sources/Lwip/src/core/timeouts.c:352-396 | a round that starts timers with positive delays and intervals only does nothing of the kind |
| `TimerQueue.NothingDue` | Sources/Lwip/src/core/timeouts.c:352-396 | when the call has ended, every pending timer is due after the moment it began |
| `TimerQueue.AtMostTwice` | Sources/Lwip/src/core/timeouts.c:232-261 | a cyclic timer runs at most twice, and a one-shot timer at most once, in one call, as long as no handler starts a timer with its id that is due at once |
| `TimerQueue.RunInOrder` | Sources/Lwip/src/core/timeouts.c:352-396 | over the whole call, whatever the handlers do, they run in the order of their due times |
| `TimerQueue.DueTimersFire` | Sources/Lwip/src/core/timeouts.c:352-396 | a call that ends fires at least once for every entry that was due at its start and that no handler cancels |
| `TimerQueue.OneShotsFireOnce` | Sources/Lwip/src/core/timeouts.c:352-396 | for one-shot timers exactly once for each |
| `TimerQueue.ZeroDelayNeverEnds` | Sources/Lwip/src/core/timeouts.c:352-396 | a handler that starts itself again with delay zero while the clock stands still keeps the loop going for ever |
| `TimerQueue.NoDrift` | Sources/Lwip/src/core/timeouts.c:232-261 | over any number of calls a cyclic timer that is left alone has one entry, and after k firings it is due exactly k intervals after its first due time if and only if every firing was handled before the next was due; otherwise later |
| `TimerQueue.LateRestarts` | Sources/Lwip/src/core/timeouts.c:242-260 | a cyclic timer handled in time is due again one interval after it was due, one handled too late exactly one interval after its handler has returned |
| `TimerQueue.FiresWhenDue` | Sources/Lwip/src/core/timeouts.c:290-396 | a one-shot timer started with a delay, over any calls that follow and leave it alone: it does not fire as long as no call has begun at or after the moment it is due, and if the calls end it fires exactly once, in the first that has |
| `TimerQueue.CancelledNeverFires` | Sources/Lwip/src/core/timeouts.c:317-341 | a one-shot timer that is cancelled before never fires |
| `Timeouts.FaithfulIff` | Sources/Lwip/src/core/timeouts.c:72-73 | the 32-bit comparison is right exactly if the difference of the true times, modulo 2^32, is at most 2^31 - 1 for a later first time and at most 2^31 for an earlier one |
| `Timeouts.Faithful` | Sources/Lwip/src/core/timeouts.c:72-73 | for times less than 2^32 apart, exactly for differences from -2^31 to 2^31 - 1 |
| `Timeouts.RebaseKeepsGaps` | Sources/Lwip/src/core/timeouts.c:404-420 | rebasing sets the next deadline to now and keeps every gap, hence the order |
| `Timeouts.TimerList.TimeoutAbs` | Sources/Lwip/src/core/timeouts.c:183-221 | with wrapped times the list walk inserts at the place true time demands, when the deadlines lie within 2^31 ms |
| `Timeouts.TimerList.Timeout` | Sources/Lwip/src/core/timeouts.c:290-306 | adds exactly one entry, due at now plus the delay, across wraparound |
| `Timeouts.TimerList.Untimeout` | Sources/Lwip/src/core/timeouts.c:317-341 | removes the first entry with the handler and nothing else, and nothing if there is none |
| `Timeouts.TimerList.RestartTimeouts` | Sources/Lwip/src/core/timeouts.c:404-420 | the in-place rewrite of all times is the rebasing of the true times |
| `Timeouts.TimerList.SleepTime` | Sources/Lwip/src/core/timeouts.c:426-443 | the time until the next deadline, 0 when it has passed, all ones for an empty list |
| `Timeouts.TimerList.Again` | Sources/Lwip/src/core/timeouts.c:242-260 | the re-arming of a cyclic timer in 32-bit time chooses the due time of the true-time rule |
| `Timeouts.TimerList.CheckTimeouts` | Sources/Lwip/src/core/timeouts.c:352-396 | with wrapped times and arbitrary handlers, which may work and start and cancel timers in any order, a call that ends calls exactly the handlers, and leaves exactly the list, of the true-time run |
| `Timeouts.CalledCounts` | Sources/Lwip/src/core/timeouts.c:352-396 | the handlers it calls are those of the timers that fire, each as often |
| `IdList.Rmv` | Sources/Lwip/src/include/lwip/priv/tcp_priv.h:397-412 | the search of the list macro removes the given PCB and keeps the order of the rest |
| `TcpTimer.DoTracks` | Sources/Lwip/src/core/tcp.c:1911 | nothing a callback does, including freeing and reusing addresses, makes a PCB eligible for this tick again |
| `TcpTimer.StampTracks` | Sources/Lwip/src/core/tcp.c:1221-1227 | stamping a PCB makes it processed, once, and takes it out of what the tick can still process |
| `TcpTimer.TickEnds` | Sources/Lwip/src/core/tcp.c:1209-1438 | once the walk has reached the end of the list, every PCB that lasted was processed exactly if it carried another number |
| `TcpTimer.NobodySkipped` | Sources/Lwip/src/core/tcp.c:1206-1227 | between two ticks the 8-bit counter has moved past every stamp on the list |
| `TcpTimer.AllReached` | Sources/Lwip/src/core/tcp.c:1206-1227 | so the next tick processes every PCB that is on the list before it and lasts |
| `TcpTimer.Timers.SlowTimer` | Sources/Lwip/src/core/tcp.c:1196-1438 | ends under any callbacks and takes, one after the other, the first PCB on the list without this tick's number, stamps it and does what its verdict says, until none is left; each at most once, every one that lasts with an older stamp included; whoever was dropped or aborted is gone, and nobody leaves or joins the list without a verdict or callback that says so |
| `TcpTimer.Timers.FastTimer` | Sources/Lwip/src/core/tcp.c:1483-1526 | the same for the fast timer, whose only callbacks are those of PCBs with refused data |
| `TcpTimer.Timers.Tmr` | Sources/Lwip/src/core/tcp.c:233-244 | every call is a fast tick, every other one a slow tick from the state the fast one left; a PCB that is on the list between the two and lasts is processed by the slow one |
| `TcpTimer.TickCarriesOut` | Sources/Lwip/src/core/tcp.c:1383-1434 | every command of every callback in a tick is carried out, and its effect on the lists stands at the end unless another command of the tick concerns the same PCB |
| `TcpTimer.QuietTick` | Sources/Lwip/src/core/tcp.c:1209-1438 | a tick without removals and commands changes nothing but the stamps |
| `TcpTimer.FastExact` | Sources/Lwip/src/core/tcp.c:1483-1526 | in a fast tick without refused data nothing changes, and with refused data every command of its callbacks is carried out |
| `TcpPcbs.CountsActive` | Sources/Lwip/src/core/tcp.c:293-328 | accepts_pending is the number of active PCBs flagged as pending that name the listener, modulo 256, and exactly that number below 256 PCBs |
| `TcpPcbs.DelayedKeeps` | Sources/Lwip/src/core/tcp.c:293-305 | tcp_backlog_delayed keeps the counts right exactly if the PCB is active, already pending or without a listener |
| `TcpPcbs.DelayedInTimeWait` | Sources/Lwip/src/core/tcp.c:293-305 | called for a PCB in TIME_WAIT that still names its listener it puts the counter out of step with the active PCBs |
| `TcpPcbs.DelayedAfterRun` | Sources/Lwip/src/core/tcp.c:293-305 | such a PCB is left by the run listen, SYN, ACK, close, FIN with ACK |
| `TcpPcbs.AcceptUndoesDelay` | Sources/Lwip/src/core/tcp.c:316-328 | tcp_backlog_accepted undoes tcp_backlog_delayed |
| `TcpPcbs.AbandonedIsGone` | Sources/Lwip/src/core/tcp.c:562-624 | from whatever state a PCB is abandoned, the outcome is that of a PCB that never was: off all lists, its address free, its listener's count corrected once |
| `TcpPcbs.TimedOutIsGone` | Sources/Lwip/src/core/tcp.c:1383-1410 | the same outcome for removal by the slow timer |
| `TcpPcbs.ToTimeWaitKeeps` | Sources/Lwip/src/core/tcp_in.c:1022-1064 | entering TIME_WAIT purges first, so no pending count is left behind |
| `TcpPcbs.SynReceivedKeeps` | Sources/Lwip/src/core/tcp_in.c:669-722 | a new connection is counted at its listener and flagged |
| `TcpPcbs.BacklogLimits` | Sources/Lwip/src/core/tcp_in.c:669-674 | a SYN is admitted exactly if fewer connections are pending than the backlog allows |
| `TcpPcbs.SynPending` | Sources/Lwip/src/core/tcp_in.c:676-724 | an admitted connection is in SYN_RCVD with the priority asked for, active, and the one new pending PCB of its listener, whose counter is one more |
| `TcpPcbs.ListenerClosedKeeps` | Sources/Lwip/src/core/tcp.c:250-280 | closing a listener leaves no PCB naming it and no other count wrong |
| `TcpPcbs.RetriedKeeps` | Sources/Lwip/src/core/tcp.c:1504-1508 | the retry, which clears the flag before it tries, never loses a close that is still owed |
| `TcpPcbs.NextKeeps` | Sources/Lwip/src/core/tcp.c:250-624 | every step of application, timers and input keeps both invariants |
| `TcpPcbs.EveryRun` | Sources/Lwip/src/core/tcp.c:250-624 | over every run: counters agree with the pending PCBs, at most one FIN is queued per connection, a FIN that found no memory stays remembered until queued, and the state says exactly whether our FIN was queued and acknowledged and whether the peer's has arrived, as in section 3.3.2 of RFC 9293 |
| `TcpPcbs.LeavesWithFin` | Sources/Lwip/src/core/tcp.c:408-460 | a FIN is queued exactly when the connection leaves SYN_RCVD, ESTABLISHED or CLOSE_WAIT locally, as section 3.6 of RFC 9293 has it |
| `TcpPcbs.FreedExactly` | Sources/Lwip/src/core/tcp.c:347-624 | a step frees a PCB exactly if it is an abort, a timeout of a listed PCB, a close of a connection never opened or with unread bytes, a reset, the last acknowledgement after both sides closed, or the end of a handshake whose listener has gone; a half-close never does |
| `TcpPcbs.RetryIsRemembered` | Sources/Lwip/src/core/tcp.c:449-458 | a close, half-close or retry queues the FIN exactly if there is memory for it; otherwise it leaves the state as it was and the retry flag set |
| `TcpSteps.DelayedCounts` | Sources/Lwip/src/core/tcp.c:293-305 | tcp_backlog_delayed of a connection that is not pending makes it pending on its listener, adds exactly it to the active pending ones if it is active, raises the 8-bit counter by one, and changes nothing else |
| `TcpSteps.AcceptedCounts` | Sources/Lwip/src/core/tcp.c:316-328 | tcp_backlog_accepted of a pending one takes exactly it away again and lowers the counter by one |
| `TcpSteps.NothingToCount` | Sources/Lwip/src/core/tcp.c:293-328 | in all other cases both change nothing |
| `TcpSteps.ListenerGone` | Sources/Lwip/src/core/tcp.c:250-280 | a closed listener is gone, no PCB names it, and nothing else has changed |
| `TcpSteps.Listening` | Sources/Lwip/src/core/tcp.c:849-924 | a new listener has nobody pending and the backlog it was given, at least one |
| `TcpSteps.GoneMeans` | Sources/Lwip/src/core/tcp.c:562-624 | an abandoned PCB is on no list and pending nowhere, its address is free, and all others are as before |
| `TcpSteps.AllocatedBlank` | Sources/Lwip/src/core/tcp.c:1892-1936 | an allocated PCB is closed, has the priority asked for and the present tick, and no flag, listener or history |
| `TcpSteps.ConnectingActive` | Sources/Lwip/src/core/tcp.c:1071-1180 | tcp_connect puts a closed PCB in SYN_SENT in front of the active list |
| `TcpSteps.HandshakeEnds` | Sources/Lwip/src/core/tcp_in.c:876-1000 | the segment that ends the handshake leads to ESTABLISHED, or to CLOSE_WAIT if it carries a FIN, and the connection is no longer pending |
| `TcpSteps.StepCalm` | Sources/Lwip/src/core/tcp.c:250-624 | every step about one PCB leaves all others, on their lists, and all backlogs alone, and keeps its priority and timer; a closed receiving side stays closed |
| `TcpSteps.RxIsClosed` | Sources/Lwip/src/core/tcp.c:483-552 | tcp_close and tcp_shutdown of the receiving side leave it closed, if there still is a PCB |
| `TcpSteps.CountsOnly` | Sources/Lwip/src/core/tcp.c:250-624 | and so every listener's counter moves by exactly what happens to that PCB |
| `TcpSteps.HasWhatWasGiven` | Sources/Lwip/src/core/tcp.c:1648-1655 | over every run a PCB has the priority it was last given, by tcp_alloc or tcp_setprio, and the tick at which it was allocated or last heard of with its receiving side open |
| `TcpStack.Stack.BacklogDelayed` | Sources/Lwip/src/core/tcp.c:293-305 | sets the flag and raises the counter by one, or changes nothing for a PCB that is pending or has no listener; keeps all invariants for an active PCB, and reports exactly when its overflow assertion fails |
| `TcpStack.Stack.BacklogAccepted` | Sources/Lwip/src/core/tcp.c:316-328 | clears the flag and lowers the counter by one, or changes nothing; keeps all invariants, and reports exactly when its underflow assertion fails |
| `TcpStack.CounterNeverTrips` | Sources/Lwip/src/core/tcp.c:293-328 | with fewer than 256 active PCBs neither assertion can fail |
| `TcpStack.Stack.Purge` | Sources/Lwip/src/core/tcp.c:2136-2178 | keeps all invariants and gives up a pending accept unless the PCB is CLOSED or in TIME_WAIT |
| `TcpStack.Stack.Abandon` | Sources/Lwip/src/core/tcp.c:562-624 | keeps all invariants and leaves the state without that PCB |
| `TcpStack.Stack.CloseListener` | Sources/Lwip/src/core/tcp.c:250-280 | the walks over the lists reach every PCB that names the listener; afterwards none does, and no other field has changed |
| `TcpStack.Stack.CloseShutdownFin` | Sources/Lwip/src/core/tcp.c:408-460 | keeps all invariants: queues the FIN and leaves the state, or sets the retry flag |
| `TcpStack.Stack.CloseShutdown` | Sources/Lwip/src/core/tcp.c:347-406 | keeps all invariants: resets and drops a connection with unread data, frees unused ones, and otherwise tries the FIN |
| `TcpStack.Stack.Close` | Sources/Lwip/src/core/tcp.c:483-499 | tcp_close takes the modelled step and keeps all invariants |
| `TcpStack.Stack.Shutdown` | Sources/Lwip/src/core/tcp.c:514-552 | tcp_shutdown with its error code, for every combination of directions and state |
| `TcpStack.Stack.HandleClosepend` | Sources/Lwip/src/core/tcp.c:1814-1829 | one retry for every PCB of the active list |
| `TcpStack.EachRetried` | Sources/Lwip/src/core/tcp.c:1814-1829 | every PCB of the list comes out as if it alone had been retried, all others unchanged |
| `TcpStack.Stack.FindOldest` | Sources/Lwip/src/core/tcp.c:1755-1807 | the scan finds the PCB of the state that has been idle for longest, the last of equals, or none exactly if there is none |
| `TcpStack.Stack.FindLowest` | Sources/Lwip/src/core/tcp.c:1709-1742 | the scan with a moving priority bound finds the lowest priority below the new one and within it the longest idle PCB |
| `TcpStack.VictimUnique` | Sources/Lwip/src/core/tcp.c:1838-1891 | the order of the classes and the choice within them determine one victim |
| `TcpStack.Stack.Alloc` | Sources/Lwip/src/core/tcp.c:1837-1936 | evicts nothing while a PCB is free; otherwise at most one connection, from TIME_WAIT, LAST_ACK, CLOSING or lower priority in that order, and fails exactly if there is no victim; the new PCB has the priority asked for and is otherwise blank |
| `TcpStack.EvictedIsLower` | Sources/Lwip/src/core/tcp.c:1709-1742 | over every run a living connection that is evicted was last given a lower priority than the one asked for, no active connection was given a lower one than it, and none of the same priority has been silent for longer |
| `TcpStack.RetriedRun` | Sources/Lwip/src/core/tcp.c:1814-1829 | the state in which tcp_alloc looks for a victim, after its retries, is that of a run as well |
| `TcpWindow.RunSound` | Sources/Lwip/src/core/tcp.c:934-1003 | over every run the announced right edge never moves left, never passes the true edge, and the window never exceeds its maximum |
| `TcpWindow.AnnouncedIsReceivable` | Sources/Lwip/src/core/tcp.c:934-1003 | what was once announced can still be received later |
| `TcpWindow.RunNotSilly` | Sources/Lwip/src/core/tcp.c:934-966 | the announced edge stands still or has moved by at least the silly-window step, as section 3.8.6.2.2 of RFC 9293 asks, unless the peer has overrun it and the window is zero |
| `TcpWindow.SmallMoveIffOverrun` | Sources/Lwip/src/core/tcp.c:934-966 | the edge moves by less than the step exactly in that case |
| `TcpWindow.InflationExact` | Sources/Lwip/src/core/tcp.c:934-966 | the reported increase is zero or at least min(TCP_WND/2, mss), and the edge announced next is the old one moved by exactly that, or the next expected byte if the peer is beyond it |
| `TcpWindow.WindowIsRoom` | Sources/Lwip/src/core/tcp.c:972-1003 | over every run the window is its maximum less what was received and not yet given back, and the next expected byte follows all that was received |
| `TcpWindow.RoomIsAnnounced` | Sources/Lwip/src/core/tcp.c:934-966 | after every reception and every tcp_recved, room of at least the step beyond the announced edge is announced in full, and with less the edge stays or follows the peer that has overrun it |
| `TcpWindow.SendAnnounces` | Sources/Lwip/src/core/tcp_out.c:1483-1495 | over every run a segment moves the announced edge to exactly what the last update chose, and nothing else |
| `TcpWindow.Reopens` | Sources/Lwip/src/core/tcp.c:972-1003 | when all that was received has been given back, the window is at its maximum, the update reports the whole increase and the next segment announces it, if it is worth the step |
| `TcpWindow.WireShrinksIffScaled` | Sources/Lwip/src/core/tcp_out.c:1492 | over all runs and all pairs of segments sent in them, the edge the peer computes from the 16-bit scaled field never moves left exactly if windows are not scaled (or a unit exceeds the largest window) |
| `TcpWindow.ShrinkExample` | Sources/Lwip/src/core/tcp_out.c:1864-1869 | with scaling, a run of three segments in which the last one shows a smaller edge than the one before |
| `TcpWindow.SeqLtFaithful` | Sources/Lwip/src/include/lwip/priv/tcp_priv.h:109-112 | the 32-bit sequence comparison agrees with true positions less than 2^31 apart |
| `TcpWindow.UpdateWraps` | Sources/Lwip/src/core/tcp.c:934-966 | the update computed in wrapped 32-bit arithmetic is the update on true positions |
| `TcpWindow.RcvPcb.UpdateRcvAnnWnd` | Sources/Lwip/src/core/tcp.c:934-966 | the in-place update takes the modelled step and keeps the invariant |
| `TcpWindow.RcvPcb.Recved` | Sources/Lwip/src/core/tcp.c:972-1003 | the window grows by the length, capped at its maximum although the sum may wrap; room worth announcing is announced, and an ACK is sent at once exactly when the increase reaches the threshold |
| `TcpWindow.RcvPcb.Receive` | Sources/Lwip/src/core/tcp_in.c:1567-1573 | a segment cut down to the window moves the next expected byte and the window in 32 bits as the modelled step does on true positions, and keeps the invariant |
| `TcpWindow.RcvPcb.Announce` | Sources/Lwip/src/core/tcp_out.c:1483-1495 | the edge stored in 32 bits is the true announced edge |
| `TcpWindow.RcvPcb.DeliverFin` | Sources/Lwip/src/core/tcp_in.c:551-556 | the window grows by the FIN's sequence number but not beyond its maximum |
| `TcpWindow.AnnouncingHolds` | Sources/Lwip/src/core/tcp.c:934-1003 | the distance below 2^31 that the 32-bit comparison of edges needs is kept in every run in which less than 2^31 bytes, less one window, come in without any segment going out |
| `PbufRefs.RelinkKeeps` | Sources/Lwip/src/core/pbuf.c:857-880 | turning a handle into a link, or a link into a handle, keeps every count equal to handles plus incoming links |
| `PbufRefs.ReleaseKeeps` | Sources/Lwip/src/core/pbuf.c:729-804 | pbuf_free keeps every count exact and leaves no link dangling, on any pointer graph |
| `PbufRefs.ReleasedExactly` | Sources/Lwip/src/core/pbuf.c:729-804 | a pbuf survives exactly if a remaining handle or a surviving pbuf names it |
| `PbufRefs.ReleaseFrame` | Sources/Lwip/src/core/pbuf.c:729-804 | survivors keep link, bytes and totals |
| `PbufRelease.ReleaseCount` | Sources/Lwip/src/core/pbuf.c:729-804 | pbuf_free of a chain releases as many pbufs as its leading run of pbufs with one reference is long |
| `PbufRelease.ReleasedExact` | Sources/Lwip/src/core/pbuf.c:729-804 | exactly that run is gone, the pbuf behind it has one reference less, and nothing else has changed |
| `PbufRelease.AcyclicJoined` | Sources/Lwip/src/core/pbuf.c:857-880 | a link from outside a chain to its head closes no cycle |
| `PbufRelease.NothingLeaks` | Sources/Lwip/src/include/lwip/pbuf.h:213-218 | without cycles every pbuf there is can be reached from one held outside; every operation of PbufOps keeps stores acyclic |
| `PbufChain.JoinTotals` | Sources/Lwip/src/core/pbuf.c:857-880 | after pbuf_cat all totals of the joined chain are right modulo 65536 and its bytes are those of the two parts |
| `PbufChain.CutTotals` | Sources/Lwip/src/core/pbuf.c:1153-1187 | subtracting the total of the rest makes the totals of the front right, and leaves the rest right |
| `PbufOps.Pbufs.Alloc` | Sources/Lwip/src/core/pbuf.c:272-297 | a new pbuf with one counted handle, its bytes and its total, or no change when there is no memory |
| `PbufOps.Pbufs.Free` | Sources/Lwip/src/core/pbuf.c:729-804 | releases exactly what nobody names any more and returns the number released in 8 bits |
| `PbufOps.Pbufs.Ref` | Sources/Lwip/src/core/pbuf.c:833-841 | one more handle, counted |
| `PbufOps.Pbufs.Cat` | Sources/Lwip/src/core/pbuf.c:857-880 | the chains are joined, bytes and totals as above, the caller's handle on the tail is used up, and other pbufs are unchanged |
| `PbufOps.Pbufs.ChainOn` | Sources/Lwip/src/core/pbuf.c:900-907 | the same with the handle on the tail kept and counted |
| `PbufOps.Pbufs.Dechain` | Sources/Lwip/src/core/pbuf.c:917-945 | the head stands alone, the leading unshared pbufs of the tail are gone and all others unchanged; the tail is returned by the 8-bit count, and the pointer is stale exactly if the tail starts with a positive multiple of 256 unshared pbufs |
| `PbufOps.SoleRun` | Sources/Lwip/src/core/pbuf.c:917-945 | in a chain held at its head only, the whole tail is unshared |
| `PbufOps.DanglingTail` | Sources/Lwip/src/core/pbuf.c:917-945 | n pbufs allocated and joined from the empty store, then dechained: the pointer is stale exactly if n - 1 is a multiple of 256 |
| `PbufOps.Pbufs.Realloc` | Sources/Lwip/src/core/pbuf.c:404-464 | below the 16-bit total the chain is cut to exactly its first bytes with right totals, otherwise nothing changes; of the rest the leading unshared pbufs are released, and all other pbufs are unchanged |
| `PbufOps.Pbufs.FreeHeader` | Sources/Lwip/src/core/pbuf.c:676-693 | the bytes from the offset on remain, the handle moves to the new head, used-up pbufs are released unless named, and all other pbufs are unchanged |
| `PbufOps.Pbufs.Split64k` | Sources/Lwip/src/core/pbuf.c:1153-1187 | the longest front below 65536 bytes is split off with exact totals, the rest keeps its bytes and totals, inherits the FIN flag and is held by a handle |
| `PbufOps.Pbufs.TakeAt` | Sources/Lwip/src/core/pbuf.c:1280-1302 | succeeds exactly if the slice starts inside and ends within what the 16-bit total of the pbuf with its first byte tells, which below 65536 bytes means that it fits; success overwrites exactly the slice so that reading it returns the data, failure changes nothing |
| `PbufBytes.SkipConst` | Sources/Lwip/src/core/pbuf.c:1191-1206 | finds the pbuf and offset of a byte, or none exactly if it lies beyond the chain |
| `PbufBytes.CopyPartial` | Sources/Lwip/src/core/pbuf.c:1061-1091 | copies exactly the slice of the flat bytes clipped to the chain and leaves the rest of the buffer alone |
| `PbufBytes.Take` | Sources/Lwip/src/core/pbuf.c:1236-1267 | replaces the first bytes of the chain, or nothing when the 16-bit total is too small |
| `PbufBytes.TakeAt` | Sources/Lwip/src/core/pbuf.c:1280-1302 | under exactly that condition the first part and the call of pbuf_take together overwrite the slice; the inner call cannot fail, even with wrapped totals |
| `PbufBytes.ReachesFits` | Sources/Lwip/src/core/pbuf.c:1280-1302 | the condition implies that the slice lies in the chain, and in a chain below 65536 bytes it is equivalent to it |
| `PbufBytes.LongRefused` | Sources/Lwip/src/core/pbuf.c:1280-1302 | a chain of 65536 bytes with right totals of which not even the first byte can be written |
| `PbufBytes.ReadBack` | Sources/Lwip/src/core/pbuf.c:1280-1302 | a slice that was overwritten reads back as written, others as before |
| `TcpFlow.ChunksWhole` | Sources/Lwip/src/core/pbuf.c:1153-1187 | the chunks in which a chain is offered make up its bytes, and each is below 65536 if the pbufs are |
| `TcpFlow.OfferingExact` | Sources/Lwip/src/core/tcp_in.c:494-543 | for all answers: the chunks up to the first that is not accepted are offered, each with its exact length; the result is that of the last answer; what was accepted is taken; and exactly the chunks from a refused one on are held |
| `TcpFlow.OfferingConserves` | Sources/Lwip/src/core/tcp_in.c:494-543 | what was taken, followed by what is held, is what there was; after an abort a front of it |
| `TcpFlow.RoundStep` | Sources/Lwip/src/core/tcp.c:1543-1604 | the rounds of redelivery, one after the other until one is not accepted, make up the redelivery of all that is held, with the end of the stream after the last |
| `TcpFlow.AfterSound` | Sources/Lwip/src/core/tcp_in.c:437-562 | one segment or timer tick keeps the balance of taken, held and arrived bytes and of announced and waiting FINs, and exactly the data and FIN of a processed segment have arrived |
| `TcpFlow.KeptExactly` | Sources/Lwip/src/core/tcp_in.c:438-452 | a segment is dropped, unless the connection is aborted, exactly if it has data or a FIN and the application does not accept all that was held |
| `TcpFlow.AbortedExactly` | Sources/Lwip/src/core/tcp_in.c:437-562 | the connection is aborted exactly if the application aborts it, when it is offered data or told the end, or if new data comes after the receiving side was closed |
| `TcpFlow.RunDelivers` | Sources/Lwip/src/core/tcp_in.c:437-562 | over every run from a new connection, at every moment: what was taken followed by what is held is the data of all processed segments in order, and their FINs are waiting or announced; after an abort, what was taken is a front of it |
| `TcpFlow.RunWindow` | Sources/Lwip/src/core/tcp_in.c:546-562 | over every run the window grows by one for every announced end, up to its maximum, and by nothing else; of an aborted connection nothing is held |
| `TcpFlow.FinPlace` | Sources/Lwip/src/core/tcp_in.c:546-562 | whichever event of a run brought the last FIN: it is announced when exactly the bytes up to there had been taken, and until then it waits and nothing comes after it |
| `TcpFlow.DroppedOnlyRefused` | Sources/Lwip/src/core/tcp_in.c:438-452 | in every run a segment is dropped from a living connection only if data was refused before it and still is |
| `TcpFlow.RunUnharmed` | Sources/Lwip/src/core/tcp_in.c:437-562 | a run in which the application aborts nothing and no data comes after it has closed the receiving side is never aborted |
| `TcpRefused.Connection.Deliver` | Sources/Lwip/src/core/tcp_in.c:494-543 | on real chains and for all answers, new data is split, offered, joined again and held as `TcpFlow` has it, with the same result, offers and held pieces, exact 16-bit totals and exact reference counts; after the receiving side was closed the data is given up and the connection aborted |
| `TcpRefused.Connection.Show` | Sources/Lwip/src/core/tcp_in.c:496-541 | one chunk, the longest front below 65536 bytes, is split off and offered; an accepted or aborted one is left to it, a refused one is put back with bytes, totals and FIN flag as before |
| `TcpRefused.Connection.GotFin` | Sources/Lwip/src/core/tcp_in.c:546-562 | a FIN behind held data waits with it, otherwise it is announced at once, after the window correction |
| `TcpRefused.Connection.Redeliver` | Sources/Lwip/src/core/tcp.c:1546-1602 | one round offers the first chunk of the held data: accepted it makes room for the next round, or for the announcement of a waiting FIN; refused it is held again; aborted everything held is freed |
| `TcpRefused.Connection.ProcessRefused` | Sources/Lwip/src/core/tcp.c:1543-1604 | the loop offers again exactly as `TcpFlow` has it, for all answers, with the same result, offers, held pieces and announcements |
| `TcpInput.Assemble` | Sources/Lwip/src/core/tcp_in.c:1584-1622 | the in-order segment and the queued ones that follow it become one chain of the pieces with data, in order, whose head alone is held |
| `TcpInput.Input` | Sources/Lwip/src/core/tcp_in.c:437-562 | for every segment or tick and all answers, the connection afterwards, whether it was aborted and whether the segment was processed are those of `TcpFlow` |
| `TcpInput.Run` | Sources/Lwip/src/core/tcp_in.c:437-562 | a run over real chains goes through exactly the states of `TcpFlow` and keeps exactly its segments, so that `RunDelivers`, `FinPlace` and the rest hold of it |
| `Select.WaiterStep` | Sources/Lwip/src/api/sockets.c:2076-2170 | a waiter's own steps never leave it asleep with something ready that nobody will report |
| `Select.ScannedKeeps` | Sources/Lwip/src/api/sockets.c:1875-1939 | the second scan either sees what is ready or finds the socket idle at that moment |
| `Select.HappenedCovers` | Sources/Lwip/src/api/sockets.c:2524-2595 | an event that makes a watched socket ready starts a walk that will reach every waiter that has already looked, although repeated events are not announced |
| `Select.RestartsCover` | Sources/Lwip/src/api/sockets.c:1810-1856 | a change of the list makes walks begin again, so none of them passes a waiter by |
| `Select.SteppedCovers` | Sources/Lwip/src/api/sockets.c:2623-2695 | one section of the walk signals the waiter or still has it ahead |
| `Select.CountedKeeps` | Sources/Lwip/src/api/sockets.c:2079-2110 | select_waiting counts exactly the waiters of the socket, with at most 255 |
| `Select.CanUncount` | Sources/Lwip/src/api/sockets.c:2140-2163 | the count is positive whenever a waiter is about to decrease it |
| `Select.RunKeeps` | Sources/Lwip/src/api/sockets.c:2003-2213 | the invariant holds after every interleaving of protected sections |
| `Select.NoLostWakeup` | Sources/Lwip/src/api/sockets.c:2076-2138 | once no event is being handled, nobody sleeps unsignalled while something it watches is ready |
| `Select.NoIdleWakeup` | Sources/Lwip/src/api/sockets.c:2623-2695 | in every interleaving, whoever has been signalled watches something that was ready right after some event |
| `Select.ReadyMeans` | Sources/Lwip/src/api/sockets.c:2560-2592 | over every run a socket is readable exactly if more has arrived than was taken, writable exactly if the last event about that said so, and in error exactly if there was an error |
| `Select.OnlyFirstAnnounced` | Sources/Lwip/src/api/sockets.c:2563-2612 | an event starts a walk only if somebody is counted at the socket and, errors apart, what it is about was not ready before |
| `Select.CanSleep` | Sources/Lwip/src/api/sockets.c:2076-2138 | a thread that enters lwip_select while nothing it watches is ready can come to sleep by its own steps, unless a socket has 255 waiters |
| `Select.CanLeave` | Sources/Lwip/src/api/sockets.c:2138-2170 | whoever has been signalled or timed out can leave by its own steps, and the others are as before |
| `Select.WalkEnds` | Sources/Lwip/src/api/sockets.c:2623-2695 | a walk that is not disturbed ends after one section per waiter left and has signalled every matching one |
| `Select.CountsReturn` | Sources/Lwip/src/api/sockets.c:2140-2163 | when everybody has left, every select_waiting is zero again |

## Left out

- HeapRam.Heap.Free: a pointer that is neither live nor rejected by the tests of `mem_free` (a forged header inside user data) is outside its contract.
- HeapRam: `mem_sanity`, `mem_calloc`, overflow guard bytes, statistics, the locking variants and the pool-backed and libc-backed variants of `mem.c`.
- PbufOps.Pbufs.Realloc: the call of `mem_trim` that gives memory of the last pbuf back to the heap is not connected to the heap model.
- PbufOps: allocation of chains from the pbuf pool, custom pbufs, header growth, `pbuf_copy_partial_pbuf`, coalescing and payloads shared between pbufs; `pbuf_realloc` frees the tail before it clears the link to it, the model in the opposite order, and nothing reads the link in between.
- PbufOps.Pbufs.Dechain: its assertion on unwrapped totals is not modelled, only the 16-bit values it writes.
- Checksum: IPv6 pseudo-headers, checksum-on-copy and big-endian hosts.
- Timeouts: exhaustion of the timer pool, which the code treats as a failed assertion, and handlers that call `sys_check_timeouts` or `sys_restart_timeouts` themselves.
- Timeouts.TimerList.CheckTimeouts: for a call that ends (`TimerQueue.EndsExactly` says when) and whose deadlines, running time included, lie within 2^31 ms of each other.
- TcpTimer: what makes the slow timer drop or poll a PCB (retransmission, persist, keepalive and state timeouts) is an arbitrary choice; the walk over TIME_WAIT PCBs, which has no callbacks; destroy callbacks of extended arguments, which run before the change flag is cleared. Both timers share one walk in the model, and the two loops differ only in their verdicts.
- TcpPcbs: the list of bound PCBs (no PCB on it names a listener), ports and addresses, and the deferred freeing of the PCB that is being input, which the model frees at once.
- TcpStack.Stack.Alloc: error callbacks during eviction are taken not to call back into the stack.
- TcpStack: congestion control, retransmission queues and segment contents; only whether a FIN found memory enters.
- TcpWindow: out-of-order data, the sender's side, and the window field of SYN segments, which is not scaled.
- TcpRefused: the build without window scaling, which offers the whole chain once; callbacks that close the receiving side while data is offered; the zero-window probe's acknowledgement; of an aborted connection only that its refused data is freed.
- TcpInput: how `tcp_receive` finds the bytes that have become deliverable; they are an input, as pieces of less than 64 KB.
- Select: core locking, `lwip_poll`, what `lwip_select` returns, sockets that are closed or reused meanwhile, the `prev` and `next` pointers of the list and wraparound of its generation counter; left-over data from an earlier read counts for the scan but raises no event.
- MempPool: element contents, overflow guard bytes and statistics.
- DNS, netif, raw and UDP handling, bridge, altcp, netconn message passing, and the Objective-C and Swift layers: table code, dispatch or declarations whose properties are easier.
