# Models of the xnet2lua core

Dafny models of the data structures and protocols in the C core of xnet2lua, and proofs about them.
Each module follows one source file, or one half of it. State that the source changes in place is a
class with the same fields; threads that interleave are a step system; what an operation does to that
state is said by functions on values, and the theorems are about those functions and about whole runs.

What the environment decides is an input: the clock, the results of `send`, `recv` and `poll`, the
addresses `malloc` and `realloc` return, and what callbacks do. The theorems hold for all of them.

- `Common`: what the other modules share.
- `TimerSpec`, `TimerList`, `TimerWheel`: the intrusive lists and the hierarchical wheel of xtimer.c
  against a queue of due times.
- `MpscQueue`, `MpscProgress`: the lock-free push and swap-and-reverse queue (xmpsc_queue.h), what it keeps
  and that it gets somewhere.
- `Tasks`, `TaskQueue`, `TaskMpsc`, `TaskProgress`, `TaskMpscProgress`: posting tasks between threads, the wakeup flag and the slab
  (xthread.c), in the default and in the lock-free build.
- `SharedSpec`, `SharedRecency`, `SharedShard`, `SharedDict`: the sharded dictionary (xshared.c) against
  a recency-ordered list.
- `ChannelFraming`, `ChannelBuffer`, `ChannelInput`, `ChannelOutput`, `ChannelEvents`: packet framing, the
  byte buffer, the read side and the write side of a channel (xchannel.c), and what each event does to the
  write side.
- `PollRegistry`: the registration table and dispatch loop of the poll backend (xpoll.c).
- `HashActive`, `HashTable`, `HashSize`: the hash table (xhash.h).
- `RecordLayout`, `RecordBytes`, `RecordStore`, `RecordPool`: the record pool (xrecord.c), down to the
  bytes of each field.
- `FrameAead`: sequence numbers of the frame encryption (xframe_aead.c) over an ideal AEAD.
- `ArgQuote`: quoting of a Windows command line (xproc.c).
- `IndexedHeap`: the indexed min-heap (xheapmin.h).

Verify everything with `dafny verify dfyconfig.toml`.

Where the code keeps a promise only under a condition, the condition is proved to be exact:

- A line in CRLF framing must be strictly shorter than `max_packet`, although the check in the parser
  reads as if equal length were allowed: a read may end between its CR and its LF
  (`ChannelFraming.CrlfLimitIsStrict`).
- A channel never stalls on legal input exactly if `in.max` is 0 or at least the longest partial packet,
  for LEN32 `max_packet + 3` (`ChannelInput.LimitIsExact`).
- A string in a record comes back exactly if it is shorter than 2^32 bytes; a longer one is cut
  (`RecordStore.TextIsExact`).
- `xhash_next_pow2` rounds up exactly for sizes up to 2^63 and returns 0 above
  (`HashSize.NextPow2Exact`).
- The program name of a command line is read back exactly if it contains no quote and, where it has to
  be quoted, does not end in a backslash (`ArgQuote.CommandLineIsExact`).
- A repeating timer with interval 0 behaves like one with interval 256, because it goes back into the
  slot that has just been detached (`TimerSpec.Period`, `TimerWheel.BatchDetach`).
- A sweep without a scan budget passes every bucket of the dictionary exactly if its cursor stands at the
  first bucket of a shard; else the buckets of that shard before the cursor are left for the next one,
  although the comment in the source calls it one full pass (`SharedDict.Dict.SweepExpired`).

## Model

| member | source | states |
|---|---|---|
| TimerSpec.CatchUpIsExact | xtimer.c:437-543 | Over any session of polls and requests: when nothing is due before T any more, a timer nobody destroys has fired exactly once for each of its due ticks before T, up to its repeat count, each time at its due tick with the clock past it. |
| TimerSpec.AskedIsServed | xtimer.c:377-543 | Read from the request: a timer asked for with (interval, repeat) at clock t runs its callbacks at t + interval, t + 2 * interval and so on, repeat of them (2^31 - 1 for -1, one for anything below 1), all that are due and no other; with interval 0 first at t and then every 256 ticks. |
| TimerSpec.TraceOrdered | xtimer.c:453-515 | Over a whole session the ticks at which callbacks run never decrease, and each is before the clock. |
| TimerSpec.TraceTracks | xtimer.c:519-540 | At any point of a session the due time, interval and remaining count of a timer are its first ones moved on by the number of its firings, and firing number c was c periods after the first. |
| TimerSpec.TraceAppend | xtimer.c:437-543 | A poll or a run of requests makes the session so far longer. |
| TimerList.AddInv | xtimer.c:94-99 | Linking a node behind a sentinel puts it in front of that list and leaves every other list, in both directions. |
| TimerList.RemoveInv | xtimer.c:101-105 | Unlinking a node takes it out of its list, wherever it is in it, and leaves every other list. |
| TimerList.SpliceInv | xtimer.c:182-192 | Handing a list to a temporary sentinel moves it whole and leaves every other list. |
| TimerList.Lists.InitList | xtimer.c:89-92 | One more, empty list. |
| TimerList.Lists.AddHead | xtimer.c:94-99 | The four link writes put the node in front. |
| TimerList.Lists.Remove | xtimer.c:101-105 | The link writes take the node out of its list, without being told which it is. |
| TimerList.Lists.IsEmpty | xtimer.c:107-109 | Whether the list has no nodes. |
| TimerList.Lists.Splice | xtimer.c:182-192 | The link writes move the whole list to the other sentinel. |
| TimerList.Lists.Drain | xtimer.c:194-202 | The walk that relinks the node under it visits every node of the list once, in order, and puts each in front of the list it belongs to. |
| TimerWheel.CalcSlotHome | xtimer.c:124-155 | The computed level and slot put a timer where the wheel reaches it after the cascades already done and no later than its due tick, clamped very long timers included. |
| TimerWheel.CalcSlotCoarse | xtimer.c:134-155 | A timer not yet due that goes to a coarser level lands in a slot that is cascaded again, after the cascades already done in this tick and no later than its due tick. |
| TimerWheel.InsertInv | xtimer.c:158-171 | Linking a node into the slot it belongs to keeps slots, owners, placement and the active count. |
| TimerWheel.CascadeMove | xtimer.c:174-203 | Moving one node of a detached slot down keeps the placement invariant, so segmentation never makes a timer late. |
| TimerWheel.TickInv | xtimer.c:453-480 | Advancing the clock by one tick, once that tick's slot has been served, keeps every remaining timer reachable in time. |
| TimerWheel.NothingEarlier | xtimer.c:437-543 | No pending timer is due before the tick being served. |
| TimerWheel.BatchDetach | xtimer.c:484-500 | The level-0 slot detached at a tick holds only timers due at that very tick (a repeat of interval 0 counting as 256 ticks). |
| TimerWheel.CreateRefines | xtimer.c:377-412 | Creating a timer adds exactly that timer to the abstract queue, due interval ticks from the clock. |
| TimerWheel.DestroyPendingRefines | xtimer.c:415-433 | Destroying a pending timer, or one locked in the current batch, takes exactly that timer out of the abstract queue. |
| TimerWheel.FireRefines | xtimer.c:503-532 | Running the next callback of a batch is a legal step of the abstract queue: the timer is due at this very tick, before the clock, and none pending is due earlier. |
| TimerWheel.TimerSet.constructor | xtimer.c:305-341 | A new pool is empty, with 10000 free nodes, and keeps at most twice its capacity of them, but no fewer than 10000; the wheel invariant holds. |
| TimerWheel.TimerSet.NewNode | xtimer.c:220-232 | A node comes from the freelist or from fresh memory and is never one that is in use. |
| TimerWheel.TimerSet.Create | xtimer.c:377-412 | From outside and from inside a callback: a new timer is due interval ticks from the clock (at the clock for a negative interval) with the callbacks asked for; it is refused, and nothing changes, exactly if interval exceeds what is left of the clock's range. |
| TimerWheel.TimerSet.Destroy | xtimer.c:415-433 | Refines removal from the abstract queue, for a pending timer, for one detached in the current batch and for the one whose callback runs. |
| TimerWheel.TimerSet.Insert | xtimer.c:158-171 | The node is linked at the head of its slot and everything else stays. |
| TimerWheel.TimerSet.Release | xtimer.c:235-262 | The node goes to the freelist or is freed, and is no longer in use. |
| TimerWheel.TimerSet.Cascade | xtimer.c:174-203 | Emptying a slot into lower levels keeps the invariant and the abstract queue. |
| TimerWheel.TimerSet.FireOne | xtimer.c:503-540 | One turn of the firing loop is a run of the abstract queue, whatever its callback creates or destroys; the branch that would re-insert a segmented timer half-way is unreachable. |
| TimerWheel.TimerSet.ServeBatch | xtimer.c:484-540 | A detached batch is served completely, as a run of the abstract queue. |
| TimerWheel.TimerSet.Poll | xtimer.c:437-543 | A poll that reads time T performs a run of the abstract queue after which no timer is due before T, its callbacks' requests answered as asked; a clock that went back only resets the tick. |
| TimerWheel.TimerSet.Client | xtimer.c:377-433 | Any sequence of creations and destructions between two polls is a run of the abstract queue, each request answered as asked. |
| TimerWheel.TimerSet.Session | xtimer.c:377-543 | Any number of polls with a clock that does not go back, with creations and destructions between them and in their callbacks, are one session of the abstract queue, with nothing left due before the clock. |
| MpscQueue.Fifo | xmpsc_queue.h:101-172 | For any interleaving of any number of producers with one consumer the popped nodes are a prefix of the nodes in compare-and-swap order, and to the consumer the queue reads empty exactly when they are all of them. |
| MpscQueue.PopsOldest | xmpsc_queue.h:139-158 | The node a pop is about to return is the oldest pushed one not yet returned. |
| MpscQueue.StepInv | xmpsc_queue.h:101-158 | Every atomic step keeps: cache, list being reversed and shared stack together are the pushed nodes not yet popped, in order, properly linked; and on the shared and the taken-over list it is exactly a push at the end, a hand-over, a pop at the front, or nothing. |
| MpscQueue.CasOkInv | xmpsc_queue.h:101-114 | A compare-and-swap that succeeds is right even if the node it compared was popped and pushed again since it was loaded. |
| MpscQueue.ReverseOneInv | xmpsc_queue.h:119-131 | One step of the in-place reversal moves one node from the stack order to the queue order. |
| MpscQueue.ExecutionInv | xmpsc_queue.h:86-158 | The invariant holds in every reachable state. |
| MpscProgress.PushCompletes | xmpsc_queue.h:101-114 | From any reachable state a producer left alone completes its push in at most five accesses; its node is then the head and links to the old one. |
| MpscProgress.PushBegins | xmpsc_queue.h:101-114 | An idle producer left alone pushes any node that is in no hand and not in the queue. |
| MpscProgress.AllPopped | xmpsc_queue.h:119-158 | From any reachable state a consumer left alone pops everything pushed, and then finds the queue empty. |
| MpscProgress.NothingIsStuck | xmpsc_queue.h:101-158 | After any interleaving everything pushed can be popped, in the order of the pushes. |
| TaskQueue.NoLostWakeup | xthread.c:398-409 | Default build: whenever the consumer is parked and no poster is half-way, a non-empty queue has an unread wakeup byte, even after writes refused because the pipe was full. |
| TaskQueue.EachTaskOnce | xthread.c:598-646 | Every accepted task finishes at most once and in order; it is run exactly if it has a function and its deadline had not passed when its turn came, else dropped; none is left when queue and batch are empty. |
| TaskQueue.SoftLimit | xthread.c:354-361 | With P posters of ordinary tasks and a limit set, queued ordinary tasks never exceed the limit plus P - 1. |
| TaskQueue.SlabComesBack | xthread.c:310-323 | When nothing is in flight the freelist holds every slab node once. |
| TaskQueue.NodesKept | xthread.c:310-410 | Every step keeps each slab node in exactly one of freelist, queue, a poster's hand, the consumer's batch. |
| TaskQueue.WakeKept | xthread.c:654-692 | Every step keeps: a non-empty queue is announced by the pending flag and a byte sent, about to be sent, or read and not yet acted on. |
| TaskQueue.TicketsKept | xthread.c:340-410 | Every step keeps finished, batch and queue together the accepted tasks in order. |
| TaskQueue.LoadKept | xthread.c:354-410 | Every step keeps queued ordinary tasks plus the admissions not yet enqueued within the bound. |
| TaskQueue.StepInv | xthread.c:340-692 | Every step of posters and consumer keeps the whole invariant. |
| TaskMpsc.NoLostWakeup | xthread.c:470-478 | The same for the lock-free build: no reachable state has a parked consumer, idle posters, a non-empty queue and an empty pipe. |
| TaskMpsc.EachTaskOnce | xthread.c:572-596 | Every pushed task finishes at most once and in push order, run or dropped as its function and deadline say, and the pending counter is exact whenever no poster stands between counting and pushing. |
| TaskMpsc.SoftLimit | xthread.c:443-478 | With P posters of ordinary tasks and a limit set, ordinary tasks pushed and not finished never exceed the limit plus P - 1. |
| TaskMpsc.StepInv | xthread.c:429-596 | Every step of the lock-free build keeps the invariant. |
| TaskProgress.PostIsDecided | xthread.c:354-361 | A post is refused exactly if it is an ordinary one and the queue is at its limit, and then nothing changes. |
| TaskProgress.PostGoesIn | xthread.c:340-410 | A post not refused puts its task, as posted, at the end of the queue, and leaves a byte in the pipe if no wakeup was pending. |
| TaskProgress.AllFinished | xthread.c:598-692 | Without posts under way the consumer, woken by the pipe alone, finishes every accepted task and sleeps again; its timeout is not needed. |
| TaskProgress.NothingIsStuck | xthread.c:340-692 | The same after any interleaving of posters and consumer. |
| TaskMpscProgress.PostIsDecided | xthread.c:443-456 | In the lock-free build a post is refused exactly if it is an ordinary one and the pending counter is at the limit. |
| TaskMpscProgress.PostGoesIn | xthread.c:429-478 | A post not refused is counted and pushed as posted, and leaves a byte in the pipe if the flag was clear. |
| TaskMpscProgress.AllFinished | xthread.c:572-692 | Without posts under way the consumer, woken by the pipe alone, finishes every pushed task and sleeps again, with the counter at 0. |
| TaskMpscProgress.NothingIsStuck | xthread.c:429-692 | The same after any interleaving of posters and consumer. |
| Tasks.PlainCountIs | xthread.c:354-361 | What the soft limit counts: the ordinary tasks among those queued. |
| SharedSpec.SetMeaning | xshared.c:261-301 | set/add/replace: the status follows from size, mode and whether a live entry is there; afterwards the new entry is in front, nothing but its key is new or changed, keys stay unique and the total within budget; a failed call changes nothing that can be seen. |
| SharedSpec.FitIsTight | xshared.c:210-215 | The evicted tail is the shortest that makes room: one entry more would not fit. |
| SharedSpec.GetMeaning | xshared.c:318-346 | A read returns the live value or nothing, moves the entry to the front and loses no live entry. |
| SharedSpec.DeleteMeaning | xshared.c:359-371 | A delete takes out exactly that key. |
| SharedSpec.ExpireMeaning | xshared.c:419-432 | Changing a deadline touches only that entry's deadline. |
| SharedSpec.IncrFoundMeaning | xshared.c:375-396 | Increment of a live number x leaves x + delta under that key, with its deadline, in front, and nothing else changed; any other type is refused unchanged. |
| SharedSpec.IncrCreatesMeaning | xshared.c:397-415 | Increment of an absent key creates it with initial value plus delta, within budget. |
| SharedSpec.IncrSum | xshared.c:375-415 | An increment hands back the live number plus delta, or the initial value plus delta; it fails exactly on a live value that is no number, or for lack of budget. |
| SharedSpec.TotalCounts | xshared.c:51-54 | The budget limits the bytes of keys and of strings, and 64 for each entry. |
| SharedSpec.LookupLive | xshared.c:218-232 | Reaping the looked-up key when it has expired changes no live entry. |
| SharedSpec.PutLegal | xshared.c:261-301 | Making room and pushing in front keeps keys unique and the total within budget. |
| SharedRecency.SetOrder | xshared.c:261-301 | set, add and replace put the entry in front and keep the order of the others; only the least recently used go, and no more of them than needed; a failed call at most reaps an expired entry of that key. |
| SharedRecency.GetOrder | xshared.c:318-346 | A read moves a live entry to the front of the others, whose order stays; a miss at most reaps that key. |
| SharedRecency.DeleteOrder | xshared.c:359-371 | A delete leaves the others in their order, whether the entry was live, expired or absent. |
| SharedRecency.IncrOrder | xshared.c:375-415 | An increment moves the number to the front of the others, or puts the new one there as a set does; any other type stays where it is. |
| SharedRecency.ExpireOrder | xshared.c:419-432 | A new deadline leaves every entry in its place and every other deadline alone. |
| SharedShard.DropInv | xshared.c:202-208 | Taking an entry out of its bucket chain, the recency list and the byte count keeps them describing the same entries. |
| SharedShard.InsertInv | xshared.c:150-179 | Linking a new entry keeps buckets, recency list in both directions, byte count and entry count in agreement. |
| SharedShard.TouchInv | xshared.c:158-162 | Moving an entry to the front keeps the agreement. |
| SharedShard.EditInv | xshared.c:375-432 | Changing value or deadline in place keeps the agreement. |
| SharedShard.GrowMove | xshared.c:181-199 | One node moved by a rehash keeps old and new chains apart and complete. |
| SharedShard.Shard.constructor | xshared.c:598-645 | A new shard is empty and valid, with sixteen buckets and nothing counted. |
| SharedShard.Shard.LruUnlink | xshared.c:142-148 | The recency list without that entry, links in both directions; the entry points nowhere. |
| SharedShard.Shard.LruPushFront | xshared.c:150-156 | The recency list with that entry in front. |
| SharedShard.Shard.LruTouch | xshared.c:158-162 | The entry moves to the front, the order of the others stays. |
| SharedShard.Shard.EntryDrop | xshared.c:202-208 | The entry leaves chain, list and counters. |
| SharedShard.Shard.ShardLookup | xshared.c:218-232 | Finds the live entry of a key, and reaps an expired one, which is counted as expired. |
| SharedShard.Shard.MakeRoom | xshared.c:210-215 | Evicts from the tail until the new entry fits: the list becomes its longest prefix that leaves room, and every entry that went is counted as evicted. |
| SharedShard.Shard.MaybeGrow | xshared.c:181-199 | The buckets are doubled exactly if there are more entries than buckets; the entries and their order stay. |
| SharedShard.Shard.Set | xshared.c:261-301 | Is the abstract set in all three modes, the entry-too-large error included; entries are conserved: what is there, evicted and expired adds up to what was, and one more for a new key; the buckets are no fewer than the entries if they were before. |
| SharedShard.Shard.Get | xshared.c:318-346 | Is the abstract read; an entry that goes is counted as expired. |
| SharedShard.Shard.Delete | xshared.c:359-371 | Is the abstract delete; an entry that goes is the one deleted or counted as expired. |
| SharedShard.Shard.Expire | xshared.c:419-432 | Is the abstract change of deadline; an entry that goes is counted as expired. |
| SharedShard.Shard.Ttl | xshared.c:434-447 | The remaining time of a live entry, -1 for none, nothing for an absent or expired key. |
| SharedShard.Shard.Incr | xshared.c:375-415 | Is the abstract increment, creation included; on success it returns the live number plus delta, or init plus delta for an absent key; entries are conserved as by a set. |
| SharedShard.Shard.SweepBucket | xshared.c:457-499 | Removes expired entries only, as many as it reports and counts; a bucket it gets through is clean; it stops exactly where the budget of scans is used up, and then the entries already scanned and kept are alive and lead the chain. |
| SharedDict.Dict.SweepExpired | xshared.c:457-499 | A sweep removes expired entries only, as many as it reports, keeps every shard valid, and moves the cursor past buckets it left clean, to entries it found alive; it gets past the first bucket unless that alone uses up the budget; it ends exactly with the budget of scans used up, or at the first bucket of the shard it began in. |
| SharedDict.Dict.Session | xshared.c:457-499 | If no chain is as long as the scan budget to begin with, then after as many sweeps as there are buckets everything that was expired at the start is gone, whatever is read, deleted or given a new deadline between them. |
| SharedDict.Dict.ShardByUpperHalf | xshared.c:252-256 | The upper half of the 64-bit hash chooses the shard. |
| SharedDict.Dict.Serve | xshared.c:318-447 | A call on a key changes the shard of that key as the abstract call says, and no other. |
| SharedDict.BehindStep | xshared.c:457-499 | A sweep that passes a bucket leaves one more clean bucket behind the cursor. |
| SharedDict.BehindKept | xshared.c:318-432 | Reads, deletes and new deadlines leave the buckets behind the cursor clean. |
| SharedDict.StaysShort | xshared.c:202-232 | Nothing but an insertion makes a chain longer. |
| SharedDict.AllBehind | xshared.c:457-499 | A cursor that has gone round has clean buckets everywhere. |
| SharedDict.Dict.constructor | xshared.c:598-640 | A new dictionary has empty, valid shards that share the budget, each with room for an entry at least. |
| ChannelFraming.U32RoundTrip | xchannel.c:222-235 | A 32-bit length read back from its four bytes is the length written. |
| ChannelFraming.HeaderBytes | xchannel.c:222-245 | A packet goes out behind its length, in four or two bytes with the most significant first, or in front of CR LF; it is refused exactly if the length does not fit. |
| ChannelFraming.LineInBuffer | xchannel.c:446-465 | A line in the buffer with its CRLF is delivered up to max_packet bytes and refused beyond. |
| ChannelFraming.Complete | xchannel.c:409-490 | A legal packet is recognised as soon as its last byte is there, whatever follows. |
| ChannelFraming.Incomplete | xchannel.c:409-490 | No proper prefix of a legal packet is delivered or rejected. |
| ChannelFraming.ParseIncremental | xchannel.c:409-490 | Parsing in pieces gives the packets of the whole. |
| ChannelFraming.Delivery | xchannel.c:409-490 | However the bytes of a legal stream are split into reads, exactly the packets sent are delivered, in order, with nothing left over. |
| ChannelFraming.CrlfLimitIsStrict | xchannel.c:446-465 | A line arrives under every split exactly if it is strictly shorter than max_packet. |
| ChannelFraming.LengthLimitIsExact | xchannel.c:412-445 | A length-prefixed packet arrives under every split exactly if it is no longer than max_packet. |
| ChannelBuffer.Buffer.Consume | xchannel.c:130-138 | The first n bytes are gone, all of them if there are fewer. |
| ChannelBuffer.Buffer.Reserve | xchannel.c:140-166 | Room for `need` bytes with the contents unchanged; it fails only where the doubled capacity would not fit a size_t. |
| ChannelBuffer.Buffer.Append | xchannel.c:168-174 | The contents followed by the new bytes. |
| ChannelInput.AfterReadTracks | xchannel.c:831-905 | After any read event what was delivered and what is buffered are what the parser makes of all bytes received, and each close reason means what it says. |
| ChannelInput.ReadGives | xchannel.c:831-905 | What one read event delivers, keeps and leaves armed, and the reason it closes for, from what its bytes behind the buffered ones parse to; a callback that closes stops the delivery at its packet. |
| ChannelInput.ReadWithoutRoom | xchannel.c:831-857 | Without room for the bytes the channel closes with out_of_memory and delivers none of them. |
| ChannelInput.RunDelivers | xchannel.c:858-896 | With room for a partial packet a legal stream is delivered whole, the channel stays open and the next read is armed. |
| ChannelInput.LimitIsExact | xchannel.c:858-896 | A legal stream can never be closed for over-consumption or left unread exactly if the input limit is off or holds the longest partial packet (for LEN32, max_packet + 3). |
| ChannelInput.TrickleStalls | xchannel.c:876-881 | With a smaller limit a legal packet arriving byte by byte closes the channel. |
| ChannelInput.EndIsReported | xchannel.c:813-829 | The end of the stream closes the channel or reaches eof_cb, after everything received has been handed on. |
| ChannelInput.Reader.ScanCrlf | xchannel.c:286-292 | The first CRLF of the buffered bytes. |
| ChannelInput.Reader.ProcessInput | xchannel.c:409-490 | Delivers what the parser finds, stops where a callback closes the channel, and reports the number of packets consumed. |
| ChannelInput.Reader.DigestInput | xchannel.c:876-896 | process_input with READABLE taken away over the limit and given back below it. |
| ChannelInput.Reader.ReadEvent | xchannel.c:831-905 | A read event takes what recv gives, as Fill says, and is the abstract read of those bytes, whose effect ReadGives gives; close_cb is called once if the channel closes. |
| ChannelInput.Reader.Fill | xchannel.c:845-872 | The loop over recv takes what recv gives, at most three times, each time a chunk at least if there is that much, and ends exactly when the limit is passed, nothing is there, the stream ends, recv fails or the buffer cannot grow. |
| ChannelInput.UnarmedStays | xchannel.c:876-896 | Once READABLE is off, nothing more is ever read by events. |
| ChannelInput.Reader.CloseWith | xchannel.c:321-356 | The first close wins; later ones change nothing. |
| ChannelInput.Reader.ReadEof | xchannel.c:813-829 | End of file is reported to eof_cb or closes the channel. |
| ChannelOutput.RunGood | xchannel.c:634-811 | Over every run of events: wire followed by queue is the concatenation of the accepted sends, WRITABLE is armed exactly while something waits, no deferred close waits for nothing, deferred closes and SHUT_WR come only with everything accepted on the wire, and nothing sent is taken back. |
| ChannelOutput.HandleGood | xchannel.c:634-829 | One event keeps all that, callbacks that send or close included. |
| ChannelOutput.ConnectGood | xchannel.c:776-811 | The end of a connect settles arming even if its callback sends, closes or shuts down. |
| ChannelOutput.FlushGood | xchannel.c:634-718 | A flush under any results of send conserves bytes and order. |
| ChannelOutput.SendGood | xchannel.c:722-774 | A send, direct, partial or queued, conserves bytes and order. |
| ChannelOutput.SendAccepts | xchannel.c:398-407 | Return code 0 means accepted whole, -2 exactly that an open, writable channel is at its limit, any other code that nothing changed or the channel is closed; below the limit a send is accepted unless the socket or the poll registration fails. |
| ChannelOutput.DrainCompletes | xchannel.c:380-396 | A channel that waits to close after flushing closes when its queue drains, with everything accepted on the wire. |
| ChannelOutput.LaterIsKept | xchannel.c:1450-1510 | A deferred close or shutdown is carried out at once, or kept with WRITABLE armed for what it waits for. |
| ChannelOutput.Writer.FlushOutput | xchannel.c:634-718 | Does in place what the abstract flush does, for any results of send. |
| ChannelOutput.Writer.SendIov | xchannel.c:722-774 | Does in place what the abstract send does, or closes with out_of_memory where the queue would not fit half the address range. |
| ChannelOutput.Writer.SendPacket | xchannel.c:1309-1348 | A packet accepted adds exactly its framed bytes; one that cannot be framed is refused. |
| ChannelOutput.Writer.FinishDeferred | xchannel.c:380-396 | The pending close or half-close is carried out once nothing waits. |
| ChannelOutput.Writer.FinishConnect | xchannel.c:776-811 | Does in place what the abstract end of a connect does. |
| ChannelOutput.Writer.CloseAfterFlush | xchannel.c:1450-1477 | Does in place what the abstract deferred close does; it fails exactly if the channel was closed already or WRITABLE could not be registered. |
| ChannelOutput.Writer.ShutAfterFlush | xchannel.c:1479-1510 | Does in place what the abstract deferred shutdown does; it fails exactly if the channel is closed. |
| ChannelOutput.Writer.CloseWith | xchannel.c:321-356 | The first close wins and calls close_cb once. |
| ChannelOutput.Writer.Dispatch | xchannel.c:907-941 | Every event leaves the channel settled and is the abstract event, whose effect ChannelEvents gives. |
| ChannelEvents.StartsOpen | xchannel.c:1160-1203 | A new channel is open in both directions with nothing queued, and waits for its connect if it has one. |
| ChannelEvents.WritableTakes | xchannel.c:634-645 | A writable event: an answer n of send moves min(n, queued, INT_MAX) bytes from the front of the queue to the wire, and the next answer is for the rest. |
| ChannelEvents.WritableBlocks | xchannel.c:646-647 | Where send would block, the rest stays queued with WRITABLE armed. |
| ChannelEvents.WritableBreaks | xchannel.c:646-649 | Where send fails or takes nothing, the channel closes with write_error. |
| ChannelEvents.WritableDrained | xchannel.c:710-718 | With the queue empty WRITABLE is disarmed and a deferred close or shutdown carried out, the close first. |
| ChannelEvents.WritableSendsAll | xchannel.c:634-718 | If the answers of send add up to the queue, everything accepted is on the wire after one writable event, and a channel that waits to close is closed. |
| ChannelEvents.ConnectFails | xchannel.c:776-789 | A failed connect closes the channel with connect_error. |
| ChannelEvents.ConnectSucceeds | xchannel.c:791-811 | A successful connect runs the callback with WRITABLE disarmed, flushes what it left, and arms WRITABLE for the rest or closes with poll_error. |
| ChannelEvents.PeerEnds | xchannel.c:813-829 | The end of the stream closes the channel, or runs eof_cb and then what was deferred; a channel shut on both sides closes. |
| ChannelEvents.SecondEof | xchannel.c:813-814 | A second end of the stream changes nothing. |
| ChannelEvents.Closes | xchannel.c:930-941 | A socket error closes with socket_error and the application with its own reason; what waits in the queue is dropped. |
| ChannelEvents.ClosedIsDeaf | xchannel.c:907-941 | No event changes a closed channel. |
| ChannelEvents.SendRefused | xchannel.c:398-407 | Return code -1 for a channel closed, closing, or shut or about to be shut for writing, and for more bytes than a size_t counts; -2 for a full queue; in each case nothing changes. |
| ChannelEvents.SendQueues | xchannel.c:733-747 | A send behind queued bytes or before the connect ended goes to the end of the queue; the first one there arms WRITABLE. |
| ChannelEvents.SendGoesOut | xchannel.c:749-774 | A send with nothing queued puts on the wire what the kernel takes and queues the rest with WRITABLE armed; a failing socket closes the channel with write_error. |
| ChannelEvents.CloseIsDeferred | xchannel.c:1450-1477 | close_after_flush is a writable event on a channel marked for closing; if something still waits WRITABLE is armed. |
| ChannelEvents.ShutIsDeferred | xchannel.c:1479-1510 | So is shutdown_write_after_flush on a channel marked for shutting down; a second one changes nothing. |
| PollRegistry.RoundEnds | xpoll.c:954-1018 | After a round every registration that was ready and is still there has had exactly one turn, with the events reported to it and every callback it had set for them; no turn went to a registration made during the round. |
| PollRegistry.AddLook | xpoll.c:686-720 | Seen from outside, a registration shows exactly the flags asked for, merged with those there before; every other descriptor looks as it did. |
| PollRegistry.DelLook | xpoll.c:728-813 | Seen from outside, a deletion leaves exactly the flags not named, and no registration if none is left; every other descriptor looks as it did. |
| PollRegistry.AllWatched | xpoll.c:384-392 | The slot of every registration asks poll for input exactly if it is for reading, for output exactly if it is for writing, and always for hangups. |
| PollRegistry.ReportedBits | xpoll.c:979-990 | The read callback is for POLLIN, the write callback for POLLOUT, the error callback for POLLERR, POLLNVAL or a hangup without POLLIN. |
| PollRegistry.PolledReports | xpoll.c:954-968 | Every registration finds what poll reported for its own slot. |
| PollRegistry.RoundEvolves | xpoll.c:971-1018 | Whatever callbacks add or delete, the round stays on course. |
| PollRegistry.RoundTurn | xpoll.c:971-995 | The slot visited belongs to a registration of before the round that has not had its turn. |
| PollRegistry.RemovedEvolves | xpoll.c:788-810 | Deletion by swap-with-last moves survivors only towards the front, with their unread events. |
| PollRegistry.RemovedCore | xpoll.c:788-810 | Deletion keeps poll_fes, idx and fd_map inverse to one another and clears the slot freed. |
| PollRegistry.CreatedInv | xpoll.c:688-720 | A new registration keeps the invariant, gets a new generation and no events. |
| PollRegistry.MergedInv | xpoll.c:704-720 | Registering again keeps the invariant and the generation. |
| PollRegistry.DelInv | xpoll.c:405-410 | After a deletion maxfd is again the greatest registered descriptor. |
| PollRegistry.RemovedLook | xpoll.c:788-810 | Seen from outside, deletion takes out one descriptor, although another entry moves. |
| PollRegistry.CreatedLook | xpoll.c:688-720 | Seen from outside, registration adds one descriptor. |
| PollRegistry.MergedLook | xpoll.c:686-720 | Seen from outside, registering a known descriptor merges flags and callbacks into it, keeps its generation and touches no other. |
| PollRegistry.ReducedLook | xpoll.c:788-810 | Seen from outside, deleting part of a mask touches that descriptor's mask only. |
| PollRegistry.GoneCovers | xpoll.c:346-350 | A turn ends early only if its registration is gone, even if its address and descriptor are in use again. |
| PollRegistry.Loop.Resize | xpoll.c:531-571 | A larger array with the same registrations. |
| PollRegistry.Loop.RecalcMax | xpoll.c:398-410 | maxfd is the greatest registered descriptor, -1 if there is none. |
| PollRegistry.Loop.AddEvent | xpoll.c:686-720 | Adds or merges a registration in place, and then every registration is polled for what its mask says; only a failed allocation is an error. |
| PollRegistry.Loop.DelEvent | xpoll.c:728-813 | Removes flags, and the entry when none is left, in place, and then every registration is polled for what its mask says. |
| PollRegistry.Loop.Same | xpoll.c:346-350 | The expected registration is alive: same address, descriptor and generation, with a mask. |
| PollRegistry.Loop.Callbacks | xpoll.c:996-1017 | The callbacks of one turn: only reported ones, and all that were set unless the registration dies on the way. |
| PollRegistry.Loop.Poll | xpoll.c:948-1023 | A whole round keeps the promise of RoundEnds for any readiness and any callbacks; the callbacks made are those of its turns, each once, write before read before error; the result is the number of turns. |
| HashActive.ListedSize | xhash.h:83-96 | The dense list of active buckets is as long as the set it stands for. |
| HashActive.Active.Add | xhash.h:83-87 | The bucket joins the set; list and positions stay inverse. |
| HashActive.Active.Remove | xhash.h:89-96 | The bucket leaves the set and the last of the list takes its position; list and positions stay inverse. |
| HashTable.PushedInv | xhash.h:206-213 | A new node in front of its chain keeps chains, homes and unique keys. |
| HashTable.CutInv | xhash.h:232-251 | Taking a node out of its chain keeps them. |
| HashTable.CutWalk | xhash.h:321-336 | Removing the key just visited leaves the walk over the buckets where it was, also when its bucket empties and another takes its position. |
| HashTable.MoveStep | xhash.h:371-382 | Moving one node to the new buckets keeps those moved a valid table. |
| HashTable.Hash.Get | xhash.h:222-230 | The value of the key in the map, NULL if there is none. |
| HashTable.Hash.Set | xhash.h:197-220 | The map with the key set, counted if it is new; the table doubles exactly when a new key makes it full, and does not stay full. |
| HashTable.Hash.Remove | xhash.h:232-251 | The map without the key, and whether it was there. |
| HashTable.Hash.Resize | xhash.h:354-400 | The same map in another number of buckets. |
| HashTable.Hash.Foreach | xhash.h:321-350 | Every key is visited exactly once with the value it had, although callbacks remove or change the key they are given; the map afterwards is what they made of it. |
| HashSize.NextPow2Exact | xhash.h:112-125 | The rounded size is a power of two not below the size exactly if the size is at most 2^63; above that it is 0; for size 0 it is 64. |
| HashSize.NextPow2Least | xhash.h:112-125 | No smaller power of two would do. |
| RecordLayout.SortedIsStable | xrecord.c:162-178 | The sort is descending by alignment, a permutation, and stable. |
| RecordLayout.SortFields | xrecord.c:169-178 | The in-place insertion sort gives that order. |
| RecordLayout.NoPadding | xrecord.c:180-187 | Each field starts where the one before it ends. |
| RecordLayout.SlotsAligned | xrecord.c:180-190 | Every field of every slot is aligned. |
| RecordLayout.SlotsApart | xrecord.c:180-190 | No two fields of any slots share a byte. |
| RecordLayout.ElemIsLeast | xrecord.c:162-191 | Every layout of the same fields, in any order and with any gaps, takes at least elem_size bytes a slot. |
| RecordLayout.AlignUpBits | xrecord.c:92-94 | The mask form of align_up gives the next multiple. |
| RecordLayout.SchemaCreate | xrecord.c:140-192 | The schema of a field list, or nothing exactly if the list is empty or a name is empty or repeated. |
| RecordLayout.AssignOffsets | xrecord.c:180-190 | The packing loop gives the offsets and the record size. |
| RecordStore.CreatedIsProper | xrecord.c:162-191 | Whatever the fields, they lie within a slot and apart from each other, which is all the pool asks of a schema. |
| RecordStore.PokedCell | xrecord.c:349-351 | A write to one field changes that field as told and no other field of any slot. |
| RecordStore.WrittenOthers | xrecord.c:341-416 | Setting one field of one record changes what is read from no other, string blocks included. |
| RecordStore.WrittenSound | xrecord.c:398-413 | No two string fields ever own the same block, and every length fits its block. |
| RecordStore.EncodeDecode | xrecord.c:351-396 | What is read from a number or flag field is what was stored, rounded only for floats. |
| RecordStore.SetAccepts | xrecord.c:100-105 | What each kind of field accepts: int8, int16 and int32 exactly the whole numbers of their range, out_of_range beyond it and type_mismatch for fractions and NaN; nothing is clamped. |
| RecordStore.TextWritten | xrecord.c:398-413 | A string set is read back, whether realloc moves the block or not. |
| RecordStore.TextIsExact | xrecord.c:398-412 | A string is read back as given exactly if it is shorter than 2^32 bytes. |
| RecordStore.ClearedWritten | xrecord.c:294-309 | A cleared field reads as zero or empty, in a reused slot as well. |
| RecordPool.ExtendedSound | xrecord.c:261-281 | Doubling the pool keeps every record and gives new slots that own nothing. |
| RecordPool.BindSlots | xrecord.c:283-322 | Binding keeps every slot either free, once, or bound to one id. |
| RecordPool.UnbindSlots | xrecord.c:324-333 | So does unbinding. |
| RecordPool.Pool.constructor | xrecord.c:220-254 | A new pool is empty, with every slot free. |
| RecordPool.Pool.Lookup | xrecord.c:113-126 | The slot of an id; the cache always agrees with the hash and holds the id just found. |
| RecordPool.Pool.Grow | xrecord.c:261-281 | Twice the capacity, the same records. |
| RecordPool.Pool.Bind | xrecord.c:283-322 | A new id with an all-zero record, growing if need be; a bound id is refused. |
| RecordPool.Pool.Unbind | xrecord.c:324-333 | The id and its record are gone; an unknown id is reported. |
| RecordPool.Pool.Set | xrecord.c:341-416 | Exactly one field of one record changes, to the value given; each error code where the source gives it, and then nothing changes. |
| RecordPool.Pool.Get | xrecord.c:418-468 | The value of the field of the record, with each error code. |
| RecordPool.Pool.Has | xrecord.c:335-339 | Whether the id is bound. |
| FrameAead.NoncesUnique | xframe_aead.c:105-127 | No two successful encryptions of a session use the same nonce. |
| FrameAead.NonceInjective | xframe_aead.c:28-33 | Different sequence numbers give different nonces. |
| FrameAead.OfBeRoundTrip | xframe_aead.c:41-47 | Eight bytes read as a number and written again are the same bytes. |
| FrameAead.SeqWriteBe | xframe_aead.c:35-39 | The eight bytes of the number, most significant first. |
| FrameAead.SeqReadBe | xframe_aead.c:41-47 | The number those bytes stand for. |
| FrameAead.Sender.Encrypt | xframe_aead.c:92-129 | Seals under the next sequence number, and refuses for ever once 2^64 - 1 have been used. |
| FrameAead.Receiver.Decrypt | xframe_aead.c:131-171 | Whatever frames arrive, a frame is accepted exactly if it is a genuine one later than all accepted before; the accepted plaintexts are an in-order subsequence of those sealed, each at most once. |
| ArgQuote.JoinRoundTrip | xproc.c:482-488 | Any argument list after argv[0] comes back as it was under the C runtime's rules and under those of CommandLineToArgvW. |
| ArgQuote.ScanBody | xproc.c:107-127 | What is written between the quotes is read as the argument, for every mix of backslashes and quotes. |
| ArgQuote.ScanPlain | xproc.c:109-110 | An argument written without quotes is read as it stands. |
| ArgQuote.QuotedWhen | xproc.c:107-110 | An argument is put in quotes exactly if it is empty or contains a space, tab, newline, vertical tab or quote. |
| ArgQuote.CommandLineIsExact | xproc.c:482-488 | The whole command line, program name included, comes back exactly if the name has no quote and, where it is written in quotes, no backslash at its end. |
| ArgQuote.WBuf.AppendArg | xproc.c:107-127 | The loop over the argument appends its quoted form. |
| ArgQuote.BuildCommand | xproc.c:482-492 | The arguments joined by spaces, or an error exactly if that is too long. |
| IndexedHeap.UpStep | xheapmin.h:78-98 | A swap with the parent moves the only violation up. |
| IndexedHeap.DownStep | xheapmin.h:100-145 | A swap with the lesser child moves it down. |
| IndexedHeap.RootLeast | xheapmin.h:186-192 | The root has the least key. |
| IndexedHeap.ReplacedFits | xheapmin.h:163-184 | The last node in the place of a removed one violates the order there at most. |
| IndexedHeap.MinHeap.HeapifyUp | xheapmin.h:78-98 | Either nothing moved and the parent is no greater, or the heap is in order. |
| IndexedHeap.MinHeap.HeapifyDown | xheapmin.h:100-145 | The heap is in order, with the same members. |
| IndexedHeap.MinHeap.Insert | xheapmin.h:147-161 | The node joins; order and back-pointers hold; a full array is replaced by one of twice its size. |
| IndexedHeap.MinHeap.Remove | xheapmin.h:163-184 | The node at any index leaves and its back-pointer says so; order and back-pointers hold for the others. |
| IndexedHeap.MinHeap.Extract | xheapmin.h:186-188 | A node with the least key leaves. |
| IndexedHeap.MinHeap.Check | xheapmin.h:198-201 | Whether a node is in the heap, for any value of its index field. |
| IndexedHeap.MinHeap.Refresh | xheapmin.h:203-216 | A member's key changes and the heap is in order again; another node is left alone. |
| IndexedHeap.MinHeap.Drain | xheapmin.h:186-188 | Repeated extraction gives every member once, in ascending order of keys. |
| IndexedHeap.MinHeap.Peek | xheapmin.h:190-192 | A member with the least key, without taking it out. |

## Left out

- The return value of `xtimer_poll`: it looks at level 0 only, so it is no bound on the next due time.
- Timer handles used after their node has been freed, polls nested in callbacks, and the 32-bit timer ids.
- TimerWheel.TimerSet.Insert: the wheel holds its slot lists as sequences; that the links of the source do the same to all lists at once is proved apart from it, in TimerList.
- Failing `malloc` and `realloc`, except where a method has an input for it; other allocations succeed.
- Weak-memory effects: atomic operations are sequentially consistent steps.
- The cond and Event wakeup path of threads without a poll loop, which relies on its timeout.
- TaskQueue.SoftLimit: `max_size` does not change during a run; the source lets it be set between posts.
- TaskMpsc.SoftLimit: the same.
- Round-robin selection in thread pools, thread start and shutdown, and draining a queue at teardown.
- The FNV hash and the integer mix: every theorem holds for any hash function.
- SharedDict.Dict.constructor: takes the number of shards as rounded and capped by the source already.
- SharedDict.Dict.Session: sweeps with insertions in between, for which chains can grow and buckets double; the requests are reads, deletes and new deadlines.
- HashTable.Bucket: takes the remainder, which for the power-of-two sizes of the source is the source's mask; that sizes are powers of two is proved on words in HashSize and not carried into the table.
- HashTable.Hash.Resize: takes a size already rounded up, and its allocation succeeds.
- String keys of the hash table: the same code with `strcmp` and another load factor.
- Dictionary names, creation on demand and shutdown of the dictionary registry, and its locks: each shard operation is atomic.
- String values of 2^32 bytes and more in the dictionary, whose length field is 32 bits wide, and rounding of numbers: deltas are exact reals.
- io_uring, epoll and kqueue: they depend on what the kernel keeps; the poll backend is modelled.
- ChannelInput.Reader.ProcessInput: RAW framing, and a callback that changes the framing.
- ChannelInput.Reader.DigestInput: registering READABLE again does not fail.
- RAW framing, changing the framing from a callback, pausing reads, transforms, file sends and TLS.
- Detaching a channel and attaching it again with output queued, and a connect started on a channel in use.
- ChannelInput.Reader.ReadEvent: registering READABLE again does not fail here; in the source a failure closes the channel with poll_error.
- ChannelBuffer.Buffer.Append: a size beyond the address range fails where the capacity would overflow; running out of memory before that is not modelled.
- PollRegistry.Loop.Poll: generations do not wrap; the source's counter has 32 bits, so a round with 2^32 registrations could confuse two.
- Negative descriptors in the poll registry.
- FrameAead.Receiver.Decrypt: authenticity is that of an ideal AEAD; the strength of ChaCha20-Poly1305 and the salt exchange are outside.
- RecordPool.Pool.Set: a double outside int64_t in an int field is excluded, as its conversion is undefined in C; the rounding of doubles to floats is a parameter.
- RecordPool.Pool.Bind: slot numbers do not wrap; the source keeps them in 32 bits; the allocations of a growing pool succeed.
- RecordPool.Pool.Grow: its allocations succeed.
- Parsing of field values from text, and iteration over the records of a pool.
- IndexedHeap: a caller's comparator; the default order by key is modelled, and an initial capacity of at least 1.
- UTF-8 conversion, program lookup, environment blocks, pipes and pump threads of process spawning.
- Argument parsing, daemon, logging, socket wrappers, JSON and the Lua bindings: plumbing around the core.
