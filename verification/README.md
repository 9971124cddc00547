# A verified model of the gateway's common library

This project models the parts of the Ceph common library under the RADOS gateway whose correctness
does not show in any one function, and proves them in Dafny:

- **The bufferlist rope** (`Buffer`, `Slices`, `BufferList`, `BufferRuns`, `BufferIterator`,
  `Refcount`). A `buffer::list` is a list of slices of reference-counted allocations. Slices are
  shared between lists, and small appends are written into the unused tail of an allocation that
  other lists may see. The model has a heap of allocations and, for each list, the flat sequence of
  memory cells its slices denote. Every operation is proved against that sequence, and whole runs
  over any number of lists that share memory are proved equal to the same runs on plain byte
  sequences.
- **The wire encoding on top of it** (`Wire`, `Encoding`). Encoders append to a rope and patch
  lengths, counts and compat bytes through iterators they stored earlier; decoders read through an
  iterator. Encoding and decoding round-trip for readers of the same and of other versions.
- **Protocols under a lock**, as state machines over their atomic sections, interleaved in any order:
  the lock-order checker (`Lockdep`, `LockSystem`), `Throttle`, `OrderedThrottle`, the thread pool
  with its work queues (`WorkQueue`), `C_Gather` (`Gather`) and `SafeTimer` (`Timer`). Each module has
  a state, its steps, an invariant that every step keeps, theorems that say of all runs what the state is
  in terms of the steps taken, and a class whose
  methods are the lock sections of the code and are proved to be those steps and to keep the invariant.
- **Configuration** (`MetaExpansion`, `ConfFile`, `ConfRoundTrip`): in-place recursive variable
  expansion, and the configuration file's parser and printer with the exact condition under which
  printing and loading gives a file back.
- **Codecs** (`Utf8`, `Armor`): 31-bit UTF-8 (section 2 of RFC 2279) and base64 (section 4 of
  RFC 4648; the decoder also takes the alphabet of section 5).

`Basics` holds what all of them share, `Graph` the walks and cycles of directed graphs. `dafny verify dfyconfig.toml` checks everything.

## How the code is read

- Condition variables: a wait may also return without a signal. A signal is remembered for a thread
  that sleeps and lost for one that does not.
- A failed `assert` in the code ends the process. Where the code asserts something of its own state,
  the model proves it; where it asserts something of its caller, it is a precondition.
- Allocation gives arbitrary bytes; clocks, addresses and scheduling are arbitrary.
- A work queue's own list is that of GenContextWQ (`src/common/WorkQueue.h:529-551`).
- Integers are unbounded. Lengths are assumed to stay below the 32-bit fields that hold them;
  `Wire.Fitting` states that bound where a length goes on the wire.

Where the code and its comments disagree, the model follows the code:

- `src/include/Context.h:231` wonders whether the last error is reported; the code keeps the first.
- `src/include/Context.h:364-365` says a builder may make no subs at all; then the finisher is never
  completed (`Gather.CompletedIffSubs`).
- `src/common/ConfUtils.cc:251-257` says all white space in keys becomes underscores; only spaces do.
- `src/common/Timer.h:65` says `shutdown` is called without the lock; the code asserts that it is held.
- `src/common/ConfUtils.cc` prints values without escaping them, although its parser has escapes
  (`ConfRoundTrips.PrintThenLoad` says exactly which files survive).

## Model

| member | source | states |
|---|---|---|
| BufferRuns.BufferMachine.Run | src/common/buffer.cc:1441-1774 | any run of appends, pushes, claims, assignments, substr, splice, clear and rebuilds over any number of lists that share memory leaves in every list exactly the bytes the same run leaves in plain sequences; it stops only at a call the caller may not make |
| BufferRuns.BufferMachine.Execute | src/common/buffer.cc:1441-1774 | one operation on one or two lists changes the bytes of those lists as the plain operation does, and of no other list |
| BufferRuns.BufferMachine.OneChanged | src/common/buffer.cc:1510-1543 | after an operation on one list, every other list is still valid and shows the same bytes, although memory it shares may have been written |
| Buffer.EvolvesFramesOthers | src/common/buffer.cc:827-845 | writing behind a list's append buffer can be seen through no other list |
| Slices.WriteBehindIsFresh | src/common/buffer.cc:827-845 | what is written behind the append buffer lies in cells no slice shows |
| BufferLists.Heap.Consolidate | src/common/buffer.cc:1365-1379 | copying slices into one new allocation keeps their bytes in order |
| BufferLists.Heap.Allocate | src/common/buffer.cc:617-642 | a fresh allocation with the alignment asked for, which no slice shows |
| BufferLists.BufferList.PushBack | src/include/buffer.h:423-428 | the list's cells grow by those of the slice; an empty slice leaves no segment |
| BufferLists.BufferList.PushFront | src/include/buffer.h:413-418 | the same at the front |
| BufferLists.BufferList.Clear | src/include/buffer.h:407-412 | no bytes, and the append buffer is kept |
| BufferLists.BufferList.AppendSlice | src/common/buffer.cc:1551-1567 | the sub-slice's bytes are appended, whether the tail segment is lengthened or one is added |
| BufferLists.BufferList.AppendList | src/common/buffer.cc:1569-1576 | the other list's bytes are appended and its slices shared |
| BufferLists.BufferList.AppendChar | src/common/buffer.cc:1510-1520 | one byte is appended, in a cell nobody could see before |
| BufferLists.BufferList.AppendBytes | src/common/buffer.cc:1522-1543 | the bytes are appended in order across append buffers, in cells nobody could see before, each used once |
| BufferLists.BufferList.MakeShareable | src/include/buffer.h:454-459 | all segments are shareable afterwards and no byte changed |
| BufferLists.BufferList.ClaimAppend | src/common/buffer.cc:1441-1450 | the other list's bytes move to the end, in shareable allocations unless others are allowed, and it is left empty |
| BufferLists.BufferList.ClaimPrepend | src/common/buffer.cc:1452-1461 | the other list's bytes move to the front, in shareable allocations unless others are allowed, and it is left empty |
| BufferLists.BufferList.Assign | src/include/buffer.h:364-376 | operator= (and behind it the copy constructor): the other list's bytes, in shareable allocations; assigning a list to itself changes nothing |
| BufferLists.BufferList.SubstrOf | src/common/buffer.cc:1673-1709 | exactly bytes [off, off+len) of the other list, shared; fails exactly when there are fewer |
| BufferLists.BufferList.Splice | src/common/buffer.cc:1712-1774 | removes exactly bytes [off, off+len) and appends exactly those to claim_by; segments stay non-empty, and the length the loop arrives at is exact |
| BufferLists.BufferList.CutRun | src/common/buffer.cc:1748-1769 | the cutting loop: what is left, what is handed over, and that the running length, raised by the kept front and lowered segment by segment, is the length of what is left |
| Slices.CutLengths | src/common/buffer.cc:1748-1769 | what one round takes off the length: off + len where the cut ends inside a segment, else the whole segment |
| Slices.SpliceCells | src/common/buffer.cc:1719-1770 | the kept segments hold exactly the other cells, the pieces exactly the cut ones |
| BufferLists.BufferList.Rebuild | src/common/buffer.cc:1351-1379 | one segment with the same bytes, page-aligned when the length is a multiple of a page |
| BufferLists.BufferList.GetContiguous | src/common/buffer.cc:1633-1671 | the bytes asked for lie in one slice of the list, whose content does not change; fails exactly past the end |
| BufferLists.BufferList.ContentsEqual | src/common/buffer.cc:1210-1253 | true exactly when the flat bytes are equal, however either list is cut into segments |
| BufferLists.BufferList.RebuildAligned | src/common/buffer.cc:1386-1426 | ends, keeps the bytes, puts every segment at a multiple of align_memory (a power of two) and makes every segment but the last a multiple of align_size |
| Slices.MaskTellsAlignment | src/include/buffer.h:193-195 | masking an address with align - 1 tells multiples of align from others, for every power of two |
| BufferIterators.ListIterator.Forward | src/common/buffer.cc:911-931 | moves by exactly that many bytes; fails exactly past the end |
| BufferIterators.ListIterator.Backward | src/common/buffer.cc:932-947 | moves back by exactly that many bytes; fails exactly before the beginning |
| BufferIterators.ListIterator.Seek | src/common/buffer.cc:950-956 | stands at the offset; fails exactly past the end |
| BufferIterators.ListIterator.Refresh | src/common/buffer.cc:1146-1148 | an iterator left at the end finds bytes appended since |
| BufferIterators.ListIterator.Copy | src/common/buffer.cc:992-1010 | the next len bytes of the flat content; fails exactly when there are fewer |
| BufferIterators.ListIterator.CopyIn | src/common/buffer.cc:1144-1162 | writes the source into the next cells in order; fails exactly when there are fewer |
| BufferIterators.GrowingKeepsPlace | src/common/buffer.cc:1146-1148 | an iterator stored before appends, even at the end, still stands at its offset |
| BufferIterators.OverwriteExact | src/common/buffer.cc:1144-1162 | copy_in replaces exactly the addressed bytes if and only if the bytes asked for agree wherever the list shows one cell twice |
| BufferIterators.OverwriteElsewhere | src/common/buffer.cc:1144-1162 | a list that shows none of the written cells does not change |
| BufferIterators.AliasedOverwrite | src/common/buffer.cc:1144-1162 | a list that holds one slice twice: writing its first byte changes its second |
| Refcount.Pointers.Assign | src/common/buffer.cc:694-710 | the count stays exact; the old raw is freed exactly when this was its last ptr and the new one is on another raw; assigning a ptr to itself frees nothing |
| Refcount.Pointers.MakeShareable | src/common/buffer.cc:717-727 | an unshareable raw is replaced by a fresh one with one reference, and freed exactly when this was its last ptr |
| Refcount.Pointers.Swap | src/common/buffer.cc:729-740 | the two trade places and no count changes |
| Refcount.Pointers.Destroy | src/common/buffer.cc:742-752 | the raw goes exactly with its last ptr |
| Refcount.Pointers.SubSlice | src/common/buffer.cc:686-693 | one more counted reference to part of what the other shows |
| Refcount.Pointers.Copy | src/common/buffer.cc:679-685 | one more counted reference, or a null ptr |
| Refcount.Pointers.FromRaw | src/common/buffer.cc:662-666 | a counted reference to the whole raw |
| Refcount.Pointers.Release | src/common/buffer.cc:742-752 | the reference is dropped; the raw goes exactly if no ptr and no reference in flight is left on it |
| Refcount.Pointers.Run | src/common/buffer.cc:662-752 | after any run, every raw that was ever referenced has been freed once if no ptr is on it and never otherwise |
| Refcount.FreedWithTheLastPtr | src/common/buffer.cc:742-752 | a raw's count is the number of ptrs on it; it is freed once, when there is none |
| Wire.LittleEndianRoundTrip | src/include/encoding.h:91-108 | k bytes hold every number below 256^k |
| Wire.LittleEndianBytes | src/include/encoding.h:91-108 | byte i of a number has its bits from 8*i up |
| Wire.BytesRoundTrip | src/include/encoding.h:91-108 | every k bytes are the encoding of the number they are read as |
| Wire.Layout | src/include/encoding.h:837-863 | what stands where: 32-bit counts and lengths first, least significant byte first; a struct's version, oldest reader and length before its fields |
| Wire.DecodeEncode | src/include/encoding.h:837-981 | decoding an encoded value anywhere in a buffer gives the reader's view of it and stops exactly behind it, whatever surrounds it; for nested values and readers that know only the first fields |
| Wire.DecodePrefix | src/include/encoding.h:974-981 | a reader of the first fields reads those and stays within the struct |
| Wire.TooOldReaderRejects | src/include/encoding.h:893-904 | a reader older than the compat value rejects the struct as malformed |
| Wire.DecodeStaysInside | src/include/encoding.h:893-981 | on any bytes, a decoder that succeeds has read nothing past their end |
| Wire.StructEndsAsDeclared | src/include/encoding.h:974-981 | on any bytes, a struct that decodes ends where its header says, and its compat value is not above the reader |
| Wire.StructReadsItsOwn | src/include/encoding.h:893-981 | on any bytes, a struct with a good header is read if and only if its fields can be read from the bytes up to its declared end, and then it has those; if they can be read only from bytes behind it, it is malformed |
| Wire.OwnBytesOnly | src/include/encoding.h:893-981 | on any bytes, what is read depends only on the bytes up to where reading stops |
| Wire.HeaderExactly | src/include/encoding.h:893-904 | what the header is read as, or which exception it raises, for any bytes |
| Wire.TruncatedFails | src/include/encoding.h:893-981 | an encoding that is cut short anywhere is not read |
| Wire.NumbersExactly | src/include/encoding.h:91-108 | numbers on any bytes: the end of the buffer is the only failure |
| Wire.StringExactly | src/include/encoding.h:165-179 | strings on any bytes: the length and that many bytes, or the end of the buffer |
| Wire.SameBytesSameView | src/include/encoding.h:837-865 | values with the same encoding look the same to every reader that can read both |
| Encoding.PatchAppended | src/common/buffer.cc:1144-1162 | overwriting bytes an encoder appended amounts to having appended the patched bytes; no other list notices |
| Encoding.StartStruct | src/include/encoding.h:837-848 | header with length 0; the two iterators stand at the compat byte and at the length |
| Encoding.FinishStruct | src/include/encoding.h:856-863 | the length becomes that of the payload and the compat byte the new one if given, even across segments |
| Encoding.EncodeList | src/include/encoding.h:368-389 | count and elements, although the count is written last |
| Encoding.EncodeVector | src/include/encoding.h:547-554 | count and elements |
| Encoding.EncodeStruct | src/include/encoding.h:837-863 | appends exactly the flat encoding of the struct |
| Encoding.EncodeValue | src/include/encoding.h:91-401 | appends exactly the flat encoding to whatever the list held |
| Encoding.DecodeValue | src/include/encoding.h:97-401 | reading through the segments gives what reading the flat bytes gives, exceptions included |
| Encoding.ReadMany | src/include/encoding.h:390-401 | the count and that many elements, or the first failure |
| Encoding.ReadHeader | src/include/encoding.h:893-904 | version, compat and end offset, with both malformed cases and the end of the buffer |
| Encoding.DecodeStruct | src/include/encoding.h:893-981 | reads the known fields and ends at the struct's end; malformed if they run past it (`Wire.StructReadsItsOwn`) |
| Encoding.RoundTrip | src/include/encoding.h:837-981 | a value put into any rope and read back is the reader's view of it, and the iterator ends behind it |
| Lockdep.LockChecker.DoesFollow | src/common/lockdep.cc:190-214 | ends on a graph without cycles and is true exactly when a non-empty path exists |
| Lockdep.LockChecker.WillLock | src/common/lockdep.cc:216-286 | lets the thread pass exactly if it does not hold the class and the class reaches nothing it holds; then all edges are added, in whatever order the held locks are visited |
| Lockdep.LockChecker.Register | src/common/lockdep.cc:128-151 | a known name keeps its id, a new one takes the first free id; fails exactly when ids have run out |
| Lockdep.LockChecker.Unregister | src/common/lockdep.cc:153-186 | the last reference removes the class, its edges in both directions and its name, and frees its id |
| Lockdep.LockChecker.ClearEdges | src/common/lockdep.cc:167-173 | no edge into or out of the class is left |
| Lockdep.LockChecker.Locked | src/common/lockdep.cc:288-302 | the class joins what the thread holds |
| Lockdep.LockChecker.WillUnlock | src/common/lockdep.cc:304-325 | the class leaves what the thread holds |
| Graphs.AddEdge | src/common/lockdep.cc:242-280 | an edge h -> c keeps the graph acyclic exactly when c does not reach h and is not h |
| Lockdep.AddEdgesInto | src/common/lockdep.cc:222-281 | all the edges of one acquisition together keep the graph acyclic |
| Lockdep.PassesExactly | src/common/lockdep.cc:222-281 | a thread is let pass if and only if the edges from all it holds make no cycle |
| Lockdep.RegisteredOk | src/common/lockdep.cc:128-151 | names, ids, counts and the free list stay consistent |
| Lockdep.UnregisteredOk | src/common/lockdep.cc:153-186 | they stay consistent, and the graph acyclic, when a class nobody holds goes |
| LockSystem.Keeps | src/common/lockdep.cc:128-325 | every step of every thread (create, destroy, announce, acquire, try, note, forget, release) keeps the invariant: `held` is exact and a waiting thread has an edge from all it holds to what it waits for |
| LockSystem.FollowOwners | src/common/Mutex.cc:87-121 | from any thread of a set, following who has what it waits for reaches one that is not blocked by the set |
| LockSystem.NeverCircular | src/common/lockdep.cc:189-325 | in every state of every run the graph is acyclic and no non-empty set of threads is in a circular wait |
| LockSystem.EdgesExactly | src/common/lockdep.cc:153-281 | an edge is there exactly from the announcement that makes it to the end of one of its classes |
| LockSystem.OwnedExactly | src/common/Mutex.cc:87-121 | a mutex is there from creation to destruction, and a thread has it exactly from the step that acquires it to the one that releases it |
| LockSystem.ThreadsFollowSteps | src/common/Mutex.cc:87-121 | in every run a thread waits for, has or releases the mutex its own last steps name |
| LockSystem.SameClassSameName | src/common/lockdep.cc:128-151 | in every run two live mutexes are of one class exactly if they were created with the same name |
| LockSystem.TryingAHeldClassDeadlocks | src/common/Mutex.h:77-84 | why try-locks are restricted: without the restriction there is a run, every announcement of which will_lock lets pass, to two threads that each wait for what the other has |
| Throttles.Keeps | src/common/Throttle.cc:80-238 | every lock section keeps: those who wait are the last who came, in order, and a front waiter without a pending signal still has to wait |
| Throttles.RunKeeps | src/common/Throttle.cc:80-238 | this in every state of every run, with changes of the maximum |
| Throttles.CountIsAccount | src/common/Throttle.cc:142-238 | in every run the count is the sum of what steps let in (seen from who waits and who came) and took, less what they put back |
| Throttles.NoOvertaking | src/common/Throttle.cc:92-125 | in every run the i-th served is the i-th who came, and all others wait |
| Throttles.WaitsExactlyWithoutRoom | src/common/Throttle.h:40-47 | waiting is needed exactly without room: a request up to the limit must fit below it, a larger one only needs the count not to be over it |
| Throttles.ServedExactly | src/common/Throttle.cc:92-215 | get, wait and get_or_fail pass at once exactly when nobody waits and there is room below the new limit; a waiter that wakes passes exactly when it is in front and there is room |
| Throttles.WokenExactly | src/common/Throttle.cc:80-230 | a waiter is woken exactly when it is in front and slots come back, the limit changes or the one before it leaves, until it sleeps again |
| Throttles.WaitersAskedFor | src/common/Throttle.cc:92-187 | in every run, what is noted of a waiter is what its get or wait asked for |
| Throttles.MaxIsLastSet | src/common/Throttle.cc:80-90 | in every run the maximum is the last one set |
| Throttles.Throttle.Arrive | src/common/Throttle.cc:161-187 | get and wait up to their first wait: granted at once exactly when nobody waits and the limit allows it, else last in the queue |
| Throttles.Throttle.WakeUp | src/common/Throttle.cc:100-122 | after a return from the wait: granted and the next waiter signalled exactly when in front and within the limit, else asleep again |
| Throttles.Throttle.TryGet | src/common/Throttle.cc:190-215 | succeeds exactly when a get would not wait |
| Throttles.Throttle.PutBack | src/common/Throttle.cc:217-238 | the count goes down by what is put back, and a front waiter is woken if that is anything |
| Throttles.Throttle.ResetMaximum | src/common/Throttle.cc:80-90 | sets the maximum and signals the front waiter when it changes |
| OrderedThrottles.Keeps | src/common/Throttle.cc:295-370 | every section, with the lock dropped around callbacks, keeps the invariant |
| OrderedThrottles.CallbacksInOrder | src/common/Throttle.cc:295-370 | in every run, seen from the steps: callbacks start in tid order, once each, with the result finish_op was called with for that tid, never two at a time; at most max operations run; the first result passed to end_op that is an error and not ignored is kept |
| OrderedThrottles.HistoryIsSteps | src/common/Throttle.cc:295-370 | tids are given out in the order of the start_op calls, callbacks count as complete when they return, and the results kept are those passed to end_op |
| OrderedThrottles.GivenIsFinished | src/common/Throttle.cc:324-333 | the result kept for a tid is the one its finish_op was called with |
| OrderedThrottles.CurrentIsRunning | src/common/Throttle.cc:302-322 | in every run the operations counted as running are those start_op let in, less those ended |
| OrderedThrottles.SleepsExactly | src/common/Throttle.cc:302-349 | a thread that starts no callback sleeps exactly while it has to: start_op for a place, wait_for_ret for all to end; else its call returns |
| OrderedThrottles.CallIsLast | src/common/Throttle.cc:295-349 | a thread that sleeps or runs a callback does so in the call it made last |
| OrderedThrottles.WokenExactly | src/common/Throttle.cc:313-333 | sleepers are woken exactly by finish_op and end_op, until they go on |
| OrderedThrottles.RunKeeps | src/common/Throttle.cc:295-370 | also: a thread that sleeps unsignalled has a reason to, and leaves nothing completable behind |
| OrderedThrottles.EveryCallbackRuns | src/common/Throttle.cc:351-370 | in every state of every run, every callback has run if and only if every tid was finished, no callback is going on and none can be started |
| OrderedThrottles.StartsWhatCan | src/common/Throttle.cc:295-360 | start_op and wait_for_ret start the next callback whenever its tid is finished and none is going on, before they sleep or return |
| OrderedThrottles.StartsNextAfterCallback | src/common/Throttle.cc:361-370 | a thread back from a callback goes straight on to the next one that is finished |
| OrderedThrottles.WaitRunsThemAll | src/common/Throttle.cc:340-370 | when every operation has finished and ended and no callback is going on, a wait_for_ret that is left alone runs every callback that is left and returns |
| OrderedThrottles.FinishFinds | src/common/Throttle.cc:324-329 | finish_op always finds its tid |
| OrderedThrottles.WaitReturns | src/common/Throttle.cc:340-349 | however wait_for_ret comes to return in a run: nothing is running, nothing can be completed, it returns the first error that was not ignored, and every callback has run if and only if every tid was finished and no other thread is inside a callback |
| OrderedThrottles.ReturnsDuringCallback | src/common/Throttle.cc:340-370 | a run in which wait_for_ret returns while another thread is still inside the last callback |
| OrderedThrottles.ReturnsBeforeFinish | src/common/Throttle.cc:313-349 | a run in which it returns with an operation ended but not finished, whose callback has not run |
| OrderedThrottles.OrderedThrottle.GoOn | src/common/Throttle.cc:302-310 | start_op and wait_for_ret up to the next release of the lock: a callback, a sleep, or the return |
| OrderedThrottles.OrderedThrottle.CompletePending | src/common/Throttle.cc:351-370 | takes the head exactly when it is the next tid and finished |
| OrderedThrottles.OrderedThrottle.BeginOp | src/common/Throttle.cc:295-311 | the next tid is given out and the pending completions are tried |
| OrderedThrottles.OrderedThrottle.BeginWait | src/common/Throttle.cc:340-349 | wait_for_ret up to its first release of the lock keeps the invariant |
| OrderedThrottles.OrderedThrottle.WokenUp | src/common/Throttle.cc:300-349 | so does either loop behind a wait |
| OrderedThrottles.OrderedThrottle.CallbackReturned | src/common/Throttle.cc:361-369 | the tid counts as complete only after its callback, and the next one is tried |
| OrderedThrottles.OrderedThrottle.FinishOp | src/common/Throttle.cc:324-333 | the tid is finished with the result given, no other tid changes, and all sleepers wake |
| OrderedThrottles.OrderedThrottle.EndOp | src/common/Throttle.cc:313-322 | one operation fewer, the first error that is not ignored kept, and all sleepers wake |
| WorkQueues.Keeps | src/common/WorkQueue.cc:91-270 | every section of workers, producers and callers keeps the invariant: every item is in exactly one place, counters are exact, paused means quiet, no wake-up of a pause or drain is lost |
| WorkQueues.RunKeeps | src/common/WorkQueue.h:184-264 | all of this in every state of every run |
| WorkQueues.EveryItemIsSomewhere | src/common/WorkQueue.h:184-264 | in every run the places of a queue together hold exactly the items that queue and queue_front calls put in |
| WorkQueues.FirstInFirstOut | src/common/WorkQueue.h:529-551 | over any stretch of a run without queue_front, what leaves a queue and then what is in it is what it held and what was queued, in order |
| WorkQueues.FrontGoesFirst | src/common/WorkQueue.h:529-551 | what queue_front puts in leaves before all that the queue held then |
| WorkQueues.TakenInOrder | src/common/WorkQueue.h:195-228 | workers are given items in the order in which these were dequeued, and items are finished in the order in which they were handed back |
| WorkQueues.WorkersFollowSteps | src/common/WorkQueue.cc:111-142 | a worker goes from an item dequeued to one of the same queue in hand, to one to be finished there, and back to the scan |
| WorkQueues.CallersFollowSteps | src/common/WorkQueue.cc:232-270 | in every run a caller stands where its last pause, pause_new, unpause or drain puts it |
| WorkQueues.ReturnsExactly | src/common/WorkQueue.cc:232-270 | pause and drain return, at once or behind a wait, exactly when no worker has an item in hand and the queue to be drained is empty |
| WorkQueues.HeldStandsStill | src/common/WorkQueue.cc:111-121 | while anybody has paused the pool nothing leaves a queue |
| WorkQueues.WokenExactly | src/common/WorkQueue.cc:129-137 | callers that wait are woken exactly when an item is finished |
| WorkQueues.NoAssertFails | src/common/WorkQueue.h:206-228 | a worker always finds its item in to_process and to_finish, and unpause finds a pause |
| WorkQueues.PausedMeansIdle | src/common/WorkQueue.cc:232-259 | from the return of pause() to the matching unpause() no worker is between dequeue and finish |
| WorkQueues.LookFinds | src/common/WorkQueue.cc:111-121 | a scan finds an item if there is one, and each find brings every other waiting queue closer |
| WorkQueues.LookFails | src/common/WorkQueue.cc:111-121 | a scan that finds nothing saw every queue empty and ends where it began |
| WorkQueues.ScanProgress | src/common/WorkQueue.cc:111-142 | an unpaused worker with an item anywhere dequeues exactly one; no other step moves the scan |
| WorkQueues.RoundRobin | src/common/WorkQueue.cc:111-142 | while a queue has items and is not served, the others are served at most n - 1 times, in any run |
| WorkQueues.ThreadPool.WorkerPass | src/common/WorkQueue.cc:111-127 | the scanning loop takes the first item in round-robin order, and takes one exactly if some queue has one and the pool is not paused |
| WorkQueues.ThreadPool.Take | src/common/WorkQueue.h:206-211 | the oldest dequeued item, whoever dequeued it, goes into process |
| WorkQueues.ThreadPool.HandBack | src/common/WorkQueue.h:213-218 | the processed item joins to_finish |
| WorkQueues.ThreadPool.FinishItem | src/common/WorkQueue.cc:129-137 | the oldest processed item is finished, and pausers and drainers are woken if there are any |
| WorkQueues.ThreadPool.Add | src/common/WorkQueue.h:240-249 | the item joins its queue at the end or the front, and no other queue changes |
| WorkQueues.ThreadPool.WaitPass | src/common/WorkQueue.cc:232-270 | one pass of the loops in pause and drain; returns exactly when nothing is in process (and the queue is empty) |
| WorkQueues.ThreadPool.BeginPause | src/common/WorkQueue.cc:232-241 | no new scans from now on; returns at once or waits |
| WorkQueues.ThreadPool.BeginPauseNew | src/common/WorkQueue.cc:243-249 | no new scans from now on, without waiting |
| WorkQueues.ThreadPool.BeginDrain | src/common/WorkQueue.cc:261-270 | returns at once or waits for the queue and the workers |
| Timers.Keeps | src/common/Timer.cc:84-185 | add, cancel, cancel all, shutdown and the timer thread keep both indexes in one-to-one agreement, sorted, and the thread's deadline early enough |
| Timers.RunKeeps | src/common/Timer.cc:84-185 | in every run: exactly the pending callbacks are indexed, and a thread that sleeps unsignalled is not being stopped and wakes no later than the earliest event |
| Timers.FateOfStep | src/common/Timer.cc:84-109 | a callback's fate is settled once, by being run or by a cancel |
| Timers.ScheduledExactly | src/common/Timer.cc:84-185 | an event is scheduled exactly from the step that adds it, for the time asked for, to the one that runs or cancels its callback |
| Timers.AddedIsKept | src/common/Timer.cc:84-185 | in every run a callback that was added is still scheduled for the time asked for, or was cancelled, or was run with a clock that had reached that time |
| Timers.EntriesWereAdded | src/common/Timer.cc:134-153 | in every run everything scheduled was added with that time and callback |
| Timers.EarliestFirst | src/common/Timer.cc:91-103 | of two callbacks that wait the one with the earlier time runs first, and with the same time the one added first |
| Timers.RunsAtTimeRead | src/common/Timer.cc:88-109 | in every run a callback runs with the time the thread read last |
| Timers.RunsOnce | src/common/Timer.cc:84-171 | in every run the thread runs a callback at most once, and never after a cancel that returned true |
| Timers.WakesForAll | src/common/Timer.cc:113-118 | in every run a thread that sleeps unsignalled wakes no later than any callback is due that was added and neither run nor cancelled |
| Timers.ThreadGoesOn | src/common/Timer.cc:84-122 | the thread runs a callback exactly if one is due, exits exactly if it was told to stop and runs none, and else sleeps until the earliest is due |
| Timers.WokenExactly | src/common/Timer.cc:72-153 | a sleeping thread is signalled exactly by an event that comes before all others and by shutdown |
| Timers.StopsExactly | src/common/Timer.cc:68-82 | in every run the timer is stopping exactly if shutdown was called while there was a thread |
| Timers.ThreadFollowsSteps | src/common/Timer.cc:61-82 | in every run there is a thread from init to the join, and it runs from its first step on |
| Timers.NothingDueLeft | src/common/Timer.cc:91-118 | the thread sleeps only when nothing is due at the time it read |
| Timers.SettledForGood | src/common/Timer.cc:84-185 | nothing fires twice, and what was cancelled never fires |
| Timers.TrueCancelNeverFires | src/common/Timer.cc:155-171 | a cancel that returns true means the callback never fires |
| Timers.SafeTimer.AddEventAt | src/common/Timer.cc:134-153 | exactly one entry more, with the time and callback asked for, behind all that are not later; the thread is signalled exactly when it is the new first |
| Timers.SafeTimer.FindPlace | src/common/Timer.cc:139-152 | where the multimap puts an entry; it is first exactly if the schedule is empty or all are later |
| Timers.SafeTimer.CancelEvent | src/common/Timer.cc:155-171 | true exactly on a pending callback, which leaves both indexes |
| Timers.SafeTimer.CancelAllEvents | src/common/Timer.cc:173-185 | the loop leaves both indexes empty and every pending callback cancelled |
| Timers.SafeTimer.RunDue | src/common/Timer.cc:91-118 | the inner loop fires the first event exactly if it is due, else sleeps until the next one or exits |
| Timers.SafeTimer.Round | src/common/Timer.cc:88-91 | the outer loop exits exactly when told to stop, and keeps the invariant |
| Timers.SafeTimer.CallbackDone | src/common/Timer.cc:105-115 | behind a callback the inner loop goes on with the time read before it |
| Timers.SafeTimer.Stop | src/common/Timer.cc:68-82 | without a thread nothing happens; with one everything pending is cancelled, and the thread is told to stop and woken |
| Timers.SafeTimer.Join | src/common/Timer.cc:76-80 | behind the join there is no thread, and the timer stays stopped |
| Gather.Keeps | src/include/Context.h:247-337 | new_sub, the steps of complete() and of the destructor of every sub, set_finisher, activate (also without subs, and again after it) and delete_me in any order keep the invariant |
| Gather.EachReportsOnce | src/include/Context.h:277-296 | in every run a sub reports exactly once, whether it is completed or deleted unfinished: the destructor that complete() runs does not report again |
| Gather.ReportIsKept | src/include/Context.h:277-296 | the report is the result the sub was completed with, or 0 if it was deleted unfinished |
| Gather.ReportsFollowSteps | src/include/Context.h:247-296 | in every run the reports are, in order, the results subs were completed with and 0 for each that was deleted unfinished |
| Gather.SubsFollowSteps | src/include/Context.h:277-296 | in every run a sub stands where its own last step puts it, with or without its pointer |
| Gather.GatherFollowsSteps | src/include/Context.h:310-337 | in every run the subs made, the finisher given, the activation and the deletion are those of the steps |
| Gather.CompletedOnce | src/include/Context.h:247-337 | in every run the finisher is completed exactly by delete_me, at most once, after an activate with subs, when every sub made has reported exactly once, with the first negative result in the order of the reports |
| Gather.CompletedIffSubs | src/include/Context.h:397-417 | once all has settled, the finisher was completed if and only if a sub was made |
| Gather.NoSubsNoCompletion | src/include/Context.h:411-417 | activating a builder without subs does nothing, and subs may still be made |
| Gather.GatherBuilder.SubFinish | src/include/Context.h:247-267 | records the report; the caller deletes exactly when it was the last after activation |
| Gather.GatherBuilder.FinishSub | src/include/Context.h:288-289 | finish() up to the end of sub_finish |
| Gather.GatherBuilder.ForgetGather | src/include/Context.h:288-291 | finish() clears the pointer, so that nothing is owed any more |
| Gather.GatherBuilder.DestroySub | src/include/Context.h:292-295 | the destructor reports exactly if the pointer is still there |
| Gather.GatherBuilder.Start | src/include/Context.h:315-325 | activation; the caller deletes exactly when no sub is left |
| Gather.GatherBuilder.MakeSub | src/include/Context.h:405-410 | the first sub makes the gather, which takes the finisher along |
| Gather.GatherBuilder.Delete | src/include/Context.h:269-275 | completes the finisher with the result, if there is one |
| MetaExpansion.AllCleanIffAcyclic | src/common/config.cc:1010-1135 | where every '$' starts a reference to something there is, all options are clean if and only if no option refers to itself, directly or through others |
| MetaExpansion.CleanEdge | src/common/config.cc:1104-1112 | what a clean option refers to is clean and made of fewer options, whatever the rest of the table is |
| MetaExpansion.ReferenceExactly | src/common/config.cc:1053-1071 | a reference is a '$' and the longest run of a-z and '_' behind it, or a '$' and such a name in braces, and nothing else |
| MetaExpansion.PiecesInOrder | src/common/config.cc:1047-1131 | a text cut before a '$' is substituted piece by piece, in order |
| MetaExpansion.OneReference | src/common/config.cc:1073-1124 | a reference and plain text behind it become what it names and that text |
| MetaExpansion.Config.ExpandText | src/common/config.cc:1047-1131 | the scan ends for every table, cyclic ones too; if the options the text names are clean, its result is the full substitution, in which only a '$' that starts no reference to anything there is stays; it reports whether there was a reference to something there is |
| MetaExpansion.Config.Value | src/common/config.cc:1073-1122 | a reference is replaced exactly if there is a metavariable or option of that name; an option is expanded first |
| MetaExpansion.Config.ExpandSlot | src/common/config.cc:1010-1135 | a clean option's slot ends up with its full substitution, slots already expanded keep theirs, and clean slots are never left half-way, whatever else is being expanded |
| MetaExpansion.Config.ExpandString | src/common/config.cc:1003-1008 | the full substitution of a string that names clean options; one without '$' is left alone |
| MetaExpansion.Config.ExpandAll | src/common/config.cc:988-1001 | for every table, cyclic or with unknown references too: it ends, changes only values with a '$', and gives every clean option its full substitution, although slots are overwritten in place; a '$' is left only in an option that leads to a cycle or to a '$' that cannot be resolved |
| MetaExpansion.LeftDollarNamesCleanOption | src/common/config.cc:1121-1127 | a '$' that is left need not name anything unknown or cyclic: expanding "$$a" can leave a reference to a clean option |
| MetaExpansion.OrderIrrelevant | src/common/config.cc:988-1001 | the same options in another order: the same ones are clean, and they get the same texts |
| MetaExpansion.FullTextIsFree | src/common/config.cc:1017-1019 | a full substitution has no '$' where every '$' started a reference to something there is, so expanding it again changes nothing |
| MetaExpansion.HostIsFixed | src/common/config.cc:1088-1089 | $host, which reads another option's slot, does not depend on how far the expansion is |
| ConfFiles.TrimWhitespace | src/common/ConfUtils.cc:199-249 | no white space at the ends, and of each run inside its first character if asked |
| ConfFiles.TrimIs | src/common/ConfUtils.cc:199-229 | trimming leaves what is between the white space at both ends |
| ConfFiles.SqueezeRun | src/common/ConfUtils.cc:231-249 | of a run of white space inside the first character stays, and what is around it is squeezed for itself |
| ConfFiles.ProcessLine | src/common/ConfUtils.cc:395-594 | the state machine ends and never reads past the end of the line |
| ConfFiles.ConfFile.Load | src/common/ConfUtils.cc:282-388 | the loop over physical lines loads exactly the logical lines, with continuations joined and bad lines dropped |
| ConfFiles.LogicalLinesAreSound | src/common/ConfUtils.cc:318-352 | for any input, the line parser is given only UTF-8 without NUL or newline, continuations included |
| ConfFiles.LinesAreJoined | src/common/ConfUtils.cc:343-356 | lines that end in a backslash and the one behind them are one logical line: their texts one behind the other without the backslashes |
| ConfFiles.BadLineIsDropped | src/common/ConfUtils.cc:325-341 | a line with a NUL or that is not UTF-8 is dropped with all it was to be joined to |
| ConfFiles.UnfinishedIsDropped | src/common/ConfUtils.cc:303-313 | what has no newline behind it is not read |
| ConfFiles.ConfFile.Read | src/common/ConfUtils.cc:171-185 | finds a normalized key in a section, or nothing |
| ConfFiles.ReadIsLast | src/common/ConfUtils.cc:171-185 | for any input, what the last logical line for that key in that section says |
| ConfRoundTrips.PrintThenLoad | src/common/ConfUtils.cc:267-388 | for every file and every order of printing: loading the printed text gives the file back, without the entry for comments, if and only if its names, keys and values are of the kind FileOk describes |
| ConfRoundTrips.LoadedIsSound | src/common/ConfUtils.cc:282-388 | for any input, every name, key and value loaded is UTF-8 without NUL and newline, although single bytes are dropped, cut off and replaced on the way |
| ConfRoundTrips.HeaderReads | src/common/ConfUtils.cc:415-471 | a printed section header is not read, read as a shorter name, or read as it was, the last for exactly the names NameOk describes |
| ConfRoundTrips.SettingReads | src/common/ConfUtils.cc:415-503 | a printed setting that is read as a setting is read under a lighter key, or under its own; the latter only for the keys KeyOk describes |
| ConfRoundTrips.SettingReadsBack | src/common/ConfUtils.cc:272-276 | one printed section with one setting loads as itself if and only if its name, key and value are of that kind: no newline, NUL or bytes that are not UTF-8, no quote or backslash in the value, no '=' or comment sign in the key, and so on |
| ConfRoundTrips.KeyWithEqualsIsLost | src/common/ConfUtils.cc:272-276 | a file that loading can make (an escaped '=' in a key) and that printing and loading does not give back |
| ConfFiles.ConfFile.Print | src/common/ConfUtils.cc:267-280 | every section and every key but the empty one is printed, with its value |
| ConfRoundTrips.Reload | src/common/ConfUtils.cc:267-388 | the printer and the loader together give the file back if and only if it is of that kind |
| ConfFiles.QuotedReadsBack | src/common/ConfUtils.cc:544-563 | under a plain key, a value in quotes reads as itself if and only if it has no quote and no backslash |
| ConfFiles.EscapedSettingParses | src/common/ConfUtils.cc:544-563 | with escapes, every value can be written in quotes |
| ConfFiles.UnquotedParses | src/common/ConfUtils.cc:504-543 | an unquoted value is the rest of the line, unescaped and without the white space around it |
| ConfFiles.CommentEndsLine | src/common/ConfUtils.cc:504-587 | an unescaped comment marker behind a section or value ends the line |
| Utf8.DecodeEncode | src/common/utf8.c:38-110 | decoding an encoded code point gives it back, for every permitted one |
| Utf8.ChecksIsText | src/common/utf8.c:112-161 | cutting the bytes at start bytes and testing the pieces accepts exactly the concatenations of characters |
| Utf8.CharacterInTable | src/common/utf8.c:38-110 | the characters are exactly the byte sequences of the table in section 2 of RFC 2279, without overlong forms, surrogates, U+FFFE and U+FFFF, stated byte by byte |
| Utf8.HighBitsSet | src/common/utf8.c:22-32 | the number of leading ones |
| Utf8.EncodeUtf8 | src/common/utf8.c:38-71 | the shortest encoding, or failure above 0x7fffffff |
| Utf8.DecodeUtf8 | src/common/utf8.c:77-110 | the code point, or failure on a bad lead, continuation or forbidden code point |
| Utf8.CheckUtf8 | src/common/utf8.c:112-161 | 0 exactly when the buffer is a concatenation of ASCII bytes and shortest encodings of permitted code points |
| Armor.RoundTrip | src/common/armor.c:48-131 | decoding the armor of any bytes at any line width gives them back |
| Armor.GroupRoundTrip | src/common/armor.c:60-85 | three bytes, or the last one or two with padding, survive the four characters |
| Armor.GroupIsNumber | src/common/armor.c:60-78 | the four characters stand for the four times six bits of the 24-bit number, highest first, with '=' for what is not there |
| Armor.AlphabetIs | src/common/armor.c:11-16 | the 64 characters are those of table 1 of RFC 4648 |
| Armor.DecodesExactly | src/common/armor.c:18-34 | the decoder takes those characters, '-' and '_' for the last two, and '=', and no other |
| Armor.BreaksExactly | src/common/armor.c:79-84 | for a width that is a multiple of four a line break stands behind every width characters and nowhere else; for any other width there is none |
| Armor.BreaksApart | src/common/armor.c:48-92 | without its line breaks the armor is the groups of the bytes one behind the other, whatever the width |
| Armor.ArmoredLength | src/common/armor.c:86-91 | without line breaks, four characters for every three bytes begun |
| Armor.ArmorLineBreak | src/common/armor.c:48-92 | writes the armor and returns its length; -ERANGE exactly when the buffer is too small |
| Armor.UnarmorInto | src/common/armor.c:99-131 | -ERANGE exactly when the bytes before the first malformed group do not fit, -EINVAL exactly when they fit and there is such a group, else the decoded bytes and their number; in every case what was written |
| Armor.ReadableIsDecoded | src/common/armor.c:99-131 | those bytes are the decoded ones of a well-formed text, and at most three for four characters |
| Armor.EncodeBase64 | src/common/buffer.cc:1795-1801 | the buffer it allocates always suffices |
| Armor.DecodeBase64 | src/common/buffer.cc:1803-1816 | fails exactly on malformed text |
| Armor.Base64RoundTrip | src/common/buffer.cc:1795-1816 | decode_base64 undoes encode_base64 |

## Left out

- The cached cursor `last_p` of a buffer::list: offset operations start from a fresh iterator.
- ptr::append on a ptr that is not a list's append buffer, list::swap, move construction and append_zero. Copy construction is making an empty list and assigning to it.
- Encoding of buffer::list values (which share their slices), maps, sets and optional values, the legacy decode macros and encode_nohead.
- Reference counts and the rope are separate models: in the rope model allocations are never freed, and the counting model has one thread.
- CRC caching, file and socket input and output, pipes, registered memory.
- 32-bit wrap-around of lengths, offsets, counters and tids.
- An iterator's segment position is an index; it models iterators kept while a list only grows.
- Cond::Wait gives up and takes back its mutex without telling the lock-order checker; threads that wait on conditions are not part of the lock model. Recursive mutexes and locking with no_lockdep are not either.
- The unlocked test of a maximum of 0 in Throttle::get, put, take and get_or_fail, which then do nothing; their locked sections may run in any state.
- SimpleThrottle, performance counters and messages.
- Workers' own wake-ups: a worker that finds nothing sleeps for a bounded time, so its signals are not modelled; starting, stopping and resizing the pool, adding and removing queues, and queues other than WorkQueueVal.
- Which of two waiting threads gets a lock first, and that threads keep running.
- config.cc beyond expand_meta: option parsing, files, observers. The eight metavariables other than $host are fixed texts.
- MetaExpansion.Config.ExpandAll: says nothing of the text an option that is not clean ends up with; it depends on the order of the table, because such a slot may be expanded again.
- The texts and line numbers of ConfFile's errors and warnings, and parse_file's file handling.
- The position check_utf8 returns on failure.
- ShardedThreadPool, QueueRing, OutputDataSocket, formatters, the admin socket, lru_map, crypto, logging and start-up.
