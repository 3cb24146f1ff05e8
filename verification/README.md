# A model of the CDD character-device driver

The driver keeps one bounded byte buffer per minor device, shared by every file open on it, behind a
reader/writer semaphore. An open for reading only waits until there is something to read. Beside the
devices it offers `/proc/CDD` (a reference-counted directory of reports) and `/proc/myps` (the children
of a chosen task). This project models that behaviour and proves what holds in every run.

`dafny verify dfyconfig.toml` checks the whole project.

## How the model is laid out

- `CInt`, `Options`: the fixed-width conversions the C expressions go through; an optional value.
- `DeviceSpec`: what one critical section of `basic_ops.c` does to a device, and exactly what its mixed
  32/64-bit, signed/unsigned guards mean in mathematical integers.
- `CharDevice`: the file operations as methods of a class over a byte array, computing in the driver's own
  arithmetic, proved against `DeviceSpec`.
- `FileRuns`: sequences of calls on any number of open files, with reads and writes at the file's own offset
  or at a position handed in (pread, pwrite), under either allocation policy, compared with a plain file (a
  byte string, the bytes kept beyond its end, unbounded offsets).
- `BlockingOpen`: any number of threads executing the lines of open, `wait_for_content`, read, write (again at
  either kind of position) and llseek in any interleaving, a copy moving one byte a step. A history records the
  write sections in the order in which they took the lock, and what each answered; a log records every call that
  has returned. `BlockingOpenInv`, `BlockingOpenSteps` and `BlockingOpenRuns` prove that device and answers are at
  all times those of the serial replay of that history, up to what the current lock holder still has to do.
- `BlockingOpenCalls`, `BlockingOpenCallSteps`, `BlockingOpenCallTheorems`: what a returned call means in terms of
  that history and of the calls before it, and that every call of every run means it.
- `BlockingOpenProgress`, `BlockingOpenEpochs`, `BlockingOpenTheorems`, `BlockingOpenWindow`: that calls return,
  truncations and offsets, the theorems on locks, waiting and serialisability, and one run spelt out.
- `LifecycleSpec`, `Lifecycle`, `LifecycleTheorems`: `CDD_init`, `CDD_exit` and the storage routines over
  any number of minors.
- `ProcDirectory`, `ProcReports`: the `/proc/CDD` reference count with its nested marker entry, and the
  reports.
- `PidSelector`, `TaskSequence`: the one-shot PID selection and the walk over a circular list linked
  through the heap.

Two facts about the kernel are used throughout: a transfer is at most `MAX_RW_COUNT` (0x7ffff000) bytes,
and a file position plus a count stays within 64 bits.

## Where the code and its own description differ

- `basic_ops.c:224-226` says storage is allocated on first usage, but allocates at every open. The model
  takes both as a parameter, `Policy`: `EveryOpen` is the line as written, `FirstUse` the comment.
  Everything that does not depend on it is proved for both; what does depend on it has its exact
  condition: `OpenRefinesIff`, `OpenKeepsContentIff`, `OpenLosesBlockIff`, `StorageConservation`,
  `HolderMovesIff`.
- `main.c:152` stores `ALLOC_VMALLOC` for every minor while `basic_ops.c:150` chooses the allocator by
  minor. The parameter `recordType` says whether `alloc_type` records the allocator used, as its
  declaration in `CDDdev.h:39` has it; `StorageConservation` says exactly when the deallocators match.
- A device number of 0 stands for "not added to the kernel" (`main.c:181-185`). `InitAllOrNothingIff` says
  exactly when that confuses a live minor with a failed one, `ExitReleasesResources` what exit then keeps.
- Offsets are cut to `int` in write and llseek. `StepRefinesIff` and `SeekExact` say exactly when that shows,
  `WriteWrapsAtTwo32` and `SeekWrapsAtTwo32` give an input.
- The end-of-file flag of the reports is shared by all entries. `AnswerMeansHistory` says what
  interleaved readers get.

## Model

| member | source | states |
|---|---|---|
| DeviceSpec.WriteGuardsExact | basic_ops.c:325-335 | The two write guards accept exactly the writes that stay inside the buffer, even when the sum overflows int, and then `end` is the true sum |
| DeviceSpec.WriteGuardsNeedTheCountBound | basic_ops.c:326-335 | Without the kernel's bound on the count the guards would admit a write past the buffer |
| DeviceSpec.ReadCountExact | basic_ops.c:296-300 | The read length is min(count, counter - position), exactly unless the 64-bit sum wraps to below counter |
| DeviceSpec.SeekExact | basic_ops.c:358-383 | A successful seek lands in [0, counter] for every whence and offset; it equals plain arithmetic exactly unless the sum leaves int and its low 32 bits fall inside the file |
| DeviceSpec.SeekWrapsAtTwo32 | basic_ops.c:375-383 | A concrete offset for which it does not |
| DeviceSpec.SeekSumExact | basic_ops.c:358-375 | The C sum of a seek, with its conversions to int and to 64 bits on the way, is the mathematical sum cut to int once |
| DeviceSpec.WriteMeaning | basic_ops.c:325-344 | An accepted write replaces exactly its range, byte by byte, keeps every other byte including those in a gap, and extends the content to the maximum; a refused one changes nothing |
| DeviceSpec.OpenKeepsSound | basic_ops.c:224-263 | Open keeps the fill counter within the allocated block |
| DeviceSpec.WriteKeepsSound | basic_ops.c:325-344 | Write keeps the fill counter within the allocated block |
| DeviceSpec.NoGapIff | basic_ops.c:325-343 | All that an accepted write adds to the content is its own range, exactly if the device is in append mode or the position handed in is not beyond the end |
| DeviceSpec.OpenKeepsContentIff | basic_ops.c:224-230 | A later open that does not truncate preserves the content, whatever memory is handed out, exactly if the block is reused or was empty |
| DeviceSpec.OpenLosesBlockIff | basic_ops.c:226-230 | A refused allocation takes away an existing block exactly when every open allocates, and leaves the stale length |
| CharDevice.Device.constructor | main.c:125-152 | A new device is empty and has no storage |
| CharDevice.Device.AllocateStorage | basic_ops.c:143-185 | A granted block becomes the storage with its length; a refusal changes nothing |
| CharDevice.Device.Open | basic_ops.c:213-274 | The whole new state, which of the three outcomes occurs, block identity under reuse, and that a successful read-only open sees content |
| CharDevice.Device.ReadAt | basic_ops.c:285-312 | At any position: returns the slice of the content of length min(count, counter - position), advances the position by it, changes nothing else |
| CharDevice.Device.Read | basic_ops.c:285-312 | The same at the file's own offset, which it advances |
| CharDevice.Device.WriteAt | basic_ops.c:314-354 | At any position: the whole new state in mathematical integers, computed in the driver's arithmetic; a rejection changes neither device nor position |
| CharDevice.Device.Write | basic_ops.c:314-354 | The same at the file's own offset |
| CharDevice.Device.Llseek | basic_ops.c:356-384 | The stored offset lies in [0, counter], or the call fails and leaves it |
| FileRuns.StepRefinesIff | basic_ops.c:213-384 | Under either policy one call (open, close, read, write, pread, pwrite, llseek) answers and acts like a plain file exactly if no position wraps and no open exchanges the block for different bytes |
| FileRuns.OpenRefinesIff | basic_ops.c:224-263 | Under line 226 as written an open of a device with a block acts like the plain file exactly if the allocator grants a block with the old bytes (all but the first if it truncates); with reuse it always does |
| FileRuns.RunRefines | basic_ops.c:213-384 | Under either policy every sequence of calls on any number of files, as long as none of them departs in that way, gives the plain file's answers and final state |
| FileRuns.GentleRunRefines | basic_ops.c:213-384 | If no open truncates under an open file or exchanges the block's bytes, pwrite positions fit in int and seeks are by less than 2^31 less the length, offsets never leave [0, counter], in both modes, and no call departs |
| FileRuns.WriteWrapsAtTwo32 | basic_ops.c:325-343 | A concrete write that departs: offset 2^32 is written at byte 0 |
| FileRuns.TruncationOpensAGap | basic_ops.c:224-257 | After another file truncates, a write at an old offset re-exposes the memory below it, the first byte cleared: with reuse the old bytes, under line 226 as written those of the new block |
| FileRuns.PositionalWriteOpensAGap | basic_ops.c:325-343 | A pwrite beyond the end exposes the memory between the end and its position |
| FileRuns.WriteAllAppends | basic_ops.c:325-344 | Any list of chunks that fits is appended to the content in append mode or from its end |
| FileRuns.ReadAllDrains | basic_ops.c:296-308 | Reads of any positive sizes return the content in order, without loss or repetition |
| FileRuns.ZeroMeansEnd | basic_ops.c:296-300 | A read of positive size returns nothing exactly at the end |
| FileRuns.RoundTrip | basic_ops.c:285-384 | Chunks written, then a seek to 0, then reads until 0, yield the old content followed by the chunks |
| FileRuns.EnoughReads | basic_ops.c:296-308 | As many reads as there are bytes left always reach the end |
| BlockingOpenRuns.ReachableInv | basic_ops.c:86-384 | The invariant of lock, queue, wake-up, per-line knowledge, serial replay and serial answers holds in every reachable state of any number of threads |
| BlockingOpenCallTheorems.EveryCallIsFaithful | basic_ops.c:86-384 | In every run every call that returned started at its file's offset (where the file's calls before it left it) or at the position handed in, ran its section with the arguments it was given, returned what that section answers in the serial run (a read: a slice of one of its states), and left its position accordingly |
| BlockingOpenCallTheorems.WriteCallsAdvance | basic_ops.c:314-354 | A write that succeeded moved its position by exactly the count, past data its section put at the starting position; one that failed moved nothing |
| BlockingOpenCallTheorems.CallsJoinUp | basic_ops.c:307-382 | Each transfer or seek at a file's own offset starts where the file's previous one ended, whatever other threads and positional calls do in between; the first one at 0 |
| BlockingOpenCallTheorems.SeekCallsLand | basic_ops.c:356-384 | An unlocked seek racing writers goes to its base by the first look at counter plus the offset, if that fits in int and lies within the second look, else nowhere; each look sees a state of the serial run; with equal looks it is plain llseek exactly unless the sum leaves int and its low 32 bits fall inside the file |
| BlockingOpenCallTheorems.NonblockingOpenNeverWaits | basic_ops.c:92-117 | An O_NONBLOCK open is in every reachable state off the wait queue and awake |
| BlockingOpenCallTheorems.WouldBlockIff | basic_ops.c:92-100 | Having to wait, an open returns -EAGAIN exactly if it has O_NONBLOCK, and else queues itself |
| BlockingOpenCallTheorems.NonblockingOpenReturns | basic_ops.c:213-274 | An O_NONBLOCK open returns what its one section answers in the serial run, with -EAGAIN for having to wait, or that it did not get the lock |
| BlockingOpenCallTheorems.CallsAreAccountedFor | basic_ops.c:213-384 | Over every schedule the calls a thread made are, in order, those that returned to it and the one it is in, each with its own arguments |
| BlockingOpenProgress.TrylockIff | basic_ops.c:221-322 | A trylock succeeds exactly if no thread is inside, and otherwise its call returns -ERESTARTSYS at once |
| BlockingOpenProgress.CallReturns | basic_ops.c:213-384 | Any write or seek, a read no writer keeps out, and an open that may write or has O_NONBLOCK, stepped alone, is over within a number of steps computed from its place; such an open within nine |
| BlockingOpenProgress.InterruptedOpenLeaves | basic_ops.c:101-114 | With a signal pending a waiting open, asleep or about to be, stepped alone, returns -ERESTARTSYS within four steps, out of the queue and holding nothing |
| BlockingOpenProgress.OpensAreCounted | basic_ops.c:246-246 | active_opens is the number of opens that succeeded, modulo 2^32 |
| BlockingOpenEpochs.OffsetsFollowHistory | basic_ops.c:250-383 | An open file's offset is within the content while no section after the one that opened it has truncated the device |
| BlockingOpenTheorems.LockDiscipline | basic_ops.c:220-274 | A writer excludes everyone; a thread outside a call holds no lock and is in no queue, whichever way it left |
| BlockingOpenTheorems.DeviceChangesUnderTheWriteLock | basic_ops.c:224-263 | The device changes only in a step of the holder of the write lock |
| BlockingOpenTheorems.EarlyReturnIsDead | basic_ops.c:101-110 | The return that would leave a thread on the wait queue is never taken |
| BlockingOpenTheorems.NoLostWakeup | basic_ops.c:86-120 | A read-only opener that went to sleep and was not woken faces an empty device or a writer that has yet to wake it |
| BlockingOpenWindow.TheWindowIsReal | basic_ops.c:341-352 | The second case occurs: under either policy a run of two threads reaches a state with counter raised, the wake-up not yet issued, and a reader asleep |
| BlockingOpenTheorems.WakeupArrives | basic_ops.c:341-352 | That writer delivers the wake-up within three steps of its own, and the sleeper can run |
| BlockingOpenTheorems.WokenOpenerOpens | basic_ops.c:108-271 | A woken opener that finds the lock free, content and no signal completes its open in at most nine steps |
| BlockingOpenTheorems.ReadOnlyOpenSeesContent | basic_ops.c:88-119 | A read-only open succeeds only on a non-empty device and under the lock; a read-only truncating open never does |
| BlockingOpenTheorems.OnlyWritersShrinkTheDevice | basic_ops.c:250-257 | The fill counter falls only to 0, by an opener with write access that holds the lock |
| BlockingOpenTheorems.Serialisable | basic_ops.c:220-348 | With no writer inside, the device equals running the write sections one at a time in lock order; every section that has been left answered (outcome of an open, count or fault of a write) what it answers in that serial run; every completed read is a slice of one state of it |
| BlockingOpenTheorems.AnswersAreReturned | basic_ops.c:92-348 | An answer is recorded exactly when a thread gives the write lock back, by the outcome of its own section; an open told to wait goes on to its O_NONBLOCK test |
| BlockingOpenTheorems.HistoryIsLockOrder | basic_ops.c:220-326 | The history grows exactly at a lock acquisition, by the acquiring call's own section |
| BlockingOpenTheorems.ReadSeesEverythingBefore | basic_ops.c:291-311 | A completing read has seen every section entered before it ends, all of them finished |
| BlockingOpenTheorems.OffsetsStayInside | basic_ops.c:325-383 | The bound that OffsetsFollowHistory puts in terms of the history: while the truncation count is the one at its open, a file's own offset is in [0, counter] |
| BlockingOpenTheorems.WriteLeavesNoGapIff | basic_ops.c:325-343 | In every run a write past its guards leaves no gap exactly if the device is in append mode or the position handed in is not beyond the end; at the file's own offset, without a truncation since the open, it never does |
| BlockingOpenTheorems.HolderMovesIff | basic_ops.c:224-343 | A lock holder can always move, exactly except when copying from or to a missing block; with reuse there is always a block |
| BlockingOpenTheorems.HolderLetsGo | basic_ops.c:220-348 | With reuse every lock holder, stepped alone, releases its lock within a bound computed from its place |
| Lifecycle.Driver.constructor | main.c:73-73 | The module's data starts as zero |
| Lifecycle.Driver.Init | main.c:89-220 | The whole state and result of init for any failing step |
| Lifecycle.Driver.AddMinor | main.c:121-174 | One minor's bring-up and which resources it has when it fails at each step |
| Lifecycle.Driver.DropLocks | main.c:179-201 | Exactly the minors without a device number lose their locks |
| Lifecycle.Driver.AllocateForOpen | basic_ops.c:143-185 | One open's allocation under either policy |
| Lifecycle.Driver.ReleaseStorage | basic_ops.c:187-211 | A block is handed once to the deallocator its recorded type selects, which gives it back exactly if it comes from that allocator's heap |
| Lifecycle.Driver.Exit | main.c:222-272 | The whole state after exit |
| LifecycleTheorems.DeviceNumberRoundTrip | main.c:162-162 | MINOR and MAJOR read back from a device number the minor and the low twelve bits of the major |
| LifecycleTheorems.DeviceNumbersDifferIff | main.c:162-162 | Two device numbers are equal exactly if they agree in both |
| LifecycleTheorems.MkDevZeroIff | main.c:162-162 | Only minor 0 under a major divisible by 4096 gets the device number 0 |
| LifecycleTheorems.InitAllOrNothingIff | main.c:99-214 | Whatever fails, each minor ends with all its resources or none, exactly unless a live minor 0 has device number 0 |
| LifecycleTheorems.InitHolds | main.c:116-214 | The survivors are the minors before the first failure, each under its own number; the region is kept exactly if there are any; /proc/myps exactly on success |
| LifecycleTheorems.LostIff | basic_ops.c:224-230 | Over any run of opens blocks are lost exactly if every open allocates and some minor is opened again after getting one |
| LifecycleTheorems.ExitReleasesResources | main.c:229-268 | After a successful init and any opens, exit gives back every lock, device, /proc entry and the region, exactly except that under a major divisible by 4096 minor 0 keeps its own |
| LifecycleTheorems.BlocksArePlaced | basic_ops.c:143-185 | After any opens a minor has a block exactly if the opens say so; it is in the kernel heap, zone and length of that minor (4096, 16, 64, 128, 256), and alloc_len is that length |
| LifecycleTheorems.StorageFollowsOpens | basic_ops.c:224-230 | A minor has a block at the end exactly if, with reuse, some open of it got one; without, if its last open did |
| LifecycleTheorems.StorageConservation | basic_ops.c:187-211 | Under any major exit frees, once each, the blocks still pointed at (not minor 0's if it is passed over); every block reaches a deallocator that takes it exactly if the allocator was recorded or only the vmalloc minor has one; the kernel's heaps are left empty exactly if moreover none was lost to reallocation or passed over |
| LifecycleTheorems.OneBlockPerMinor | basic_ops.c:224-230 | With reuse the live blocks are exactly one per minor whose opens ever got one |
| LifecycleTheorems.BlocksStay | basic_ops.c:224-230 | With reuse a minor keeps its block through any further opens |
| ProcDirectory.ProcTree.CreateEntry | proc_ops.c:38-52 | The first creation makes the directory; each one counts, successful or not |
| ProcDirectory.ProcTree.RemoveEntry | proc_ops.c:55-67 | The last removal removes the directory |
| ProcDirectory.ProcTree.LogMarkerInit | proc_log_marker.c:62-71 | The marker is created through the count |
| ProcDirectory.ProcTree.LogMarkerExit | proc_log_marker.c:73-78 | The marker is removed through the count if its pointer is set |
| ProcDirectory.ProcTree.Init | proc_ops.c:192-210 | The whole state after initialising a minor's entry |
| ProcDirectory.ProcTree.Exit | proc_ops.c:212-231 | The whole state after removing a minor's entry |
| ProcDirectory.RunKeepsInv | proc_ops.c:38-231 | Over every interleaving, with any creations failing, the tree invariant holds and a stale marker pointer is harmless |
| ProcDirectory.PointersFollowEvents | proc_ops.c:192-231 | A history can happen exactly if each minor's inits and exits alternate, beginning with an init; and then the minors known are those whose last event is an init, each pointer telling whether its creation succeeded |
| ProcDirectory.EntriesFollowEvents | proc_ops.c:192-231 | Whichever creations fail, a minor has its entry exactly if its last event is an init whose creation succeeded |
| ProcDirectory.CountsFollowEvents | proc_ops.c:38-231 | When all creations succeed the count is the number of minors that are up plus one, or 0; directory and marker are there exactly while some minor is up; nothing missing is removed |
| ProcDirectory.CountsLiveEntries | proc_ops.c:38-231 | Without failures the count is the number of entries, the marker is live exactly with a device entry, the directory exactly while the count is positive, nothing missing is removed |
| ProcDirectory.FailuresAreNeverForgotten | proc_ops.c:43-66 | The count is right exactly if no creation failed; after one has, the directory stays for good |
| ProcReports.ReportFiles.ReadProc | proc_ops.c:122-159 | The answer and the new flags for each of the three cases |
| ProcReports.ReportFiles.WriteProc | proc_ops.c:163-184 | An accepted write marks its own entry, a faulted one nothing |
| ProcReports.AnswerMeansHistory | proc_ops.c:101-160 | Over every history a read gets a report exactly after an even number of reads of any entries, saying Written exactly if its entry was written since its own last report |
| ProcReports.SessionGetsOneReport | proc_ops.c:126-155 | From rest, a read-until-zero session gets one report, then zero, and leaves the files at rest |
| PidSelector.Selector.WritePid | proc_seq_ops.c:312-347 | A rejected write changes nothing; an accepted one stores the task's pid |
| PidSelector.Selector.StartSession | proc_seq_ops.c:115-129 | A session that gets the mutex consumes the stored pid |
| PidSelector.SessionReportsLastAccepted | proc_seq_ops.c:106-347 | Over every history a session reports on the last accepted write since the previous session, or the current task if there was none; sessions without the mutex or without memory consume nothing |
| TaskSequence.RingUnique | proc_seq_ops.c:141-153 | Head and links determine the list order |
| TaskSequence.Start | proc_seq_ops.c:106-186 | Without memory for the iterator answers NULL and keeps the selected PID; else counts the children by walking the circle, stands on the first, or answers NULL on an empty list |
| TaskSequence.Next | proc_seq_ops.c:188-202 | Advances one node, answering NULL exactly on return to the head |
| TaskSequence.Session | proc_seq_ops.c:247-275 | Every child of the selected task is shown exactly once in list order, never the head, in pos_max shows; without memory nothing is shown and the selection is kept |

## Left out

- CharDevice.Device.Open: stops with `MustWait` where `wait_for_content` would wait. That loop gives up and retakes the lock between its turns, so it is modelled by program counters in `BlockingOpen`.
- BlockingOpen: one minor, one thread at a time per open file, sequentially consistent memory; fairness of the scheduler is not modelled, so progress is stated as runs that exist for one thread stepped alone.
- ExitReleasesResources: no call in progress during exit.
- StorageConservation: a block handed to the wrong deallocator is taken to stay where it is and to be counted; what the kernel does to itself then is not modelled.
- CountsLiveEntries: `proc_mkdir` is taken to succeed.
- ProcDirectory.ProcTree.Init: the 4096-byte text block of the entry (`vmalloc`) is taken to be granted, and is not modelled.
- SessionReportsLastAccepted: a chosen task is taken to be alive when the session starts.
- TaskSequence.Session: one session from the start to the final next; restarts in the middle of long output and freeing the iterator are not modelled, because the driver does not complete that path.
- Copies between user and kernel memory are taken to succeed in `CharDevice` and `BlockingOpen`, and the extra terminator byte a read stores after its data is not modelled.
- Slab-cache handles: one is created for each minor and only the last destroyed.
- `CDD_ioctl`, `get_CDD_usage`, `CDD_poll`, `CDD_release` and `content_is_unavailable_unprot`: formatting, a constant mask, an empty body, and a function nothing calls.
- Message text, device-name formatting, name lookup and number parsing; the contents of the reports beyond the Written flag.
- The allocator, character-device, proc and task services of the kernel: their answers are parameters.
