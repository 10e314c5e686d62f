# Loopback transport, media player and radio tuner

This project models three parts of the AGL demo layers and proves properties of them.

- The virtio-loopback transport (`loopback_driver0.c`): a virtio-mmio transport whose register accesses
  are transactions with a user-space adapter over a shared page. `Mailbox` is the transaction,
  `NotifyQueue` the asynchronous notifications, `Interrupts` the interrupt routine with atomic register
  accesses, `InterruptsOverMailbox` the same routine over the mailbox, which refines it, `VirtQueues` the
  setup and teardown of queues, `SetupAlone` joins setup with the mailbox, `ShareTable` is the table of
  mappings, `RingSharing` hands the rings to user space, `ConfigSpace` is config-space access.
- The MPD media player client: `SongArt` reads album art in chunks, `MediaPlayer` holds the event
  handlers, `PositionClock` the position timer, `PlayControl` the hand-over between media and radio.
- The radio tuner, in `Radio`.

Threads of the driver are steps of one shared state, one step for each statement that another thread can
tell apart; a run is any legal sequence of steps. Code that one thread runs alone is a class with the
fields of the source, each method tied to a function of the old state, and the properties are proved about
those functions. Register behaviour is that of VIRTIO 1.2, sections 4.2.2, 4.2.3.2 and 4.2.4.

What the proofs assume of the surroundings:

- The adapter answers each signal by performing the access, storing the data of a read and issuing one
  WAKEUP. `valid_eventfd` starts true and release clears it; nothing sets it again.
- Between two opens at most 200 mappings are recorded and at most 16 version 1 queues are set up, and
  SHARE_VQS names one of 16; the source checks none of these bounds.
- Mappings are page-aligned, disjoint and shorter than 4 GiB, as mmap grants them; `RangeKeptIff` says what
  the 32-bit size field needs. The table is clear at open, since a mapping keeps the file open.
- The config space reaches as far as it is accessed.
- The radio service echoes a frequency it is asked for, and the status of the player settles between
  actions, except where a member says otherwise.

Where the code differs from what its comments or structure suggest, the code is modelled and a member
states the exact condition: the notification worker takes an entry off an empty list after release
(`FaultExactly`); teardowns and failed setups leave stale page frames in `vq_pfns` (`Reprobe`,
`RebindOutOfStep`); FM pressed before a status event leaves MPD playing under the radio (`NeverTogetherIff`);
a queue event resets the play state but not the timer (`TimerFollowsReports`); a second press of FM forgets
that the player was playing (`TripResumesIff`); replies without a chunk keep the art loop going once it has a
size (`EndsExactlyWhenComplete`; the variable `first` of that loop is never cleared, so a size of 0 ends it at
any time); a frequency outside the band is asked for when the band arrives before the frequency
(`RequestsInBandIff`); an upper limit off the grid is asked for all the same (`RequestsOnGridIff`); no event
ever sets `scanning` (`FieldsFollowLastEvent`).

## Model

| member | source | states |
|---|---|---|
| Mailbox.Linearizable | meta-agl-demo-ces2024-ic/recipes-kernel/kernel-module-virtio-sound/kernel-module-virtio-sound-0/loopback_driver0.c:1037-1111 | for any threads, any device that may also change on its own at any moment, and every interleaving while the file is open: each thread's calls are exactly the requests it made, in order; at any time the device is where the trace of accesses and own moves leads, the accesses in it are those of the calls in lock order, and each finished call returned what its own access replied at its place in the trace |
| Mailbox.ReturnsAnswerRequests | meta-agl-demo-ces2024-ic/recipes-kernel/kernel-module-virtio-sound/kernel-module-virtio-sound-0/loopback_driver0.c:1037-1111 | the k-th return of a thread is the device's reply to the k-th request that thread made, performed as requested, with function, size and data, at one moment of the trace |
| Mailbox.AskedIsMade | meta-agl-demo-ces2024-ic/recipes-kernel/kernel-module-virtio-sound/kernel-module-virtio-sound-0/loopback_driver0.c:1037-1111 | in every run, open or released, the requests that got the lock and the one that waits for it are exactly what the thread asked for, each once and in order |
| Mailbox.FetchedIsPosted | meta-agl-demo-ces2024-ic/recipes-kernel/kernel-module-virtio-sound/kernel-module-virtio-sound-0/loopback_driver0.c:1046-1060 | when the adapter performs an access, the thread that has the lock is waiting for exactly that access |
| Mailbox.EarlierAnswersStand | meta-agl-demo-ces2024-ic/recipes-kernel/kernel-module-virtio-sound/kernel-module-virtio-sound-0/loopback_driver0.c:1037-1111 | what was answered while the file was open stays the reply of its own access, also after release |
| Mailbox.InvStep | meta-agl-demo-ces2024-ic/recipes-kernel/kernel-module-virtio-sound/kernel-module-virtio-sound-0/loopback_driver0.c:1037-1111 | every statement of a driver thread, of the adapter, of the device and of release keeps mutual exclusion and, while the file is open, the state of the transaction: which fields are posted, whether the signal, the access or the answer is outstanding |
| Mailbox.LoopExit | meta-agl-demo-ces2024-ic/recipes-kernel/kernel-module-virtio-sound/kernel-module-virtio-sound-0/loopback_driver0.c:1068-1071 | the wait loop is left exactly when the file was released or done is 1; while the file is open, done means that this call's access was performed and a read finds the reply of that access on the page |
| Mailbox.PendingEnds | meta-agl-demo-ces2024-ic/recipes-kernel/kernel-module-virtio-sound/kernel-module-virtio-sound-0/loopback_driver0.c:1060-1076 | no lost wake-up: once done is 1 or the file is released, the waiting thread can always move and returns within five of its statements, whatever kicks it missed and whatever else runs |
| Mailbox.AnswerArrives | meta-agl-demo-ces2024-ic/recipes-kernel/kernel-module-virtio-sound/kernel-module-virtio-sound-0/loopback_driver0.c:1195-1198 | while the answer is outstanding the adapter can always move and five of its steps bring it, unless the call has ended meanwhile |
| Mailbox.CallReturns | meta-agl-demo-ces2024-ic/recipes-kernel/kernel-module-virtio-sound/kernel-module-virtio-sound-0/loopback_driver0.c:1046-1076 | a call that has the lock returns once its thread ran six statements, the adapter five steps and the thread five more statements, whatever else runs in between; after release without the adapter |
| Mailbox.NobodyStuck | meta-agl-demo-ces2024-ic/recipes-kernel/kernel-module-virtio-sound/kernel-module-virtio-sound-0/loopback_driver0.c:1046-1076 | no deadlock: every thread in a call can run, or waits for the lock of a thread that can; while the holder's answer is outstanding the adapter can run too |
| Mailbox.ReleasedCallsReturnZero | meta-agl-demo-ces2024-ic/recipes-kernel/kernel-module-virtio-sound/kernel-module-virtio-sound-0/loopback_driver0.c:1302-1325 | after release, with the adapter gone, no access reaches the device, whose own moves are all that happens to it, and every read returns 0 |
| Mailbox.ReleaseSilences | meta-agl-demo-ces2024-ic/recipes-kernel/kernel-module-virtio-sound/kernel-module-virtio-sound-0/loopback_driver0.c:1302-1325 | over every run that contains a release: from the moment the adapter stops, no access is performed and every call returns 0, except that a call that has the lock already may still return its answer |
| SetupAlone.SetterSeesItselfAlone | meta-agl-demo-ces2024-ic/recipes-kernel/kernel-module-virtio-sound/kernel-module-virtio-sound-0/loopback_driver0.c:449-541 | queue setup spans several accesses with the lock dropped in between; if it alone writes queue registers, its calls return, and the queue registers are at any time, what its own accesses alone give, in every interleaving of the mailbox |
| NotifyQueue.ConservedFifo | meta-agl-demo-ces2024-ic/recipes-kernel/kernel-module-virtio-sound/kernel-module-virtio-sound-0/loopback_driver0.c:329-384 | in every reachable state every notification of an index is written to the device, in flight, pending, or with its producer still to be appended, each exactly once; the appended ones are in order; the worker takes an entry off an empty list only after release |
| NotifyQueue.EveryNotificationArrives | meta-agl-demo-ces2024-ic/recipes-kernel/kernel-module-virtio-sound/kernel-module-virtio-sound-0/loopback_driver0.c:336-380 | while the file is open, after six worker steps an appended entry and five more every notification whose producer had appended it is written to the device, each index as often as it was notified, in the order of the lock |
| NotifyQueue.WorkerNeverStuck | meta-agl-demo-ces2024-ic/recipes-kernel/kernel-module-virtio-sound/kernel-module-virtio-sound-0/loopback_driver0.c:336-352 | while the file is open the worker can run, or a producer holds the lock that can run itself and frees the lock within two of its statements |
| NotifyQueue.NobodyStuck | meta-agl-demo-ces2024-ic/recipes-kernel/kernel-module-virtio-sound/kernel-module-virtio-sound-0/loopback_driver0.c:366-384 | while the file is open a thread can notify at any time, and a producer can run or waits for the lock of a thread that can |
| NotifyQueue.FaultExactly | meta-agl-demo-ces2024-ic/recipes-kernel/kernel-module-virtio-sound/kernel-module-virtio-sound-0/loopback_driver0.c:338-347 | from its test the worker takes an entry off an empty list if and only if the file is released and the list is empty, whatever other threads do in between |
| NotifyQueue.FaultReachable | meta-agl-demo-ces2024-ic/recipes-kernel/kernel-module-virtio-sound/kernel-module-virtio-sound-0/loopback_driver0.c:338-358 | a run of four steps that ends in that fault |
| NotifyQueue.AtMostOneAfterRelease | meta-agl-demo-ces2024-ic/recipes-kernel/kernel-module-virtio-sound/kernel-module-virtio-sound-0/loopback_driver0.c:349-358 | after release at most one more index is written |
| Interrupts.NoInterruptLost | meta-agl-demo-ces2024-ic/recipes-kernel/kernel-module-virtio-sound/kernel-module-virtio-sound-0/loopback_driver0.c:387-413 | while queues are added and removed: every raise of the configuration or ring bit, at any moment, is followed by a run of each handler it concerns, or by the listing or removal of that handler's queue, or the bit is still set, or the one call holding interrupt_lock has read it and will still run the handler |
| Interrupts.AcknowledgedMeansHandled | meta-agl-demo-ces2024-ic/recipes-kernel/kernel-module-virtio-sound/kernel-module-virtio-sound-0/loopback_driver0.c:398-411 | whenever interrupt_lock is free each handler whose queue stayed on the list ran exactly as often as its bit was acknowledged, and never more often than the bit was raised |
| Interrupts.LateBitStaysPending | meta-agl-demo-ces2024-ic/recipes-kernel/kernel-module-virtio-sound/kernel-module-virtio-sound-0/loopback_driver0.c:399-400 | a bit raised after the status was read, and not in it, is still set after the acknowledgement |
| Interrupts.CallHandles | meta-agl-demo-ces2024-ic/recipes-kernel/kernel-module-virtio-sound/kernel-module-virtio-sound-0/loopback_driver0.c:399-411 | in every run, an interrupt call that takes interrupt_lock while a bit is raised has, when it returns, acknowledged the bit and run every handler of it whose queue was on the list all the while |
| Interrupts.CallsAcknowledge | meta-agl-demo-ces2024-ic/recipes-kernel/kernel-module-virtio-sound/kernel-module-virtio-sound-0/loopback_driver0.c:395-400 | over every run each interrupt call acknowledges exactly once, unless it has not come that far |
| Interrupts.HolderReturns | meta-agl-demo-ces2024-ic/recipes-kernel/kernel-module-virtio-sound/kernel-module-virtio-sound-0/loopback_driver0.c:395-413 | the call that has interrupt_lock can always run, and returns within six statements and one for each queue on the list or added meanwhile |
| Interrupts.NobodyStuck | meta-agl-demo-ces2024-ic/recipes-kernel/kernel-module-virtio-sound/kernel-module-virtio-sound-0/loopback_driver0.c:395-413 | every thread can start an interrupt call, run the one it is in, or waits for one that can run |
| Interrupts.RaisesAreLogged | meta-agl-demo-ces2024-ic/recipes-kernel/kernel-module-virtio-sound/kernel-module-virtio-sound-0/loopback_driver0.c:399-399 | the raises that the results speak of are exactly those of the device in the run |
| Interrupts.ListFollowsRun | meta-agl-demo-ces2024-ic/recipes-kernel/kernel-module-virtio-sound/kernel-module-virtio-sound-0/loopback_driver0.c:416-425 | a queue is on the list when it was put there once more than it was taken off |
| InterruptsOverMailbox.StepRefines | meta-agl-demo-ces2024-ic/recipes-kernel/kernel-module-virtio-sound/kernel-module-virtio-sound-0/loopback_driver0.c:387-413 | with the two register accesses as calls over the mailbox, every step of a thread, the adapter or the device is one step of the atomic routine, at the moment the adapter performs the access, or none |
| InterruptsOverMailbox.RunIsAtomic | meta-agl-demo-ces2024-ic/recipes-kernel/kernel-module-virtio-sound/kernel-module-virtio-sound-0/loopback_driver0.c:387-413 | every run over the mailbox is a run of the atomic routine that ends in the same register, lock, queue list and log of raises, acknowledgements and handler runs |
| InterruptsOverMailbox.NoInterruptLost | meta-agl-demo-ces2024-ic/recipes-kernel/kernel-module-virtio-sound/kernel-module-virtio-sound-0/loopback_driver0.c:387-413 | no raise is lost when other threads use the mailbox at the same time and the device raises bits while an access is under way |
| InterruptsOverMailbox.AcknowledgedMeansHandled | meta-agl-demo-ces2024-ic/recipes-kernel/kernel-module-virtio-sound/kernel-module-virtio-sound-0/loopback_driver0.c:398-411 | over the mailbox too each handler runs exactly as often as its bit is acknowledged at the device |
| InterruptsOverMailbox.CallHandles | meta-agl-demo-ces2024-ic/recipes-kernel/kernel-module-virtio-sound/kernel-module-virtio-sound-0/loopback_driver0.c:399-411 | the same of a call over the mailbox: the bit raised at the device when it takes interrupt_lock is acknowledged and its handlers have run when it returns |
| InterruptsOverMailbox.LogFollowsRun | meta-agl-demo-ces2024-ic/recipes-kernel/kernel-module-virtio-sound/kernel-module-virtio-sound-0/loopback_driver0.c:395-413 | over every run over the mailbox each interrupt call acknowledges exactly once, the raises in the log are those of the device, and the list follows the queues |
| InterruptsOverMailbox.HolderReturns | meta-agl-demo-ces2024-ic/recipes-kernel/kernel-module-virtio-sound/kernel-module-virtio-sound-0/loopback_driver0.c:395-413 | the call that has interrupt_lock returns within eight moves and one for each queue; its next move is a statement it can run or the return of its register access, for which some thread can run |
| InterruptsOverMailbox.RunIsMailbox | meta-agl-demo-ces2024-ic/recipes-kernel/kernel-module-virtio-sound/kernel-module-virtio-sound-0/loopback_driver0.c:387-413 | every run of the routine with all other threads is a run of the mailbox, so that its results hold of the two accesses |
| InterruptsOverMailbox.AccessReturns | meta-agl-demo-ces2024-ic/recipes-kernel/kernel-module-virtio-sound/kernel-module-virtio-sound-0/loopback_driver0.c:399-400 | a register access of the routine that has the mailbox returns within the bound of the mailbox |
| InterruptsOverMailbox.WordRoundTrip | meta-agl-demo-ces2024-ic/recipes-kernel/kernel-module-virtio-sound/kernel-module-virtio-sound-0/loopback_driver0.c:399-405 | the status word names exactly the raised bits, so that writing it back acknowledges exactly those |
| VirtQueues.Transport.SetupVq | meta-agl-demo-ces2024-ic/recipes-kernel/kernel-module-virtio-sound/kernel-module-virtio-sound-0/loopback_driver0.c:449-565 | it succeeds if and only if the activation register read zero, the device offers entries, both allocations succeeded and in version 1 the ring lies below 2^44; for every failure point: the exact error, both lists and the activation register as before; on success the device finds the three parts of the ring from its registers; no other queue is touched; what is recorded in vq_pfns |
| VirtQueues.SetupErrorMeans | meta-agl-demo-ces2024-ic/recipes-kernel/kernel-module-virtio-sound/kernel-module-virtio-sound-0/loopback_driver0.c:461-521 | the exact condition of success and of each of the three errors, in terms of the registers and the allocations |
| VirtQueues.RingAddress | meta-agl-demo-ces2024-ic/recipes-kernel/kernel-module-virtio-sound/kernel-module-virtio-sound-0/loopback_driver0.c:497-524 | a version 1 device computes the address of a page-aligned ring from the page frame it was given and pages of 4 KiB |
| VirtQueues.Transport.DelVqs | meta-agl-demo-ces2024-ic/recipes-kernel/kernel-module-virtio-sound/kernel-module-virtio-sound-0/loopback_driver0.c:416-447 | every listed queue loses its activation register and nothing else, both lists are emptied, no other queue is touched |
| VirtQueues.Transport.FindVqs | meta-agl-demo-ces2024-ic/recipes-kernel/kernel-module-virtio-sound/kernel-module-virtio-sound-0/loopback_driver0.c:567-591 | all or nothing: it succeeds if and only if every named entry's queue is usable on the untouched device, with consecutive queues for the named entries, each with its own ring; else the error of the first refused entry with no queue left and every activation register at its starting value; in both cases exactly which page frames were recorded in vq_pfns |
| VirtQueues.FindErrorIsFirst | meta-agl-demo-ces2024-ic/recipes-kernel/kernel-module-virtio-sound/kernel-module-virtio-sound-0/loopback_driver0.c:576-588 | the reported error is that of the first entry that cannot be set up on the untouched device, and there is none if every entry can |
| VirtQueues.FramesInOrder | meta-agl-demo-ces2024-ic/recipes-kernel/kernel-module-virtio-sound/kernel-module-virtio-sound-0/loopback_driver0.c:494-524 | when every entry is served, the recorded page frames are those the device has, queue by queue |
| RingSharing.Loopback.Probe | meta-agl-demo-ces2024-ic/recipes-kernel/kernel-module-virtio-sound/kernel-module-virtio-sound-0/loopback_driver0.c:494-524 | after a successful setup since open, entry k of vq_pfns is the page frame the device has for queue k, for every queue; a failed one leaves no queue and every activation register as before, but the page frames recorded up to the refused entry stay in vq_pfns |
| RingSharing.Loopback.OpMmap | meta-agl-demo-ces2024-ic/recipes-kernel/kernel-module-virtio-sound/kernel-module-virtio-sound-0/loopback_driver0.c:1009-1035 | which of the three kinds of mapping an mmap is, and exactly what it records in the table |
| RingSharing.Loopback.ShareRing | meta-agl-demo-ces2024-ic/recipes-kernel/kernel-module-virtio-sound/kernel-module-virtio-sound-0/loopback_driver0.c:1222-1228 | sharing queue k and mapping up to 100 pages records exactly that queue's ring, and every address of the mapping translates into it |
| RingSharing.Loopback.ShareBuffer | meta-agl-demo-ces2024-ic/recipes-kernel/kernel-module-virtio-sound/kernel-module-virtio-sound-0/loopback_driver0.c:1229-1234 | sharing the buffer at a physical address and mapping up to 100 pages: every address of the mapping translates to the byte of the buffer as far from its start |
| RingSharing.Loopback.MapRam | meta-agl-demo-ces2024-ic/recipes-kernel/kernel-module-virtio-sound/kernel-module-virtio-sound-0/loopback_driver0.c:1020-1024 | the n-th mapping of more than 100 pages stands for the n-th GiB of physical memory, byte for byte |
| RingSharing.Loopback.Reprobe | meta-agl-demo-ces2024-ic/recipes-kernel/kernel-module-virtio-sound/kernel-module-virtio-sound-0/loopback_driver0.c:503-503 | after a teardown or a failed setup the recorded page frames stay and the new ones go after them; the queues are in step if and only if the old record followed by the new page frames begins with the new ones, that is, with no more queues than recorded entries, if and only if every ring landed on the page frame recorded at its queue's place |
| RingSharing.RebindOutOfStep | meta-agl-demo-ces2024-ic/recipes-kernel/kernel-module-virtio-sound/kernel-module-virtio-sound-0/loopback_driver0.c:503-503 | an input on which it fails: one queue whose ring moved by a page between two setups is live on the new page while its entry is the old one |
| ShareTable.Table.AddShareMmap | meta-agl-demo-ces2024-ic/recipes-kernel/kernel-module-virtio-sound/kernel-module-virtio-sound-0/loopback_driver0.c:758-770 | one slot is written, at mmap_index, with the size cut to 32 bits |
| ShareTable.Table.ShareMmapRem | meta-agl-demo-ces2024-ic/recipes-kernel/kernel-module-virtio-sound/kernel-module-virtio-sound-0/loopback_driver0.c:775-789 | exactly the slots with that start address are cleared |
| ShareTable.Table.ReturnCorrectPfn | meta-agl-demo-ces2024-ic/recipes-kernel/kernel-module-virtio-sound/kernel-module-virtio-sound-0/loopback_driver0.c:836-854 | the loop returns the translation of the first slot that holds the address, or 0 |
| ShareTable.Table.ReturnCorrectAddr | meta-agl-demo-ces2024-ic/recipes-kernel/kernel-module-virtio-sound/kernel-module-virtio-sound-0/loopback_driver0.c:813-830 | the loop returns the translation of the first slot of that process that holds the page frame, or 0 |
| ShareTable.StepRepresents | meta-agl-demo-ces2024-ic/recipes-kernel/kernel-module-virtio-sound/kernel-module-virtio-sound-0/loopback_driver0.c:758-789 | an addition or a removal keeps the table in correspondence with the map of live mappings |
| ShareTable.LookupRefinesMap | meta-agl-demo-ces2024-ic/recipes-kernel/kernel-module-virtio-sound/kernel-module-virtio-sound-0/loopback_driver0.c:836-854 | after any legal sequence of at most 200 additions, mixed with removals, lookup of every address agrees with the map of live mappings and is 0 outside all of them |
| ShareTable.SlotAgrees | meta-agl-demo-ces2024-ic/recipes-kernel/kernel-module-virtio-sound/kernel-module-virtio-sound-0/loopback_driver0.c:841-843 | a slot holds an address exactly as its live mapping covers it; a cleared slot never does |
| ShareTable.PfnFoundIff | meta-agl-demo-ces2024-ic/recipes-kernel/kernel-module-virtio-sound/kernel-module-virtio-sound-0/loopback_driver0.c:813-830 | a page frame is found if and only if a live mapping of that process covers it, and the address yielded lies as far into such a mapping as the page frame |
| ShareTable.PfnRoundTrip | meta-agl-demo-ces2024-ic/recipes-kernel/kernel-module-virtio-sound/kernel-module-virtio-sound-0/loopback_driver0.c:813-854 | translating a found page frame to an address and back gives the same page frame |
| ShareTable.RangeKeptIff | meta-agl-demo-ces2024-ic/recipes-kernel/kernel-module-virtio-sound/kernel-module-virtio-sound-0/loopback_driver0.c:169-176 | a recorded slot holds exactly the addresses of its mapping if and only if the mapping is shorter than 4 GiB |
| ConfigSpace.ConfigDevice.VmGet | meta-agl-demo-ces2024-ic/recipes-kernel/kernel-module-virtio-sound/kernel-module-virtio-sound-0/loopback_driver0.c:220-259 | both versions yield exactly the device's bytes; it is a BUG exactly in version 2 with a length other than 1, 2, 4 and 8 |
| ConfigSpace.ConfigDevice.VmSet | meta-agl-demo-ces2024-ic/recipes-kernel/kernel-module-virtio-sound/kernel-module-virtio-sound-0/loopback_driver0.c:261-301 | both versions store exactly the buffer's bytes and change no other byte; it is a BUG exactly in version 2 with a length other than 1, 2, 4 and 8 |
| ConfigSpace.ConfigDevice.SetThenGet | meta-agl-demo-ces2024-ic/recipes-kernel/kernel-module-virtio-sound/kernel-module-virtio-sound-0/loopback_driver0.c:220-301 | what either version sets, either version gets back |
| ConfigSpace.WritePathsAgree | meta-agl-demo-ces2024-ic/recipes-kernel/kernel-module-virtio-sound/kernel-module-virtio-sound-0/loopback_driver0.c:273-296 | writing single bytes, writing one little-endian word and replacing the bytes are the same, for every length |
| ConfigSpace.ReadPathsAgree | meta-agl-demo-ces2024-ic/recipes-kernel/kernel-module-virtio-sound/kernel-module-virtio-sound-0/loopback_driver0.c:232-255 | reading single bytes and reading one little-endian word yield the same bytes, for every length |
| ConfigSpace.LittleEndian | meta-agl-demo-ces2024-ic/recipes-kernel/kernel-module-virtio-sound/kernel-module-virtio-sound-0/loopback_driver0.c:236-296 | the lowest byte of a word comes first |
| SongArt.ArtReader.ReadChunks | meta-agl-demo-ces2024-demoivi/recipes-demo/flutter-ics-homescreen/flutter-ics-homescreen/0002-Initial-mediaplayer-implementation.patch:588-620 | the chunk loop computes the fold over the server's replies |
| SongArt.ArtReader.ReadSongArt | meta-agl-demo-ces2024-demoivi/recipes-demo/flutter-ics-homescreen/flutter-ics-homescreen/0002-Initial-mediaplayer-implementation.patch:568-627 | one read at a time for a position; what is stored is empty or whole |
| SongArt.NeverPartial | meta-agl-demo-ces2024-demoivi/recipes-demo/flutter-ics-homescreen/flutter-ics-homescreen/0002-Initial-mediaplayer-implementation.patch:588-620 | whatever the server replies, the stored art is empty or all bytes received, as many as the size reported last |
| SongArt.PictureIsWhole | meta-agl-demo-ces2024-demoivi/recipes-demo/flutter-ics-homescreen/flutter-ics-homescreen/0002-Initial-mediaplayer-implementation.patch:588-620 | any split of a picture into non-empty pieces is put together again |
| SongArt.EarlyStopOrOverrunIsEmpty | meta-agl-demo-ces2024-demoivi/recipes-demo/flutter-ics-homescreen/flutter-ics-homescreen/0002-Initial-mediaplayer-implementation.patch:604-620 | an empty piece before the end, or bytes past the reported size, leave the art empty |
| SongArt.EndsExactlyWhenComplete | meta-agl-demo-ces2024-demoivi/recipes-demo/flutter-ics-homescreen/flutter-ics-homescreen/0002-Initial-mediaplayer-implementation.patch:588-612 | a read ends if and only if its first reply is missing, which leaves empty art, or the picture's bytes have come; later replies without a chunk stall it for ever |
| SongArt.ZeroSizeIsEmpty | meta-agl-demo-ces2024-demoivi/recipes-demo/flutter-ics-homescreen/flutter-ics-homescreen/0002-Initial-mediaplayer-implementation.patch:594-598 | a reported size of 0 ends the read without art, whatever was read before |
| MediaPlayer.MpdClient.HandleQueueEvent | meta-agl-demo-ces2024-demoivi/recipes-demo/flutter-ics-homescreen/flutter-ics-homescreen/0002-Initial-mediaplayer-implementation.patch:411-470 | playlist, current song and art bookkeeping after a queue event; the position clock is not touched |
| MediaPlayer.MpdClient.HandlePlayerEvent | meta-agl-demo-ces2024-demoivi/recipes-demo/flutter-ics-homescreen/flutter-ics-homescreen/0002-Initial-mediaplayer-implementation.patch:472-566 | song, play state, clock and art bookkeeping after a player event; which events are ignored or throw; the timer is live exactly when the reported state is playing |
| MediaPlayer.PlaylistInOrder | meta-agl-demo-ces2024-demoivi/recipes-demo/flutter-ics-homescreen/flutter-ics-homescreen/0002-Initial-mediaplayer-implementation.patch:417-469 | the playlist is the in-order list of the songs that have a position, each entry with the song's joined tags, file, duration and position |
| MediaPlayer.CurrentIsListed | meta-agl-demo-ces2024-demoivi/recipes-demo/flutter-ics-homescreen/flutter-ics-homescreen/0002-Initial-mediaplayer-implementation.patch:449-468 | the song a queue event makes current is an entry of the new playlist, at position 0; there is none exactly when no song has position 0 |
| MediaPlayer.HandlersAgreeIff | meta-agl-demo-ces2024-demoivi/recipes-demo/flutter-ics-homescreen/flutter-ics-homescreen/0002-Initial-mediaplayer-implementation.patch:427-504 | the two handlers describe a song alike if and only if no tag has several values or none |
| MediaPlayer.JoinSnoc | meta-agl-demo-ces2024-demoivi/recipes-demo/flutter-ics-homescreen/flutter-ics-homescreen/0002-Initial-mediaplayer-implementation.patch:426-440 | the values of a tag are set one after the other with a space in between |
| MediaPlayer.SongFollowsEvents | meta-agl-demo-ces2024-demoivi/recipes-demo/flutter-ics-homescreen/flutter-ics-homescreen/0002-Initial-mediaplayer-implementation.patch:411-546 | over every run the current song is that of the last event that named one: a player event with a song, shown with the first value of each tag, or a queue event, with its last song at position 0 or none |
| MediaPlayer.PositionFollowsReports | meta-agl-demo-ces2024-demoivi/recipes-demo/flutter-ics-homescreen/flutter-ics-homescreen/0002-Initial-mediaplayer-implementation.patch:515-520 | over every run the position, ticks aside, is the elapsed time reported last in whole milliseconds |
| MediaPlayer.ArtKnownIff | meta-agl-demo-ces2024-demoivi/recipes-demo/flutter-ics-homescreen/flutter-ics-homescreen/0002-Initial-mediaplayer-implementation.patch:461-463 | over every run of events and ends of reads a position has an art entry if and only if its art was wanted since the queue changed last |
| MediaPlayer.ArtAskedOnce | meta-agl-demo-ces2024-demoivi/recipes-demo/flutter-ics-homescreen/flutter-ics-homescreen/0002-Initial-mediaplayer-implementation.patch:547-565 | the art of a playing song is asked for if and only if it was not since the queue changed last; a song without a file gets empty art |
| MediaPlayer.SongAndPositionConsistent | meta-agl-demo-ces2024-demoivi/recipes-demo/flutter-ics-homescreen/flutter-ics-homescreen/0002-Initial-mediaplayer-implementation.patch:253-274 | over every run of queue and player events the current song is absent exactly when the playlist position is -1, and else has that position |
| MediaPlayer.TimerFollowsReports | meta-agl-demo-ces2024-demoivi/recipes-demo/flutter-ics-homescreen/flutter-ics-homescreen/0002-Initial-mediaplayer-implementation.patch:411-546 | over every run the timer is live exactly when the last reported state is play, and the play state is playing or paused exactly when that was reported last and the queue did not change since; the two disagree if and only if the queue changed since a reported play |
| PositionClock.PositionNotifier.Play | meta-agl-demo-ces2024-demoivi/recipes-demo/flutter-ics-homescreen/flutter-ics-homescreen/0002-Initial-mediaplayer-implementation.patch:296-301 | exactly one timer is live afterwards; a repeated play starts no second one |
| PositionClock.PositionNotifier.Pause | meta-agl-demo-ces2024-demoivi/recipes-demo/flutter-ics-homescreen/flutter-ics-homescreen/0002-Initial-mediaplayer-implementation.patch:303-308 | no timer is live afterwards |
| PositionClock.ClockAccounting | meta-agl-demo-ces2024-demoivi/recipes-demo/flutter-ics-homescreen/flutter-ics-homescreen/0002-Initial-mediaplayer-implementation.patch:284-309 | over every run the position is the value set last and 250 ms for each tick since, and ticks come only between a play and the next pause |
| PlayControl.MediaPage.OnPressed | meta-agl-demo-ces2024-demoivi/recipes-demo/flutter-ics-homescreen/flutter-ics-homescreen/0002-Initial-mediaplayer-implementation.patch:1097-1120 | the effect of a navigation press on source, server and radio |
| PlayControl.MediaPage.ControllerPlay | meta-agl-demo-ces2024-demoivi/recipes-demo/flutter-ics-homescreen/flutter-ics-homescreen/0002-Initial-mediaplayer-implementation.patch:714-725 | play reaches the selected source only |
| PlayControl.MediaPage.ControllerPause | meta-agl-demo-ces2024-demoivi/recipes-demo/flutter-ics-homescreen/flutter-ics-homescreen/0002-Initial-mediaplayer-implementation.patch:727-738 | pause reaches the selected source only |
| PlayControl.NeverTogether | meta-agl-demo-ces2024-demoivi/recipes-demo/flutter-ics-homescreen/flutter-ics-homescreen/0002-Initial-mediaplayer-implementation.patch:700-739 | with settled status, over any run, MPD plays only when media is selected and the radio only when the radio is, so never both |
| PlayControl.LastActionDecides | meta-agl-demo-ces2024-demoivi/recipes-demo/flutter-ics-homescreen/flutter-ics-homescreen/0002-Initial-mediaplayer-implementation.patch:697-739 | what plays after any settled run and one more action: the pause of the volume bar silences what is selected, its play starts it if it can, FM plays the radio alone, media silences the radio, opening the page selects what its tab says |
| PlayControl.NeverTogetherIff | meta-agl-demo-ces2024-demoivi/recipes-demo/flutter-ics-homescreen/flutter-ics-homescreen/0002-Initial-mediaplayer-implementation.patch:1097-1120 | with status events that come at any time, over any run, MPD and radio never play together if and only if FM is never pressed while the server plays and the mirror does not say so |
| PlayControl.StaleMirrorPlaysBoth | meta-agl-demo-ces2024-demoivi/recipes-demo/flutter-ics-homescreen/flutter-ics-homescreen/0002-Initial-mediaplayer-implementation.patch:1099-1109 | a run on which they do: play and FM before the status event; after a pause with settled status a settled play makes both play again, with no further press of FM |
| PlayControl.TripResumesIff | meta-agl-demo-ces2024-demoivi/recipes-demo/flutter-ics-homescreen/flutter-ics-homescreen/0002-Initial-mediaplayer-implementation.patch:1097-1118 | after a trip from media to FM and back MPD plays if and only if it played before and FM was pressed once |
| PlayControl.MediaPressRestartsIff | meta-agl-demo-ces2024-demoivi/recipes-demo/flutter-ics-homescreen/flutter-ics-homescreen/0002-Initial-mediaplayer-implementation.patch:1102-1117 | after any settled run that ends with media selected and silent, a further press of media starts the player if and only if MPD was playing when FM was pressed last, however long ago, and the player can start |
| Radio.RadioClient.SetFrequency | meta-agl-demo-ces2024-demoivi/recipes-demo/flutter-ics-homescreen/flutter-ics-homescreen/0001-Initial-radio-implementation.patch:489-503 | what is sent, what is refused, and that the remainder throws exactly for a frequency in the band when the step is zero |
| Radio.SetAcceptsGrid | meta-agl-demo-ces2024-demoivi/recipes-demo/flutter-ics-homescreen/flutter-ics-homescreen/0001-Initial-radio-implementation.patch:491-493 | setFrequency sends exactly the points min + k * step with 0 <= k <= (max - min) / step |
| Radio.TuningIsWalk | meta-agl-demo-ces2024-demoivi/recipes-demo/flutter-ics-homescreen/flutter-ics-homescreen/0001-Initial-radio-implementation.patch:505-535 | with the upper limit on the grid every mix of settings and tunings is a walk on 0..n that stops at both ends |
| Radio.ForwardBackwardIdentityIff | meta-agl-demo-ces2024-demoivi/recipes-demo/flutter-ics-homescreen/flutter-ics-homescreen/0001-Initial-radio-implementation.patch:505-535 | forward then backward is the identity if and only if away from the upper edge (or on a band narrower than a step, from its lower end) |
| Radio.RequestsOnGridIff | meta-agl-demo-ces2024-demoivi/recipes-demo/flutter-ics-homescreen/flutter-ics-homescreen/0001-Initial-radio-implementation.patch:489-535 | every request of every run from a grid point is on the grid if and only if the upper limit is |
| Radio.ForwardSaturates | meta-agl-demo-ces2024-demoivi/recipes-demo/flutter-ics-homescreen/flutter-ics-homescreen/0001-Initial-radio-implementation.patch:505-519 | n calls of tuneForward reach exactly the smaller of f + n * step and max, on or off the grid |
| Radio.BackwardSaturates | meta-agl-demo-ces2024-demoivi/recipes-demo/flutter-ics-homescreen/flutter-ics-homescreen/0001-Initial-radio-implementation.patch:521-535 | n calls of tuneBackward reach exactly the larger of f - n * step and min |
| Radio.EdgeReachedAfter | meta-agl-demo-ces2024-demoivi/recipes-demo/flutter-ics-homescreen/flutter-ics-homescreen/0001-Initial-radio-implementation.patch:507-511 | the upper limit is reached after exactly the rounded-up quotient of calls, and from then on nothing is sent |
| Radio.SilentBeforeBand | meta-agl-demo-ces2024-demoivi/recipes-demo/flutter-ics-homescreen/flutter-ics-homescreen/0001-Initial-radio-implementation.patch:811-817 | before any event arrives no action sends anything |
| Radio.BandBeforeFrequency | meta-agl-demo-ces2024-demoivi/recipes-demo/flutter-ics-homescreen/flutter-ics-homescreen/0001-Initial-radio-implementation.patch:433-447 | between the band parameters and the first frequency it may: tuneForward on the FM band asks for 8.89 MHz |
| Radio.RequestsInBandIff | meta-agl-demo-ces2024-demoivi/recipes-demo/flutter-ics-homescreen/flutter-ics-homescreen/0001-Initial-radio-implementation.patch:489-535 | once the band is known, every request of every run lies in it if and only if the current frequency is at most one step outside |
| Radio.RadioClient.HandleStatusEvent | meta-agl-demo-ces2024-demoivi/recipes-demo/flutter-ics-homescreen/flutter-ics-homescreen/0001-Initial-radio-implementation.patch:452-471 | the effect of one event |
| Radio.FieldsFollowLastEvent | meta-agl-demo-ces2024-demoivi/recipes-demo/flutter-ics-homescreen/flutter-ics-homescreen/0001-Initial-radio-implementation.patch:452-471 | after any stream each field has the value of the last event of its own kind or its starting value; scanning is only ever cleared, exactly when a station was found |

## Left out

- Mailbox, NotifyQueue, Interrupts and InterruptsOverMailbox are state machines over values, since their point
  is the interleaving of threads; update in place of the page and of the lists appears as steps on one state.
- InterruptsOverMailbox.RunIsAtomic: runs in which the file stays open; the device's other registers read as 0
  and no thread but the routine acknowledges.
- Opening the device file again: threads that outlive a release, and locks that open initialises anew.
- A second start of the notification worker by START_LOOPBACK, and EFD_INIT.
- VirtQueues.Transport.SetupVq: the queue without a name, which vm_find_vqs never asks for.
- The page-fault handler and the scan of the ring's descriptors for block sizes.
- Feature negotiation, device status, generation, shared-memory regions and probing.
- Kernel services: memory, remap_pfn_range, device registration, DMA masks; allocation and remapping are
  decisions of the environment.
- The internals of a virtqueue and of its interrupt handler.
- loopback_driver1.c, which is the same code.
- The server's own changes of state between user actions, such as the end of the playlist or other clients.
- Dragging the position slider, which stops the timer until the next status, and the frequency slider's
  conversion through floating-point MHz.
- MediaPlayer.MpdClient.HandlePlayerEvent: the two awaits are one step; elapsed time is a real number.
- SongArt.ArtReader.ReadSongArt: a queue event during the read is not part of it; `ArtReader.Store` says that the
  null check fails exactly when the entry is gone.
- Presets, configuration files, scanning commands, widgets and the gRPC and MPD libraries.
