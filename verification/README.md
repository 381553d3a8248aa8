# LO-PHI protocols and index computations in Dafny

LO-PHI drives virtual and physical machines through malware analyses and watches their memory, disk
and network from outside. This project models the parts of it whose correctness is a property of
whole runs, and proves those properties for every input and every interleaving:

| files | what they model |
|---|---|
| `TftpWire`, `TftpServer`, `TftpBlocks`, `TftpRead`, `TftpWrite`, `TftpSession`, `TftpAnyClient` | a TFTP connection of the network-boot server against an RFC 1350 client, over a network that loses, duplicates and reorders datagrams, and against a client that sends anything |
| `Scheduler`, `SchedulerService` | one analysis scheduler, its worker processes, the free-machine queue, the queued/running lists and the clean-up, interleaved one queue or list operation at a time |
| `DiskFrames`, `HookStream`, `StreamServer`, `DiskPipeline` | the QEMU hook's worker threads writing frames to one socket, the introspection server that re-parses and forwards them, and both end to end |
| `Geometry`, `MftMap`, `SectorIndex` | NTFS block, sector and MFT-record arithmetic, and the sector-to-inode dictionary |
| `NoiseTable`, `MemoryFilter` | training, adjusting and applying the memory noise filter |
| `BootServer`, `OneShotPxe` | the BOOTP/DHCP lease pool and boot states, and the one-shot network-boot permission |
| `VmRegistry` | the doubly linked list of connected machines |
| `PacketLoss` | loss counting from IP identification numbers |
| `Prelude` | bytes, optional values and the few collection facts the others share |

`dafny verify dfyconfig.toml` checks everything.

Code that updates fields in place is a class or a loop here too, proved against a function of the old
state; the theorems are about those functions. Protocols with several processes are state machines:
an event that is not enabled changes nothing, a run is any sequence of events, and each theorem
quantifies over all of them. In the TFTP runs the network holds the datagrams in flight in each
direction: each may arrive any number of times and in any order until an event loses it, and a re-send
puts it back.

Some properties turn out to hold only under a condition. Each of these is proved as an if-and-only-if,
or with a run that breaks it:

- A TFTP transfer can finish only if its block count is at most 32767, because the block field is
  packed as a signed 16-bit number (`TftpRead.ReadFinishesIff`, `TftpWrite.WriteFinishesIff`). A read
  also needs a request without `tsize` or with a `tsize` of 0: for any other value the server sends
  neither an option reply nor a first block, and in no run anything but errors
  (`TftpRead.NonzeroSizeIsNeverServed`). The client acknowledges block 0 only in answer to an option
  reply. With a retry count of 0 only a one-block read without `tsize` finishes, and no write
  (`TftpSession.DownloadFinishesIff`, `TftpSession.UploadFinishesIff`).
- The server stops right after sending the short block and never re-sends it, nor the option reply. So
  from a reachable state a read can still finish if and only if it is finished, or the client has not
  quit and either the short block it waits for is in flight, or the server is live and can re-send what
  the client waits for or has given it something to acknowledge (`TftpRead.CanStillFinishIff`; at the
  two losses `TftpRead.LostShortBlock` and `TftpRead.LostOptionReply`). A live server can always re-send
  its last acknowledgement, so a write recovers from any loss before its end; the last acknowledgement
  is sent once (`TftpWrite.ServerCanStillFinishIff`, `TftpWrite.ClientCanStillFinishIff`,
  `TftpWrite.LostLastAck`).
- `_mft_dataruns` sorts the runs of the MFT by address, while records are numbered in the file's own run
  order: the sectors computed for a record are its own, for every record, exactly when the file's runs
  are ascending already (`MftMap.SortedNumberingIff`). The sector after the last run is reported as a
  record that does not exist (`MftMap.SpuriousReport`).
- The free machines and those with live workers or the running scheduler are exactly all machines of
  the type if and only if none of three operations happened: dropping the engine of a worker that
  holds a queue machine, overwriting the last reference to such an engine, or starting a script
  without a class on a queue machine (`Scheduler.ExactlyAllIff`). That every script loads and no
  clean-up read falls in one of the two windows of a worker is sufficient, not necessary
  (`Scheduler.NoMachineIsLost`). Exclusive allocation needs no hypothesis.
- `adjust_filter` keeps the greatest count reached often enough, at every threshold, exactly when the
  dictionary is iterated with each key's counts ascending (`NoiseTable.GreatestIffAscending`).
- The hook sends accesses of any size. The server accepts a frame exactly when the access is at most
  1024 sectors of a known operation and is not the empty read of sector 0
  (`StreamServer.HookFrameWholeIff`); the first other frame ends the connection once its header has
  arrived (`DiskPipeline.HookToServer`).
- The DHCP server answers a repeated PXE Request with the real boot file although the permission is
  used up; it depends only on what the last Discover was offered (`OneShotPxe.RequestRealIff`).
- The packet-loss count is the true one exactly when no gap reaches a whole numbering cycle
  (`PacketLoss.CountersAreTrueIff`), and the published total may lag behind the published losses
  (`PacketLoss.PublishedIff`).
- The block and sector maps invert each other exactly when the sector size divides the block size
  (`Geometry.BlockMapsInvertIff`).

Places where code and comments or names disagree, and the model follows the code: the TFTP retry count
is read from the configuration key `blocksize` (`lophi-net-services/lophinet/pybootd/tftpd.py:492`), so
the model takes it as a parameter; `_get_records_from_sectors` promises None but returns an empty list;
`forward_data` is described as a thread but runs inline.

## Model

| member | source | states |
|---|---|---|
| TftpWire.RoundTrip | lophi-net-services/lophinet/pybootd/tftpd.py:149-207 | every DATA, ACK and ERROR packet a side sends is parsed back unchanged by the other |
| TftpWire.WireLayout | lophi-net-services/lophinet/pybootd/tftpd.py:278-321 | DATA, ACK and ERROR start with opcode 3, 4 or 5 and their number, high byte first, followed by the data or the text and a zero byte |
| TftpWire.Signed | lophi-net-services/lophinet/pybootd/tftpd.py:198-203 | a 16-bit field is read as the signed number congruent to it |
| TftpWire.Pack | lophi-net-services/lophinet/pybootd/tftpd.py:284-286 | packing succeeds exactly in the signed 16-bit range and reading gives the number back |
| TftpServer.TftpConnection.constructor | lophi-net-services/lophinet/pybootd/tftpd.py:80-94 | a new connection is inactive, at block 0, with nothing sent, read or written |
| TftpServer.TftpConnection.SendPacket | lophi-net-services/lophinet/pybootd/tftpd.py:102-105 | the packet goes out and becomes the one a time-out re-sends |
| TftpServer.TftpConnection.Resend | lophi-net-services/lophinet/pybootd/tftpd.py:209-212 | only the last packet goes out again; nothing else changes |
| TftpServer.TftpConnection.SendNextData | lophi-net-services/lophinet/pybootd/tftpd.py:278-288 | the next chunk of the file is read once, numbered one higher and sent; the connection stays active exactly on a full block; number 32768 ends it |
| TftpServer.TftpConnection.SendAckPacket | lophi-net-services/lophinet/pybootd/tftpd.py:308-314 | the awaited number is acknowledged and the next one awaited |
| TftpServer.TftpConnection.ReceiveData | lophi-net-services/lophinet/pybootd/tftpd.py:266-271 | only the awaited block is acknowledged and written; a short one makes the connection inactive |
| TftpServer.TftpConnection.Handle | lophi-net-services/lophinet/pybootd/tftpd.py:240-248 | one pass of the dispatch, including the packets that end the transfer with an error |
| TftpServer.TftpConnection.ReadRequest | lophi-net-services/lophinet/pybootd/tftpd.py:386-434 | option reply for a tsize of 0 with the size and any block size asked for, error replies for a file that cannot be sized or opened, and the first block only without tsize |
| TftpServer.TftpConnection.StartWith | lophi-net-services/lophinet/pybootd/tftpd.py:192-193 | the connection becomes active with the client's block size, if it names one |
| TftpServer.TftpConnection.WriteRequest | lophi-net-services/lophinet/pybootd/tftpd.py:436-451 | acknowledgement 0, error reply or silence for a write |
| TftpServer.TftpConnection.Recv | lophi-net-services/lophinet/pybootd/tftpd.py:107-128 | each silent round re-sends the last packet and nothing else, at most `retry` times in one wait; the packet returned is the first from the client's own address; time-out exactly when the retries are used up |
| TftpServer.TftpConnection.Exchange | lophi-net-services/lophinet/pybootd/tftpd.py:237-251 | one pass of the loop carries out the plan's next part, time-out error included |
| TftpServer.TftpConnection.Transfer | lophi-net-services/lophinet/pybootd/tftpd.py:236-255 | whatever arrives and whenever, the connection performs exactly the planned re-sends, packets and give-up, and nothing once it is dead |
| TftpServer.TftpConnection.Connect | lophi-net-services/lophinet/pybootd/tftpd.py:214-255 | the whole of `connect`: request or error reply, then the planned actions |
| TftpServer.PlanTakesOwn | lophi-net-services/lophinet/pybootd/tftpd.py:122-124 | only packets from the client's own address are ever handled |
| TftpServer.PlanOfHeard | lophi-net-services/lophinet/pybootd/tftpd.py:113-124 | while a retry is left, packets of the client that keep coming are all handled and nothing else is done |
| TftpServer.OutboxGrows | lophi-net-services/lophinet/pybootd/tftpd.py:102-105 | no action takes back a datagram already handed to the socket |
| TftpServer.ReplayDead | lophi-net-services/lophinet/pybootd/tftpd.py:237-255 | a connection that ended or went inactive does nothing more |
| TftpServer.ReplayRetries | lophi-net-services/lophinet/pybootd/tftpd.py:113-118 | n silent rounds change only what was sent: n copies of the last packet |
| TftpBlocks.BlockShape | lophi-net-services/lophinet/pybootd/tftpd.py:278-288 | blocks 1 to floor(len/blocksize) are full and block floor(len/blocksize)+1 is short, possibly empty |
| TftpBlocks.WholeFile | lophi-net-services/lophinet/pybootd/tftpd.py:278-288 | the blocks together are the file |
| TftpRead.StepInv | lophi-net-services/lophinet/pybootd/tftpd.py:229-288 | the lock-step invariant is kept by every step of server, client and network |
| TftpRead.ReadIsPrefix | lophi-net-services/lophinet/pybootd/tftpd.py:229-264 | in every run the client holds a prefix of the file, the server is at most one block ahead, and a client that saw the short block holds the whole file |
| TftpRead.ReadSendsEachBlock | lophi-net-services/lophinet/pybootd/tftpd.py:278-288 | in every run the DATA packets ever sent are one per block with that block's bytes, the file is read exactly up to the last one, and a server that stopped by itself sent floor(len/blocksize)+1 |
| TftpRead.StepSends | lophi-net-services/lophinet/pybootd/tftpd.py:257-288 | one event makes the server send the next block exactly when its number advances, the last block again exactly on a silent round or a client error, an error exactly when it gives up, and otherwise nothing |
| TftpRead.EachBlockOnce | lophi-net-services/lophinet/pybootd/tftpd.py:257-288 | in every run each block sent was sent exactly once, plus once for each silent round and each client error while it was the last one; a repeated, late or foreign acknowledgement adds nothing |
| TftpRead.NothingElseIsSent | lophi-net-services/lophinet/pybootd/tftpd.py:237-288 | in every run the number of datagrams is that of the blocks sent, the option reply, the re-sends and at most one error |
| TftpRead.ServerSideIsReplay | lophi-net-services/lophinet/pybootd/tftpd.py:237-248 | in every protocol run the server side is the replay of its own actions that the transfer loop is proved to perform |
| TftpRead.StoppedSentAll | lophi-net-services/lophinet/pybootd/tftpd.py:278-288 | in every run a server that stopped by itself has sent every block of the file with its bytes |
| TftpRead.FinishFed | lophi-net-services/lophinet/pybootd/tftpd.py:257-288 | from every reachable state in which nobody gave up and what the client waits for is in flight or can be asked for, a network that loses nothing finishes the read with no re-send |
| TftpRead.Resume | lophi-net-services/lophinet/pybootd/tftpd.py:209-212 | a live server that is one block ahead brings a lost block back into flight with one re-send |
| TftpRead.CanStillFinishIff | lophi-net-services/lophinet/pybootd/tftpd.py:229-288 | from every reachable state, whatever was lost, repeated or reordered, the read can still finish if and only if its block count is at most 32767 and it is done, or the client has not quit and its short block is in flight or the server is live and can re-send the awaited block or has given the client something to answer |
| TftpRead.LostShortBlock | lophi-net-services/lophinet/pybootd/tftpd.py:288 | once the short block is sent and lost before the client has it, no continuation finishes |
| TftpRead.LostShortBlockExample | lophi-net-services/lophinet/pybootd/tftpd.py:288 | a file of one byte whose only block is lost |
| TftpRead.LostOptionReply | lophi-net-services/lophinet/pybootd/tftpd.py:323-330 | if the option reply is lost no continuation finishes |
| TftpRead.NonzeroSizeIsNeverServed | lophi-net-services/lophinet/pybootd/tftpd.py:386-434 | for a tsize that is not 0 the server sends nothing but errors in any run and the client gets nothing |
| TftpRead.NonzeroSizeExample | lophi-net-services/lophinet/pybootd/tftpd.py:433-434 | a read that announces five bytes has no finishing run |
| TftpRead.ZeroBlocksNeverFinish | lophi-net-services/lophinet/pybootd/tftpd.py:288 | with block size 0 every block is empty, none is short, and no run finishes |
| TftpRead.ReadFinishesIff | lophi-net-services/lophinet/pybootd/tftpd.py:278-288 | with retries enough, a read has a finishing run if and only if its block size is positive, it gives no tsize or a tsize of 0, and floor(len/blocksize)+1 is at most 32767 |
| TftpRead.TooManyBlocksExample | lophi-net-services/lophinet/pybootd/tftpd.py:283-286 | no read of 32767 times 512 bytes in blocks of 512 finishes |
| TftpWrite.StepInv | lophi-net-services/lophinet/pybootd/tftpd.py:266-314 | the write invariant is kept by every step of server, client and network |
| TftpWrite.WriteIsPrefix | lophi-net-services/lophinet/pybootd/tftpd.py:266-271 | in every run the written chunks are the client's blocks in order, each once; the written file is a prefix of the client's, and equal to it once the server went inactive or the client saw its last acknowledgement |
| TftpWrite.StepSends | lophi-net-services/lophinet/pybootd/tftpd.py:266-314 | one event makes the server acknowledge the next block exactly when it is written, the last one again exactly on a silent round or a client error, and otherwise send nothing but the error of giving up |
| TftpWrite.EachAckOnce | lophi-net-services/lophinet/pybootd/tftpd.py:266-314 | in every run each block written was acknowledged exactly once, plus once for each silent round and each client error while it was the last one; a repeated, late or early block adds nothing |
| TftpWrite.NothingElseIsSent | lophi-net-services/lophinet/pybootd/tftpd.py:266-314 | in every run the number of datagrams is that of the blocks written, the first acknowledgement, the re-sends and at most one error |
| TftpWrite.ServerSideIsReplay | lophi-net-services/lophinet/pybootd/tftpd.py:237-248 | in every protocol run the server side is the replay of its own actions |
| TftpWrite.FinishFed | lophi-net-services/lophinet/pybootd/tftpd.py:266-314 | from every reachable state in which nobody gave up and the awaited acknowledgement is in flight, a network that loses nothing brings the write to its end on both sides with no re-send |
| TftpWrite.Resume | lophi-net-services/lophinet/pybootd/tftpd.py:209-212 | whatever was lost, one re-send of a live server puts the acknowledgement the client waits for back into flight |
| TftpWrite.ServerCanStillFinishIff | lophi-net-services/lophinet/pybootd/tftpd.py:266-271 | from every reachable state, whatever was lost, the server can still get the whole file if and only if the block count is at most 32767 and it has it, or it has not ended and the client has not quit or the short block is all that is missing and in flight |
| TftpWrite.ClientCanStillFinishIff | lophi-net-services/lophinet/pybootd/tftpd.py:308-314 | from every reachable state the client can still learn that all arrived if and only if the block count is at most 32767 and it has, or it has not quit and the server is live or the last acknowledgement is in flight |
| TftpWrite.LostLastAck | lophi-net-services/lophinet/pybootd/tftpd.py:270 | if the last acknowledgement is lost the client never learns that the file arrived, although it did |
| TftpWrite.WriteFinishesIff | lophi-net-services/lophinet/pybootd/tftpd.py:308-314 | with retries enough, a write has a run in which the server sees the short block if and only if the block count is at most 32767 |
| TftpWrite.TooManyBlocksExample | lophi-net-services/lophinet/pybootd/tftpd.py:268 | no write of 32767 times 512 bytes in blocks of 512 gets there |
| TftpSession.Download | lophi-net-services/lophinet/pybootd/tftpd.py:214-255 | the connection object, constructed and run through `connect` on what a client and network of some run gave it, is the server of that run: the client holds a prefix of the file, all of it after the short block, and every block was sent once the object is inactive |
| TftpSession.Upload | lophi-net-services/lophinet/pybootd/tftpd.py:214-255 | the same for a write: the bytes written are the client's blocks in order, each once, and the whole file once the object is inactive |
| TftpSession.DownloadFinishesIff | lophi-net-services/lophinet/pybootd/tftpd.py:113-126 | for a server with a given retry count, some arrivals finish a read if and only if its block size is positive, it gives no tsize or a tsize of 0, its block count is at most 32767, and the retry count is positive or it is one block without tsize |
| TftpSession.UploadFinishesIff | lophi-net-services/lophinet/pybootd/tftpd.py:113-126 | for a server with a given retry count, some arrivals complete a write if and only if its block count is at most 32767 and the retry count is positive |
| TftpSession.NoRetriesExample | lophi-net-services/lophinet/pybootd/tftpd.py:113-126 | with retry count 0 no read of 600 bytes in blocks of 512 finishes |
| TftpAnyClient.ReadsOnlyRead | lophi-net-services/lophinet/pybootd/tftpd.py:237-288 | whatever packets the client of a read sends, every DATA packet it gets carries the block of its number, and the server writes nothing |
| TftpAnyClient.WritesOnlyWanted | lophi-net-services/lophinet/pybootd/tftpd.py:266-271 | whatever packets the client of a write sends, the server writes the data of blocks 1, 2, 3 and so on as they come, each once, up to the first short one, and nothing after a packet that ends the transfer |
| TftpAnyClient.UnservedIsRefused | lophi-net-services/lophinet/pybootd/tftpd.py:386-451 | a request that cannot be sized, opened or written, or is none, is told so first; whatever arrives afterwards no data is sent, read or written; and which packets end the connection |
| TftpAnyClient.ErrorEnds | lophi-net-services/lophinet/pybootd/tftpd.py:205-251 | a time-out or an unknown packet is answered with error 4 and another request with error 5, and that is the last thing sent |
| TftpAnyClient.NoOtherError | lophi-net-services/lophinet/pybootd/tftpd.py:237-251 | no other packet makes the server send an error |
| Scheduler.StepInv | lophi-automation/lophi_automation/controller.py:109-179 | lists, engine references, the engine being set up and the machine mutexes stay consistent under every single operation |
| Scheduler.MachinesAreConserved | lophi-automation/lophi_automation/analysis_scripts.py:122-265 | in every interleaving each machine is, as often as configured, not yet put, free, at the scheduler or with the worker that took it |
| Scheduler.FreeAreDistinct | lophi-automation/lophi_automation/controller.py:262-274 | in every interleaving the free queue holds distinct machines of the type |
| Scheduler.NoDoubleAllocation | lophi-automation/lophi_automation/controller.py:128-140 | in every interleaving, whoever is terminated, a machine a worker took is of the type, not free, and no other worker has it |
| Scheduler.WorkersAreTracked | lophi-automation/lophi_automation/analysis_scripts.py:134-141 | in every interleaving no list remove raises, the two lists say of each live worker exactly where it is, and no two workers are inside one machine's mutex |
| Scheduler.CondemnedIff | lophi-automation/lophi_automation/controller.py:72-75 | the clean-up condemns the analysis it looks at exactly when that is over or inside one of the two windows |
| Scheduler.StepLost | lophi-automation/lophi_automation/controller.py:77-80 | a single operation leaves a machine lost exactly if one was lost before, or it drops a holding worker's engine, overwrites the last reference to one, or starts a script without a class on a queue machine |
| Scheduler.LostIff | lophi-automation/lophi_automation/controller.py:113-173 | in every interleaving a machine is lost if and only if one of those operations happened |
| Scheduler.ExactlyAllIff | lophi-automation/lophi_automation/analysis_scripts.py:251-261 | in every interleaving, whether analyses succeed or raise, the machines free, at the running scheduler and with live workers are exactly all machines of the type if and only if none of those operations happened |
| Scheduler.NoMachineIsLost | lophi-automation/lophi_automation/analysis_scripts.py:134-141 | in particular if every script loads and no clean-up read falls in a window |
| Scheduler.WindowLosesMachine | lophi-automation/lophi_automation/controller.py:72-80 | from any state in which the clean-up is about to look at an older analysis inside a window, whatever else it has to look at or has condemned, the scheduler alone can go on to terminate it there with its machine |
| Scheduler.WindowsAreReachable | lophi-automation/lophi_automation/analysis_scripts.py:140-141 | both windows are reached at the moment the clean-up looks |
| Scheduler.MachineCanBeLost | lophi-automation/lophi_automation/analysis/__init__.py:40-48 | there is a run after which, however it goes on, the only machine is never free again |
| Scheduler.KilledForever | lophi-automation/lophi_automation/analysis/__init__.py:40-48 | a terminated worker never moves again in any continuation |
| Scheduler.BuildQueues | lophi-automation/lophi_automation/controller.py:262-274 | one queue for each type in use, holding that type's machines in list order |
| Scheduler.QueueContents | lophi-automation/lophi_automation/controller.py:262-274 | a type's queue holds exactly its machines, each once |
| Scheduler.CleanupPointers | lophi-automation/lophi_automation/controller.py:65-80 | with nothing moving meanwhile, exactly the engines in one of the lists are kept |
| SchedulerService.ServedInOrder | lophi-automation/lophi_automation/controller.py:118-173 | in every interleaving the j-th analysis serves the j-th request submitted and, once started, has the machine that request names, one of its own, or one from the queue; a scheduler that stopped did so for an absent machine or a script without a class |
| SchedulerService.NobodyRaises | lophi-automation/lophi_automation/analysis_scripts.py:140-257 | in every interleaving no worker fails to find itself in a list, terminated ones included |
| SchedulerService.NamedMachineIsExclusive | lophi-automation/lophi_automation/analysis_scripts.py:134 | in every interleaving two analyses whose requests name the same machine are never both at work |
| SchedulerService.LocksAreHeld | lophi-automation/lophi_automation/analysis_scripts.py:134 | in every interleaving a machine is locked only while the worker that locked it is at work on it |
| SchedulerService.QueueIsFifo | lophi-automation/lophi_automation/controller.py:132 | in every interleaving the machines taken, followed by those free, are the machines put, in the order they were put |
| SchedulerService.PutInOrder | lophi-automation/lophi_automation/controller.py:262-274 | in every interleaving the controller puts the machines in the order of the list |
| SchedulerService.NextRequestStarts | lophi-automation/lophi_automation/controller.py:113-173 | from every state between two requests, if the next one loads, names an existing machine and, if it wants one from the queue, one is free, the scheduler alone goes on to start it |
| SchedulerService.WorkerCanExit | lophi-automation/lophi_automation/analysis_scripts.py:134-265 | from every reachable state a live worker whose machine is not locked by another comes to its end on its own and puts a machine of the queue back |
| SchedulerService.PutAll | lophi-automation/lophi_automation/controller.py:274 | the controller can always put all machines it has left |
| DiskFrames.HeaderRoundTrip | qemu-2.0.0+dfsg_patch/lophi-hooks-disk.c:230-235 | a header written by the hook is the header the server reads |
| DiskFrames.HeaderLayout | qemu-2.0.0+dfsg_patch/lophi-hooks-disk.c:230-235 | the header has the sector from byte 0, the number of sectors from 8, the operation from 12 and the size from 16, low byte first |
| DiskFrames.FrameLayout | qemu-2.0.0+dfsg_patch/lophi-hooks-disk.c:348-359 | a frame is the header of its access followed by exactly the contents |
| HookStream.StepInv | qemu-2.0.0+dfsg_patch/lophi-hooks-disk.c:207-261 | the stream invariant is kept by every operation of every thread |
| HookStream.StreamIsFrames | qemu-2.0.0+dfsg_patch/lophi-hooks-disk.c:207-261 | for every interleaving and every pattern of positive short writes the stream is one meta record, then one whole frame for each finished worker in lock order, then a part of the lock holder's frame only |
| HookStream.EveryAccessIsWritten | qemu-2.0.0+dfsg_patch/lophi-hooks-disk.c:207-261 | from every reachable state every access not yet written can still be written, at once if the lock is free; then the stream grows by exactly its frame, after the meta record if that was not sent yet |
| HookStream.InTurnWritesAll | qemu-2.0.0+dfsg_patch/lophi-hooks-disk.c:207-261 | any accesses one after the other, each written in any positive pieces, come to the meta record and all their frames in order |
| StreamServer.Fill | lophi-disk-introspection-server/src/dis_hypervisor.c:132-140 | reads of any sizes put exactly the next bytes of the stream in their place and leave what is in front alone |
| StreamServer.ForwardData | lophi-disk-introspection-server/src/dis_hypervisor.c:37-69 | the packet goes out whole, or a prefix of it until a send fails |
| StreamServer.ReadFrame | lophi-disk-introspection-server/src/dis_hypervisor.c:132-190 | one frame is recovered from any fragmentation, inside a buffer of MAX_BYTES_SENT plus the header |
| StreamServer.ForwardIf | lophi-disk-introspection-server/src/dis_hypervisor.c:193-195 | an attached client gets the packet up to the first failing send, a detached one nothing |
| StreamServer.DetachedUntilAttached | lophi-disk-introspection-server/src/dis_hypervisor.c:58-64 | after a failed send nothing is forwarded before the next attach |
| StreamServer.UncutRelay | lophi-disk-introspection-server/src/dis_hypervisor.c:46-68 | if no send fails what is forwarded is all frames completed while a client is attached |
| StreamServer.ReadLoop | lophi-disk-introspection-server/src/dis_hypervisor.c:131-197 | for any fragmentation the frames are those of the stream, the connection is killed exactly on a bad header, and what is forwarded is exactly the frames completed while a client is attached, whole except for one cut at each failed send, which detaches the client |
| StreamServer.Serve | lophi-disk-introspection-server/src/dis_hypervisor.c:141-190 | with the server's own header checks: a client attached from frame i up to frame j gets exactly frames i to j-1 whole, headers included, one never attached nothing, and one whose first failing send hits frame m the frames before and a proper part of that one |
| StreamServer.CheckIff | lophi-disk-introspection-server/src/dis_hypervisor.c:156-183 | a header ends the connection exactly for a size above 524288 or not divisible by 512, an operation outside 0 to 2, or all zeros; a negative size is let through with nothing read or forwarded |
| StreamServer.RelaySlice | lophi-disk-introspection-server/src/dis_hypervisor.c:193-195 | without a failing send what is forwarded is the frames completed while the client is attached, one after the other |
| StreamServer.CutSlice | lophi-disk-introspection-server/src/dis_hypervisor.c:46-68 | with a failing send it is the frames before and the failing one cut |
| StreamServer.ParseFrames | lophi-disk-introspection-server/src/dis_hypervisor.c:131-197 | whole frames in front of anything are recovered exactly and in order |
| StreamServer.ParsePartial | lophi-disk-introspection-server/src/dis_hypervisor.c:135-140 | part of a whole frame is neither a frame nor an error |
| StreamServer.ParseAny | lophi-disk-introspection-server/src/dis_hypervisor.c:156-183 | of any frames those before the first that fails the checks are recovered, and that one ends the connection |
| StreamServer.HookFrameWholeIff | lophi-disk-introspection-server/src/dis_hypervisor.c:156-183 | a frame of the hook passes exactly for at most 1024 sectors of a known operation, the empty read of sector 0 excepted; the header of any other ends the connection |
| DiskPipeline.HookToServer | lophi-disk-introspection-server/src/dis_hypervisor.c:131-197 | for every interleaving, any accesses and at every moment the server recovers exactly the complete frames, in lock order, before the first that fails its checks, and ends the connection exactly if a failing header is on the stream |
| DiskPipeline.AcceptableAccessesPass | lophi-disk-introspection-server/src/dis_hypervisor.c:131-197 | if all frames pass, every complete frame is recovered and the connection stays |
| DiskPipeline.Pipeline | lophi-disk-introspection-server/src/dis_hypervisor.c:79-197 | hook threads, socket, server and client together, for any accesses: the server recovers exactly the accepted frames, and a client attached from frame i up to frame j gets exactly those frames whole, up to a failing send |
| Geometry.BlockMapsInvert | python-lophi-semanticgap/lophi_semanticgap/disk/filesystem_reconstructor.py:938-972 | a sector is one of block b's sectors if and only if it maps back to b |
| Geometry.BlockMapsInvertIff | python-lophi-semanticgap/lophi_semanticgap/disk/filesystem_reconstructor.py:955-972 | every sector of every block maps back to it if and only if the sector size divides the block size |
| Geometry.OneBlock | python-lophi-semanticgap/lophi_semanticgap/disk/filesystem_reconstructor.py:955-972 | no sector is listed for two blocks, whether or not the sizes divide |
| MftMap.RecordToSectors | python-lophi-semanticgap/lophi_semanticgap/disk/filesystem_reconstructor.py:975-1026 | the sectors of a record, or none when the record is beyond the table |
| MftMap.RecordsInRun | python-lophi-semanticgap/lophi_semanticgap/disk/filesystem_reconstructor.py:1049-1056 | one run adds exactly the records its sectors fall on, without repeating any |
| MftMap.RecordsFromSectors | python-lophi-semanticgap/lophi_semanticgap/disk/filesystem_reconstructor.py:1029-1061 | exactly the records some sector falls on in some run, each once |
| MftMap.ReportedIff | python-lophi-semanticgap/lophi_semanticgap/disk/filesystem_reconstructor.py:1049-1059 | for any write range the records reported are exactly those with a sector in it, and, from the inclusive end bound, the first record after a run whose next sector is in it |
| MftMap.RecordRoundTrip | python-lophi-semanticgap/lophi_semanticgap/disk/filesystem_reconstructor.py:975-1061 | looking up the sectors of any record over any multi-run table reports that record and no other |
| MftMap.SameSector | python-lophi-semanticgap/lophi_semanticgap/disk/filesystem_reconstructor.py:997-1019 | no sector belongs to two records |
| MftMap.EndInRecord | python-lophi-semanticgap/lophi_semanticgap/disk/filesystem_reconstructor.py:1051 | the sector past a run belongs to a record only if the next run is adjacent, and then the extra result is right |
| MftMap.LookUpOwnSectors | python-lophi-semanticgap/lophi_semanticgap/disk/filesystem_reconstructor.py:975-1061 | the two loops one after the other return exactly the one record |
| MftMap.SpuriousReport | python-lophi-semanticgap/lophi_semanticgap/disk/filesystem_reconstructor.py:1051-1056 | for every table the sector after the last run is reported as the record past the end, which has no sectors |
| MftMap.SpuriousReportExample | python-lophi-semanticgap/lophi_semanticgap/disk/filesystem_reconstructor.py:1051-1056 | sector 67 after the table in sectors 63 to 66 is reported as record 2 |
| MftMap.SortedNumberingIff | python-lophi-semanticgap/lophi_semanticgap/disk/filesystem_reconstructor.py:1067-1082 | for disjoint runs in the file's own order and the same runs sorted, the sectors computed for every record are its own if and only if the file's order is ascending |
| MftMap.WrongRunExample | python-lophi-semanticgap/lophi_semanticgap/disk/filesystem_reconstructor.py:1082 | two runs given highest first: record 0 is looked for in the wrong one |
| SectorIndex.Index.AddSector | python-lophi-semanticgap/lophi_semanticgap/disk/filesystem_reconstructor.py:542-572 | one sector is settled: overwritten, kept with a logged collision, or the name lookup raises |
| SectorIndex.Index.AddRun | python-lophi-semanticgap/lophi_semanticgap/disk/filesystem_reconstructor.py:524-572 | an out-of-bounds run is only logged; otherwise exactly the run's sectors are settled and no other sector changes, exactly the collisions are logged, and it fails half way exactly if a name lookup raises |
| SectorIndex.Index.RemoveRun | python-lophi-semanticgap/lophi_semanticgap/disk/filesystem_reconstructor.py:507-521 | exactly the run's sectors leave the dictionary |
| SectorIndex.Index.Load | python-lophi-semanticgap/lophi_semanticgap/disk/filesystem_reconstructor.py:457-496 | loading disjoint runs in any order maps a sector to an inode exactly when it is a sector of a loaded run of that inode |
| SectorIndex.KeepsIff | python-lophi-semanticgap/lophi_semanticgap/disk/filesystem_reconstructor.py:542-570 | a sector already mapped keeps its inode exactly if both inodes are different named files and neither is a metafile; the lookup raises exactly at a name of one character |
| SectorIndex.InBoundsIff | python-lophi-semanticgap/lophi_semanticgap/disk/filesystem_reconstructor.py:533-536 | a non-empty run is in bounds exactly if all its blocks are blocks of the volume |
| SectorIndex.SparseIsNotLoaded | python-lophi-semanticgap/lophi_semanticgap/disk/filesystem_reconstructor.py:490-494 | a run at address 0 is not loaded except that of $Boot, and any other exactly if it is in bounds |
| SectorIndex.CoversAligned | python-lophi-semanticgap/lophi_semanticgap/disk/filesystem_reconstructor.py:938-972 | when the sector size divides the block size, the sectors of a run are those that map back to one of its blocks |
| SectorIndex.OrderDoesNotMatter | python-lophi-semanticgap/lophi_semanticgap/disk/filesystem_reconstructor.py:477-496 | two orders of loading the same runs give the same dictionary |
| NoiseTable.CountKeys | lophi-analysis/lophi_analysis/analysis_filter.py:275-288 | every key is counted as often as it occurs |
| NoiseTable.AddKeyed | lophi-analysis/lophi_analysis/analysis_filter.py:134-144 | after one more analysis the table says, for each key and positive count, in how many analyses the key occurred exactly that often |
| NoiseTable.Credits | lophi-analysis/lophi_analysis/analysis_filter.py:166-177 | in any iteration order a count's credit is its own analyses plus those of larger counts met after it |
| NoiseTable.Highest | lophi-analysis/lophi_analysis/analysis_filter.py:181-186 | the highest count of a key with enough credit, or -1 |
| NoiseTable.AdjustTable | lophi-analysis/lophi_analysis/analysis_filter.py:163-189 | exactly the items that have enough credit with no larger count of the key having it |
| NoiseTable.CreditBounds | lophi-analysis/lophi_analysis/analysis_filter.py:173-177 | in every order the credit lies between the item's own analyses and those with its count or more |
| NoiseTable.CreditAscending | lophi-analysis/lophi_analysis/analysis_filter.py:173-177 | in ascending order the credit is all analyses with its count or more |
| NoiseTable.MassIsAtLeast | lophi-analysis/lophi_analysis/analysis_filter.py:116-147 | summing a trained table over the counts from h on gives the number of analyses in which the key occurred h or more times |
| NoiseTable.KeptIsSound | lophi-analysis/lophi_analysis/analysis_filter.py:151-202 | for every iteration order a kept (key, h) has at least t analyses in which the key occurred h or more times |
| NoiseTable.KeptIsGreatest | lophi-analysis/lophi_analysis/analysis_filter.py:179-189 | in ascending order exactly the greatest observed count with that property is kept |
| NoiseTable.OutOfOrderMisses | lophi-analysis/lophi_analysis/analysis_filter.py:173-177 | every pair of counts visited larger first has a threshold at which the greatest count is missed |
| NoiseTable.GreatestIffAscending | lophi-analysis/lophi_analysis/analysis_filter.py:166-189 | the greatest count is kept at every threshold if and only if each key's counts are visited ascending |
| NoiseTable.GreatestCanBeMissed | lophi-analysis/lophi_analysis/analysis_filter.py:166-189 | two analyses with counts 2 and 1, visited larger first, at threshold 2 |
| NoiseTable.ApplyKeyed | lophi-analysis/lophi_analysis/analysis_filter.py:223-250 | whatever order the filter entries are visited in, exactly the distinct entries survive whose key occurs more often than every filter count for it |
| NoiseTable.ApplyTwice | lophi-analysis/lophi_analysis/analysis_filter.py:223-268 | applying again changes nothing |
| NoiseTable.TrainingIsSuppressed | lophi-analysis/lophi_analysis/analysis_filter.py:210-270 | without adjustment every list trained on is removed whole |
| NoiseTable.TrainingStaysSuppressed | lophi-analysis/lophi_analysis/analysis_filter.py:179-202 | after adjusting to threshold 1, in any order, it still is |
| NoiseTable.OccursIsCount | lophi-analysis/lophi_analysis/analysis_filter.py:281-284 | a key is counted once for each place it occurs in |
| NoiseTable.ListsAreCounted | lophi-analysis/lophi_analysis/analysis_filter.py:138-144 | an analysis is counted once for each key and count |
| MemoryFilter.AddPlain | lophi-analysis/lophi_analysis/analysis_filter.py:138-144 | an ordinary category counts how often each entry was ever listed |
| MemoryFilter.TimesIsCount | lophi-analysis/lophi_analysis/analysis_filter.py:138-144 | an ordinary entry is counted once for each place that lists it |
| MemoryFilter.ApplyPlain | lophi-analysis/lophi_analysis/analysis_filter.py:258-265 | exactly the entries not in the filter remain |
| MemoryFilter.Filter.AddAnalysis | lophi-analysis/lophi_analysis/analysis_filter.py:116-147 | every category of every plugin is trained on one more analysis and nothing else changes |
| MemoryFilter.Filter.AdjustFilter | lophi-analysis/lophi_analysis/analysis_filter.py:151-202 | out of range changes nothing; otherwise each special category keeps exactly its kept items with their credits, and after any additions each kept (key, h) has at least t analyses added in which the key occurred h or more times; threshold 1 still clears every analysis added |
| MemoryFilter.ListOf | lophi-analysis/lophi_analysis/analysis_filter.py:268 | the set becomes a list of the same entries, each once |
| MemoryFilter.Filter.ApplyFilter | lophi-analysis/lophi_analysis/analysis_filter.py:210-270 | a category the filter knows becomes what its kind leaves of it, each entry once; any other keeps its list untouched; what is left, applying the filter again leaves |
| MemoryFilter.Filter.TrainingIsCleared | lophi-analysis/lophi_analysis/analysis_filter.py:210-270 | after any sequence of additions the filter leaves nothing of any analysis added |
| BootServer.BootpServer.Allocate | lophi-net-services/lophinet/pybootd/pxed.py:476-482 | the lowest address of the pool that nobody holds, and none only if all are held |
| BootServer.BootpServer.Answer | lophi-net-services/lophinet/pybootd/pxed.py:464-588 | lease, boot file, UUID cache and state after a request that passed access control |
| BootServer.BootpServer.HandleRequest | lophi-net-services/lophinet/pybootd/pxed.py:359-588 | the whole of one request, refusals and early returns included |
| BootServer.FirstFreeIsFree | lophi-net-services/lophinet/pybootd/pxed.py:476-482 | an address found is free and in the pool; none is found exactly when all are held |
| BootServer.LeasesAreSound | lophi-net-services/lophinet/pybootd/pxed.py:446-484 | in every run leases are injective and in the configured range, and in `mac` mode every leased MAC is an enabled entry |
| BootServer.LeasesAreForever | lophi-net-services/lophinet/pybootd/pxed.py:467-484 | leases once given are the same after every continuation of every run |
| BootServer.ExhaustedIff | lophi-net-services/lophinet/pybootd/pxed.py:476-484 | the pool has no free address exactly when as many leases are out as it has addresses |
| BootServer.PoolExhaustedIff | lophi-net-services/lophinet/pybootd/pxed.py:467-484 | in every run a request fails for want of an address exactly when it is let through, names no address, its MAC has no lease, and pool_count leases are out |
| BootServer.BootingHasUuid | lophi-net-services/lophinet/pybootd/pxed.py:577-588 | in every run a client not idle has a cached UUID |
| BootServer.StateAdvances | lophi-net-services/lophinet/pybootd/pxed.py:359-384 | a request changes only its own client's state, to DHCP only from PXE by a non-PXE REQUEST, and apart from the remote reset to idle only with a reply |
| BootServer.StateHasHistory | lophi-net-services/lophinet/pybootd/pxed.py:507-588 | in every run a client in DHCP was answered a PXE request and later a non-PXE REQUEST; one in PXE was answered a PXE request |
| BootServer.AnsweredIff | lophi-net-services/lophinet/pybootd/pxed.py:359-588 | in every run a request is answered exactly when its client is listened to and allowed, it is a DISCOVER or REQUEST, with option 60 if a PXE one, and an address is named, leased or free; and the answer tells the address named, or else the client's lease |
| BootServer.ToldItsLease | lophi-net-services/lophinet/pybootd/pxed.py:467-495 | in every run a client that names no address is told the one it has a lease for at the end |
| BootServer.AddressesIdentify | lophi-net-services/lophinet/pybootd/pxed.py:467-488 | in every run two such answers tell the same address exactly if they are for the same client |
| BootServer.GivenOutIff | lophi-net-services/lophinet/pybootd/pxed.py:467-484 | in every run a request gives out an address exactly when its client is listened to, allowed, without lease, names none and one is free: the lowest free one |
| BootServer.StateAfter | lophi-net-services/lophinet/pybootd/pxed.py:359-374 | the state after a request is the next one exactly if it asks for it and is answered, idle if the remote host refuses the change, and otherwise the old one |
| BootServer.Remembered | lophi-net-services/lophinet/pybootd/pxed.py:542-579 | a UUID is cached exactly with the answer to a PXE request, and a boot file only for the address of a request whose change of state the remote host granted |
| BootServer.ServeAll | lophi-net-services/lophinet/pybootd/pxed.py:359-588 | the server object over any sequence of requests is the run of them: its replies, its leases and its states |
| OneShotPxe.PxeServices.ProcessAclRequest | lophi-net-services/lophinet/aclserver.py:46-61 | addacl and delacl set and clear the permission of one machine only |
| OneShotPxe.PxeServices.HandleDhcpDiscover | lophi-net-services/lophinet/proxydhcpd/dhcpd.py:165-198 | a PXE Discover is offered, and remembers, the real file with permission and the refusal name without |
| OneShotPxe.PxeServices.HandleDhcpRequest | lophi-net-services/lophinet/proxydhcpd/dhcpd.py:279-300 | a PXE Request uses the permission up and repeats the remembered file |
| OneShotPxe.RoundsArePaid | lophi-net-services/lophinet/proxydhcpd/dhcpd.py:175-185 | in every run completed rounds, and the one pending, are covered by grants |
| OneShotPxe.RoundsAtMostAdds | lophi-net-services/lophinet/proxydhcpd/dhcpd.py:283-286 | in every run a machine's real network-boot rounds never exceed its addacl commands |
| OneShotPxe.OfferedRealIff | lophi-net-services/lophinet/proxydhcpd/dhcpd.py:175-185 | in every run a PXE Discover is offered the real file exactly when some grant has no PXE Request and no delacl after it |
| OneShotPxe.RefusedAfterRequest | lophi-net-services/lophinet/proxydhcpd/dhcpd.py:283-300 | after a PXE Request every Discover before the next addacl is offered the refusal name |
| OneShotPxe.RequestRepeats | lophi-net-services/lophinet/proxydhcpd/dhcpd.py:289-302 | in every run a PXE Request is answered with exactly the file the last PXE Discover was offered |
| OneShotPxe.RequestRealIff | lophi-net-services/lophinet/proxydhcpd/dhcpd.py:300 | in every run a PXE Request is answered with the real file exactly when a grant stood at the last Discover |
| OneShotPxe.SecondRequestStillReal | lophi-net-services/lophinet/proxydhcpd/dhcpd.py:283-300 | after one grant and one round the permission is gone, a second Request still gets the real file and a second Discover the refusal name |
| OneShotPxe.OnlyOwnEvents | lophi-net-services/lophinet/proxydhcpd/dhcpd.py:165-168 | in every run a machine's permission and remembered file depend only on its own commands and its own PXE packets that got an address |
| OneShotPxe.OthersAreNotOffered | lophi-net-services/lophinet/proxydhcpd/dhcpd.py:159-168 | a packet that is not from a PXE client or got no address is offered no file and changes nothing |
| OneShotPxe.PxeServices.Handle | lophi-net-services/lophinet/aclserver.py:46-61 | any one command or packet is one step of the run |
| OneShotPxe.ServeAll | lophi-net-services/lophinet/proxydhcpd/dhcpd.py:165-300 | the handlers over any sequence of commands and packets are the run of them, answers included |
| VmRegistry.Registry.CreateItem | lophi-disk-introspection-server/src/dis_threads.c:33-58 | a fresh node with the next id is last in the list, which stays well linked |
| VmRegistry.Registry.Append | lophi-disk-introspection-server/src/dis_threads.c:47-54 | the pointer updates of an insertion keep both directions of links right |
| VmRegistry.Registry.RemoveItem | lophi-disk-introspection-server/src/dis_threads.c:63-87 | exactly that node leaves the list, which stays well linked in both directions |
| VmRegistry.Registry.Unlink | lophi-disk-introspection-server/src/dis_threads.c:67-77 | the pointer updates of a removal, at the head, the tail or between |
| VmRegistry.Registry.UpdateMetaData | lophi-disk-introspection-server/src/dis_threads.c:92-103 | only that machine's file name changes |
| VmRegistry.Registry.UpdateForwardFd | lophi-disk-introspection-server/src/dis_threads.c:108-132 | only the machine with that id gets the socket, and nothing changes without one |
| VmRegistry.Registry.GetVmId | lophi-disk-introspection-server/src/dis_threads.c:138-156 | the first machine in the list with that file name, or -1 |
| VmRegistry.RunOrdered | lophi-disk-introspection-server/src/dis_threads.c:43-54 | in every run the ids grow strictly along the list and are below the counter |
| VmRegistry.ListIsLives | lophi-disk-introspection-server/src/dis_threads.c:33-132 | in every run the list shows each live machine with exactly what its own operations did to it, and no other |
| VmRegistry.LookupIsOldestLife | lophi-disk-introspection-server/src/dis_threads.c:138-156 | after every run the lookup gives the oldest live machine using the file, and -1 exactly when there is none |
| VmRegistry.RemovedForGood | lophi-disk-introspection-server/src/dis_threads.c:63-87 | a removed id never comes back, whatever follows |
| VmRegistry.Registry.Perform | lophi-disk-introspection-server/src/dis_threads.c:33-132 | any one operation changes the heap list as it changes the sequence of records, and nothing when its machine is not connected |
| VmRegistry.PerformAll | lophi-disk-introspection-server/src/dis_threads.c:33-156 | the heap list after any sequence of operations is well linked and holds their run, and a lookup in it gives the oldest live machine using the file, or -1 exactly when there is none |
| PacketLoss.Analyze | lophi-automation/lophi_automation/analysis/packetloss.py:121-189 | for all frames and 16-bit ids the total is packets received plus dropped, the published values are as stated, and the error exit is never taken |
| PacketLoss.PublishedIff | lophi-automation/lophi_automation/analysis/packetloss.py:148-162 | the published losses stay within the published total exactly while the latest gap is at most the packets received |
| PacketLoss.PublishedCanExceed | lophi-automation/lophi_automation/analysis/packetloss.py:148-162 | ids 1 and 9: seven dropped out of a published two |
| PacketLoss.MissingModuloCycle | lophi-automation/lophi_automation/analysis/packetloss.py:155-173 | for a source numbering 1 to 65535 a gap is counted modulo 65535 |
| PacketLoss.LostIsTrueIff | lophi-automation/lophi_automation/analysis/packetloss.py:152-185 | the losses counted never exceed the true ones, and equal them exactly when every gap is shorter than 65535 |
| PacketLoss.CountersAreTrueIff | lophi-automation/lophi_automation/analysis/packetloss.py:121-189 | after any run dropped equals source positions spanned minus packets received, and the total the span, exactly when every gap is shorter than 65535 |
| PacketLoss.OnlyRelevantCount | lophi-automation/lophi_automation/analysis/packetloss.py:137-146 | for any frames the counters are those of the IP packets from the sensor that carry UDP, every one counted with its size |
| PacketLoss.MissingIs | lophi-automation/lophi_automation/analysis/packetloss.py:151-173 | between any two numbers nothing is taken to be missing before 0 or the same number, and otherwise what a numbering from 1 to 65535 passes over |

## Left out

- TFTP: client and server use the same block size, for writes and for what a read delivers a positive one; request parsing, file-name filters and generated files are not modelled.
- TFTP: datagrams arrive parsed; one that `parse` cannot read ends the transfer in the code and is not an arrival here, and the cut of a datagram at the block size is not modelled (a client's blocks are never longer).
- TFTP: time is reduced to silent rounds of the wait.
- Scheduler and HookStream: processes and threads are state machines over values, one step for each operation on shared state, so aliasing of heap objects and the order of unshared work inside a process are not captured.
- Scheduler: one scheduler only, since engine ids are counted per process and collide in the lists shared by several schedulers; the ALLOCATED field, database updates, the analysis itself and a script class without NAME are left out.
- Scheduler: a worker terminated while it holds a machine's mutex never releases it, as in the code; liveness (that a waiting request is eventually served) is not claimed.
- Disk stream: the hook's failing writes and its early return with the mutex held, reconnection, and a meta record written or read in parts.
- StreamServer.Serve: what a client gets is stated for frames without a negative size, the only ones the hook sends; the bytes after a header with a negative size are not skipped, as in the code; end of input inside a frame ends the model's loop, where the code reads on.
- MftMap: runs are taken as given, unsorted and sorted; the resident-sector map written on the way (one record too far) is not claimed.
- SectorIndex: reloading a changed file removes its new runs and can leave stale sectors, so freshness across writes is not claimed; directory walking and path building are left out.
- MemoryFilter: the text-column key extractors are arbitrary functions; list-valued entries joined to strings, results that are not dictionaries when a filter is applied, preloaded filters, and the division by zero when adjusting with no analyses added are left out.
- BootServer: option parsing, the reply's bytes, notification and the remote host's answer are inputs or left out; addresses are numbers, not wrapped at 32 bits.
- OneShotPxe: address allocation of that server (it moves its own start address) is reduced to whether one was found; commands for addresses and PXE configurations, letter case of MAC text, and a deletion racing between the two processes are left out.
- VmRegistry: the mutex makes each operation one step; 32-bit overflow of the id, the forwarding address copy, freeing, printing and shutdown are left out, as is the list of waiting clients.
- PacketLoss: capture and frame parsing are inputs.
- Everything else in the repository (sensors, SATA decoding, Volatility and disk wrappers, GUI, database, messaging, FTP, plotting, experiments) is outside the model: it is I/O or calls into libraries that are not part of it.
