# LingCage in Dafny

LingCage is a small virtual machine monitor with an agent in the guest. This
project models the parts of it whose correctness is not visible from one
function: the virtqueue with its transport and its throttled disk, the images
of guest RAM, the protocols by which threads hold, stop and reconnect, and the
devices and byte streams around them. What is proved is stated over every
input, every run or every reachable state.

`dafny verify dfyconfig.toml` checks all of it.

## Parts

**Virtqueue, transport and disk.** `ChainWalk`, `Virtqueue`, `Cursors`,
`Slots`, `ExactlyOnce`, `Driver`, `Throttle`, `Scatter`, `BlockDevice`,
`ServiceRun` and `Transport` follow the split virtqueue of section 2.7 of virtio
1.2, the MMIO register block of section 4.2 and the block device of section 5.2.
The classes keep the fields the source updates, and each method is tied to a
function of its old state. `ExactlyOnce` is the protocol between driver and device as a
state machine over guest RAM as bytes: the rings live in RAM, the cursors are
16 bits wide, and the history of published heads and of what became of each is
unbounded. One pass of the disk is stated for rings of any content; `Driver`
carries the protocol's invariant through it for a driver which keeps to the rules
below, so that `Block.Notify` and `Transport.Notify` keep it in place, and
`ServiceRun` shows what they do to be a run of the protocol.

Accesses to guest RAM go to a map of the backed addresses. A write which meets a
gap has stored the bytes before it. Host files fail or come up short at any
call.

The driver is taken to keep to this, which virtio asks of it:

- at most as many chains are outstanding as the ring has slots;
- the rings do not overlap each other, and writable buffers of the chains
  outstanding do not overlap the rings or the descriptor table;
- ring registers are not written while a queue is ready. `SlotsRoundTrip` shows
  this is exactly what a capture needs, since it keeps the registers of a slot
  and not those its queue was built from.

Byte counts of a request wrap at 32 bits, as a release build of the source has
them.

**Images of guest RAM.** `Bits`, `GuestMemory`, `Dirty` and `Image` model the
regions, the marks of host writes, the log the hypervisor keeps of the guest's
own stores, and the writers and the reader of images. A file is a sequence of
cells, each a byte or a hole. Regions start on a page boundary and do not
overlap, the host page is a multiple of 4 KiB, and taking the hypervisor's log
of a region empties it. `Machine` holds the lifecycle state the image
operations are refused in.

**Step protocols.** `Orders` has one step per critical section of the hold, run
and stop orders, of the loops of vCPU and device threads, and of the waits.
Setting an order and waking the sleepers are two steps, threads wake up for no
reason at any time, and any thread may end at any time. `Demux` has one step per
lock section of the control connection, with the two sections of `fail` apart
and a request holding the lock of the link over several steps.

**Devices and streams.** `Serial` is the 16550 UART, `Bus` the placement of
devices and the restore matched by kind, `Pump` the terminals of commands, and
`Frames` the codec of the control protocol.

Time and the outcome of each input or output are left open: parameters or
nondeterministic choices. The token buckets use real arithmetic where the source
uses floating point, with clock readings which never go back.

## Where the code does less than it says

- `wait_until_still` looks at the count before the order, so `pause` can report
  a guest as held after it was told to stop, and the threads then leave on their
  own. `HeldUnderStop` is such a run; `HoldIsReal` shows the hold is real exactly
  if the order still is to hold.
- The comment on `request` promises that its channel closes once the connection
  ends. Two things break it. A request made between the two lock sections of
  `fail` stays pending after its connection is gone (`LateRequestStrands`). And
  the reader of a connection starts before the connection is installed, so it can
  be gone by then and nobody ever ends the connection (`LinkWithoutReader`,
  `UnreadRequestStrands`). `NoneStranded` shows that without either no request is
  stranded, and `StepIsRead` exactly when a connection comes to have no reader.
- With no connection the count of generations starts over, so a reader of an
  earlier connection can fail a later one of the same number (`TwinIsReached`,
  `TwinFails`). `StepAlone` and `OnlyOwnReaderFails` give the condition.
- The comment on `notify` promises the line for a chain reported as used. A
  malformed chain behind it ends the notify with neither the interrupt bit nor a
  raise for those used before, only a reset asked for. `MalformedHidesUsed` is
  such a queue, and `Transport.Notify` has the exact condition.
- A UART whose line fails while one write enables both interrupts leaves queued
  input unreported. `CutShortIsReached` reaches it, and `StepExact` gives the
  condition both ways.
- A restore refused by a device halfway leaves the devices before it changed, and
  often that device too, and returns the same error as a surplus can.
  `HalfRestored` is such a bus; `UnchangedExactly` and `Bus.Restore` give the
  condition under which a failure has changed nothing.

## Model

| member | source | states |
|---|---|---|
| `Counting.Pigeonhole` | src/lingcore/src/devices/virtio/queue.rs:152-156 | More places than a table has hold a repeat, which is why a chain longer than the table is a loop |
| `ChainWalk.WalkExact` | src/lingcore/src/devices/virtio/queue.rs:142-179 | Over any link structure a head is accepted exactly if its path ends without visiting a descriptor twice, `ChainTooLong` exactly if the path loops, any other error exactly if the path meets that fault; the descriptors returned are those of the path |
| `ChainWalk.StoppedTrailHasNoLoop` | src/lingcore/src/devices/virtio/queue.rs:152-156 | A path which ends visits nothing twice, so every valid chain up to the whole table is accepted |
| `ChainWalk.LongTrailLoops` | src/lingcore/src/devices/virtio/queue.rs:152-156 | A path of more descriptors than the table has visits one twice |
| `Virtqueue.WalkTableExact` | src/lingcore/src/devices/virtio/queue.rs:142-179 | The same of a descriptor table in guest RAM: in table, direct, backed, without a loop |
| `Virtqueue.LinkLaid` | src/lingcore/src/devices/virtio/queue.rs:41-48 | A descriptor laid in the table by the driver, its fields in little endian at offsets 0, 8, 12 and 14, is the link there, if direct and backed |
| `Virtqueue.DescriptorRoundTrip` | src/lingcore/src/devices/virtio/queue.rs:41-48 | Decoding the laid fields gives them back |
| `Virtqueue.FlagBits` | src/lingcore/src/devices/virtio/queue.rs:50-52 | Next, writable and indirect are bits 0, 1 and 2 of the flags |
| `Virtqueue.GoodSizes` | src/lingcore/src/devices/virtio/queue.rs:80-83 | The sizes accepted are the powers of two from 1 to 32768 |
| `Virtqueue.Queue.New` | src/lingcore/src/devices/virtio/queue.rs:80-92 | Builds a queue with both cursors zero exactly for a power of two from 1 to 32768 |
| `Virtqueue.Queue.Walk` | src/lingcore/src/devices/virtio/queue.rs:142-179 | The loop returns what the walk of the table is specified to, for any RAM |
| `Virtqueue.Queue.ReadRing` | src/lingcore/src/devices/virtio/queue.rs:184-192 | A 16-bit field of the available ring, or the fault of an address past the end or not backed |
| `Bytes.LittleEndianDigit` | src/lingcore/src/devices/virtio/queue.rs:188-203 | Byte k of a field in guest RAM counts in units of 256 to the power k |
| `Virtqueue.Queue.Pop` | src/lingcore/src/devices/virtio/queue.rs:99-109 | Returns the chain at the wrapped cursor, which moves before the walk and stays moved if it fails |
| `Virtqueue.Queue.UndoPop` | src/lingcore/src/devices/virtio/queue.rs:113-115 | Takes the cursor back by one, across the wrap |
| `Virtqueue.Queue.WriteAt` | src/lingcore/src/devices/virtio/queue.rs:184-203 | A field written where it is backed, else the bytes of it before the gap and an error |
| `Virtqueue.UndoIsInverse` | src/lingcore/src/devices/virtio/queue.rs:99-115 | Undoing a pop which returned a chain gives back the queue before it |
| `Virtqueue.Queue.AddUsed` | src/lingcore/src/devices/virtio/queue.rs:118-127 | Writes id and length of the element, then the index, and nothing else; a part not backed ends it there |
| `Virtqueue.Queue.SetCursors` | src/lingcore/src/devices/virtio/queue.rs:136-139 | Puts both cursors where they were taken, over the same rings |
| `Cursors.WrappedSlot` | src/lingcore/src/devices/virtio/queue.rs:105-120 | For every accepted size the wrapped cursor picks the slot an unbounded counter would |
| `Cursors.SlotsDiffer` | src/lingcore/src/devices/virtio/queue.rs:105-120 | Counters less than a ring apart pick different slots |
| `ExactlyOnce.PopAgrees` | src/lingcore/src/devices/virtio/queue.rs:99-109 | With rings and cursors in agreement with the history, a pop takes the next published head, and finds none exactly if all are decided |
| `ExactlyOnce.UsedIsReported` | src/lingcore/src/devices/virtio/queue.rs:118-127 | The bytes written for a used chain are the element in the slot of the unbounded count and the wrapped count |
| `ExactlyOnce.UsedGrows` | src/lingcore/src/devices/virtio/queue.rs:118-127 | The used ring then holds the last ring's worth of all elements, the new one included and no older one disturbed |
| `ExactlyOnce.StepKeeps` | src/lingcore/src/devices/virtio/queue.rs:99-139 | Publishing, guest stores, taking, refusing, deferring, serving, capture and restore each keep RAM, cursors and history in agreement |
| `ExactlyOnce.ExactlyOnceService` | src/lingcore/src/devices/virtio/block.rs:222-248 | After every run from a fresh queue the used ring names each served chain once and in published order, a prefix of the published heads where none was refused, and the next pop skips none |
| `ExactlyOnce.RestoreContinues` | src/lingcore/src/devices/virtio/mmio.rs:348-409 | A clone restored from a capture is in the very state captured, whatever happened since |
| `ExactlyOnce.DeviceRunExtends` | src/lingcore/src/devices/virtio/block.rs:222-243 | Any run of device steps only adds to the chains decided and leaves the published heads alone |
| `ExactlyOnce.CursorMoved` | src/lingcore/src/devices/virtio/mmio.rs:311-326 | Over any run without a restore the count of used chains only grows, and the wrapped used cursor looks unmoved exactly if it grew by a multiple of 65536 |
| `ExactlyOnce.NotifyMovesCursor` | src/lingcore/src/devices/virtio/mmio.rs:311-326 | With the available index fixed the used cursor moves exactly if a chain was used |
| `Throttle.WaitIsExact` | src/lingcore/src/devices/virtio/block.rs:77-89 | The wait returned is the least: asked again later a request is granted exactly if that much time has passed |
| `Throttle.GrantIsExact` | src/lingcore/src/devices/virtio/block.rs:77-89 | With h tokens held by now a cost is granted exactly if h covers it or the bucket is full, leaving h less the cost; a refusal leaves h and the wait earns exactly what is missing |
| `Throttle.HeldIsGranted` | src/lingcore/src/devices/virtio/block.rs:77-89 | A bucket which holds the cost never refuses it |
| `Throttle.EarnedIs` | src/lingcore/src/devices/virtio/block.rs:80 | A second earns the rate, and earnings are in proportion to time |
| `Throttle.TokensConserved` | src/lingcore/src/devices/virtio/block.rs:77-89 | Over any calls, tokens granted and held are at most those held before and earned since, and what is held stays between the debt of the largest cost and the rate |
| `Throttle.RateBound` | src/lingcore/src/devices/virtio/block.rs:65-95 | Over any calls at times which do not go back, the cost granted is at most rate + rate·T + max(0, largest cost - rate) |
| `Throttle.DiskBytesBound` | src/lingcore/src/devices/virtio/block.rs:115-127 | Over any requests at times which do not go back, with refusals by either bucket, the bytes let through are at most rate + rate·T + max(0, largest request - rate) |
| `Throttle.DiskRequestsBound` | src/lingcore/src/devices/virtio/block.rs:115-127 | And the requests let through at most rate + rate·T, refunds included |
| `Throttle.AdmitExact` | src/lingcore/src/devices/virtio/block.rs:115-127 | A request is let through exactly if both buckets grant it, and waits for the first which does not |
| `Throttle.AsksTogether` | src/lingcore/src/devices/virtio/block.rs:115-127 | What is let through over two stretches of requests adds up |
| `Throttle.RefusalTakesNothing` | src/lingcore/src/devices/virtio/block.rs:115-127 | A refusal by either bucket leaves both as a mere refill would, so the refund is exact |
| `Throttle.GrantedAfterTwoWaits` | src/lingcore/src/devices/virtio/block.rs:115-127 | A request tried again after each wait returned is granted after at most two waits |
| `Throttle.Bucket.constructor` | src/lingcore/src/devices/virtio/block.rs:67-73 | A full bucket |
| `Throttle.Limiter.constructor` | src/lingcore/src/devices/virtio/block.rs:106-111 | A bucket, full, for each rate which is not zero |
| `Throttle.Bucket.Take` | src/lingcore/src/devices/virtio/block.rs:77-89 | Refills up to the rate, then grants or returns the wait as specified |
| `Throttle.Bucket.PutBack` | src/lingcore/src/devices/virtio/block.rs:92-94 | Gives tokens back up to the rate |
| `Throttle.Limiter.Take` | src/lingcore/src/devices/virtio/block.rs:115-127 | Takes from both buckets or, if either is short, leaves both as specified for a refusal |
| `Scatter.ScatterFrame` | src/lingcore/src/devices/virtio/block.rs:304-316 | A read writes nothing outside its buffers |
| `Scatter.ScatterGather` | src/lingcore/src/devices/virtio/block.rs:304-316 | For every split into disjoint buffers, the buffers in order hold the slice laid across them |
| `BlockDevice.WriteThenRead` | src/lingcore/src/devices/virtio/block.rs:277-318 | Sectors read back as they were written, however the buffers of either request are split |
| `BlockDevice.ChainParts` | src/lingcore/src/devices/virtio/block.rs:322-337 | Of a chain of header, data and status the data is what lies between, and the status goes to the last if that is writable and not empty |
| `BlockDevice.HeaderLayout` | src/lingcore/src/devices/virtio/block.rs:341-352 | A header laid by the driver, type at 0 and sector at 8 in little endian, is read as such, from a readable descriptor of 16 bytes or more and no other |
| `BlockDevice.RefusalExact` | src/lingcore/src/devices/virtio/block.rs:286-301 | In bytes: data moves exactly if every buffer goes its way, they hold whole sectors and end within the disk; the first two are status 2, the last status 1 |
| `BlockDevice.RequestKinds` | src/lingcore/src/devices/virtio/block.rs:259-273 | Request 0 reads, 1 writes and is refused by a read-only disk, 4 flushes, any other is unsupported, each with nothing else touched |
| `BlockDevice.Block.constructor` | src/lingcore/src/devices/virtio/block.rs:149-158 | The capacity is the whole sectors of the file, fixed for good |
| `BlockDevice.Block.Transfer` | src/lingcore/src/devices/virtio/block.rs:277-318 | Wrong direction, a part of a sector and the end of the disk are refused with nothing moved; an accepted read lays the slice across the buffers, a failed one the start of it with the whole buffers counted; an accepted write changes exactly that slice, or the start of it on a failure |
| `BlockDevice.Block.FillOne` | src/lingcore/src/devices/virtio/block.rs:307-311 | One buffer more holds the next piece of the disk, or the start of it if the read fails or is short; every store so far lies in the buffers and is marked |
| `BlockDevice.Block.DrainOne` | src/lingcore/src/devices/virtio/block.rs:312-314 | The disk holds the bytes of one buffer more, or the start of them |
| `BlockDevice.Block.ReadInto` | src/lingcore/src/devices/virtio/block.rs:304-316 | The loop fills the buffers in order from the slice and counts whole buffers modulo 2^32, and tells how far a failed one got |
| `BlockDevice.Block.WriteFrom` | src/lingcore/src/devices/virtio/block.rs:304-316 | The loop lays the bytes of the buffers over the slice in order |
| `BlockDevice.Block.Serve` | src/lingcore/src/devices/virtio/block.rs:254-274 | Each kind of request does what it is specified to; the disk keeps its length, a read-only one its content, and every page written is marked |
| `BlockDevice.Block.Admit` | src/lingcore/src/devices/virtio/block.rs:228-234 | A request is held exactly if the limiter refuses its payload, and is then due after the wait returned |
| `BlockDevice.Block.Answer` | src/lingcore/src/devices/virtio/block.rs:236-239 | For any rings and a chain whose buffers are backed: the request is done, its status byte written and the chain reported as used with one byte more than was written, coming out as the report does |
| `BlockDevice.Block.NotifyOne` | src/lingcore/src/devices/virtio/block.rs:225-239 | One pass for rings of any content: nothing changed with the ring empty or the chain held for later; nothing but the cursor moved for a malformed chain or one without a status byte; else the chain answered. Only a request is put to the limiter, with all its bytes, and it is held exactly if the limiter refuses it, due when the wait returned is over |
| `BlockDevice.AnswerServes` | src/lingcore/src/devices/virtio/block.rs:236-239 | Under the driver's rules answering the chain in hand can not fail, and decides it as served |
| `BlockDevice.PassServes` | src/lingcore/src/devices/virtio/block.rs:225-239 | Under the driver's rules one pass keeps the protocol's invariant, and decides the next chain unless there is none or it is held |
| `BlockDevice.Block.Notify` | src/lingcore/src/devices/virtio/block.rs:222-242 | Handles chain after chain, each as specified and on from where the one before left off, decided in published order; all are served but for a last one refused, which is malformed or has no status byte and leaves RAM and disk alone; ends with the ring empty exactly if no request is held, and none is without a limiter; what the limiter let through is what was served, in requests and in bytes |
| `BlockDevice.MovedWithinRate` | src/lingcore/src/devices/virtio/block.rs:222-242 | The bytes and requests a notify serves are within the rates of its limiter |
| `ServiceRun.HandledIsRun` | src/lingcore/src/devices/virtio/block.rs:225-239 | One chain handled is a run of device steps of the protocol which decides it |
| `ServiceRun.NotifyIsRun` | src/lingcore/src/devices/virtio/block.rs:222-242 | All a notify does is a run of device steps of the protocol, from the state it finds to the state it leaves |
| `ServiceRun.ServingOnce` | src/lingcore/src/devices/virtio/block.rs:222-242 | Whatever a notify leaves, the used ring in RAM names each chain served once and in order, and the next pop skips none |
| `Driver.PopServes` | src/lingcore/src/devices/virtio/block.rs:225-226 | Taking a chain keeps the invariant with that chain in hand, and a malformed one counts as decided |
| `Driver.WalkIsBacked` | src/lingcore/src/devices/virtio/queue.rs:167-173 | Every buffer of a chain the walk accepts is backed |
| `Driver.UndoServes` | src/lingcore/src/devices/virtio/block.rs:231 | A deferred chain is undecided again |
| `Driver.FillHolds` | src/lingcore/src/devices/virtio/block.rs:236-238 | Stores into the buffers of the chain in hand disturb neither rings nor table |
| `Driver.FinishServes` | src/lingcore/src/devices/virtio/block.rs:239 | Reporting the chain in hand succeeds and decides it |
| `Driver.UsedMovesCursor` | src/lingcore/src/devices/virtio/mmio.rs:324-326 | Between two moments of serving, the used cursor moves exactly if a chain was used |
| `Slots.SlotRoundTrip` | src/lingcore/src/devices/virtio/mmio.rs:356-408 | One slot comes back from a capture exactly if its registers are those its queue was built from |
| `Transport.HalvesMakeAddress` | src/lingcore/src/devices/virtio/mmio.rs:281-286 | An address written in two halves arrives whole in either order |
| `Transport.RingsArrive` | src/lingcore/src/devices/virtio/mmio.rs:279-286 | A driver which writes the size and both halves of each address has its rings where it said, the size capped at 256 |
| `Transport.RingWritesCommute` | src/lingcore/src/devices/virtio/mmio.rs:279-286 | Writes to different registers of a queue do not touch each other |
| `Transport.SlotsRoundTrip` | src/lingcore/src/devices/virtio/mmio.rs:348-409 | Every slot comes back from a capture, whatever the clone held, exactly if no ring register was written while its queue was ready |
| `Transport.Transport.SetStatus` | src/lingcore/src/devices/virtio/mmio.rs:241-270 | Zero resets registers and slots and keeps the configuration generation; `FEATURES_OK` without version 1 sets `FAILED` |
| `Transport.Transport.WriteRingRegister` | src/lingcore/src/devices/virtio/mmio.rs:272-286 | Changes one register of the selected slot, never the queue built from it, and no other slot |
| `Transport.Transport.SetReady` | src/lingcore/src/devices/virtio/mmio.rs:287-301 | Builds the selected queue afresh from its registers, drops it, or asks for a reset for a size which can not be indexed |
| `Transport.Transport.Capture` | src/lingcore/src/devices/virtio/mmio.rs:348-376 | Keeps registers, configuration, and registers and cursors of each slot |
| `Transport.Transport.TakeUpOne` | src/lingcore/src/devices/virtio/mmio.rs:395-407 | One slot as it was kept, or its registers alone if its queue can not be built |
| `Transport.Transport.TakeUpQueues` | src/lingcore/src/devices/virtio/mmio.rs:395-408 | The slots in order up to the first which can not be built |
| `Transport.Transport.TakeUp` | src/lingcore/src/devices/virtio/mmio.rs:381-409 | Another number of queues is refused with nothing changed; otherwise all slots come up to the first which can not be built, the later ones as they were |
| `Transport.Transport.ServeQueue` | src/lingcore/src/devices/virtio/mmio.rs:311-326 | Serving leaves `NEEDS_RESET` after a malformed chain, else the ring interrupt bit exactly if a chain was used; each chain was handled as the disk has it, which keeps its length and, if read-only, its content; what the limiter let through is what was served, and a chain is left exactly if it is held |
| `Transport.Transport.Notify` | src/lingcore/src/devices/virtio/mmio.rs:304-328 | Raises the line exactly if a chain was used and none was malformed, with an error if the line fails; the disk is as serving leaves it; a missing queue changes nothing |
| `Transport.MalformedHidesUsed` | src/lingcore/src/devices/virtio/mmio.rs:304-328 | A head past the table behind a good chain: the good one is used, and neither the interrupt bit nor a raise tells the guest |
| `Transport.Transport.Restored` | src/lingcore/src/devices/virtio/mmio.rs:464-503 | Bumps the generation exactly if the configuration moved, serves on from the capture, and raises the line once exactly if there is either to tell; the disk is as serving leaves it |
| `Transport.GenerationMoves` | src/lingcore/src/devices/virtio/mmio.rs:469-473 | A changed configuration moves the generation and sets its interrupt bit, and nothing else |
| `Bits.AndPredecessor` | src/lingcore/src/mem/mod.rs:232-233 | `w & (w - 1)` clears the lowest set bit and no other |
| `GuestMemory.ScanStep` | src/lingcore/src/mem/mod.rs:231-238 | One step of the bit scan takes in the page of that bit and no other |
| `GuestMemory.GuestRam.Mark` | src/lingcore/src/mem/mod.rs:222-241 | Marks exactly the logged pages of the region at that address, for any words, and refuses any other address |
| `GuestMemory.GuestRam.AnyMarked` | src/lingcore/src/mem/mod.rs:250-262 | True exactly if a byte of the stretch is on a marked page |
| `GuestMemory.GuestRam.DropInRegion` | src/lingcore/src/mem/mod.rs:283-307 | The pages of one region dropped and unmarked together, or neither |
| `GuestMemory.GuestRam.Written` | src/lingcore/src/mem/mod.rs:245-265 | True exactly if some byte backed without a gap from the start is on a marked page |
| `GuestMemory.GuestRam.Discard` | src/lingcore/src/mem/mod.rs:271-310 | Whole pages read as the base again and lose their marks together, up to where it failed; parts of pages and gaps are refused |
| `GuestMemory.GuestRam.Write` | src/lingcore/src/mem/mod.rs:312-319 | Stores the bytes up to the first gap and marks every page it touches, and succeeds exactly if there is no gap |
| `GuestMemory.LoadStored` | src/lingcore/src/mem/mod.rs:312-371 | What was written is read back, and a range apart from it reads as before and stays as backed as it was |
| `GuestMemory.PagesExact` | src/lingcore/src/mem/mod.rs:312-319 | The pages a write marks are exactly those it overlaps |
| `GuestMemory.DroppedReads` | src/lingcore/src/mem/mod.rs:267-310 | Dropped bytes read as the base, and all others as before |
| `GuestMemory.GuestRam.FillFrom` | src/lingcore/src/mem/mod.rs:332-336 | Stores what was read, at most up to a gap, also when it fails after some of it; a start not backed is refused, and none is taken only at the end of the source |
| `GuestMemory.GuestRam.FillAllFrom` | src/lingcore/src/mem/mod.rs:340-353 | For any way the reads come up short, stores what the source holds next, and less than asked only if it ran dry |
| `GuestMemory.GuestRam.FillMore` | src/lingcore/src/mem/mod.rs:346-351 | One more read continues the piece where the last one ended |
| `GuestMemory.GuestRam.DrainTo` | src/lingcore/src/mem/mod.rs:357-361 | The sink holds the bytes of RAM, or the start of them up to a failure or a gap |
| `Dirty.StepFaithful` | src/lingcore/src/mem/mod.rs:222-319 | Host writes, guest stores, discards and takes of the log each keep every byte which differs from its base on a marked or logged page |
| `Dirty.StoresLand` | src/lingcore/src/mem/mod.rs:312-319 | A backed store by host or guest is read back, and marks or logs exactly its pages |
| `Dirty.RunFaithful` | src/lingcore/src/machine/mod.rs:1048-1061 | So in every reachable state, from a guest assembled on its base |
| `Dirty.TracksFaithful` | src/lingcore/src/mem/mod.rs:312-353 | Host writes made through any device keep it too |
| `Dirty.LogWordsExact` | src/lingcore/src/mem/mod.rs:219-241 | The log as words of 64 pages and the log as a set of pages are the same |
| `Dirty.CaptureIsClean` | src/lingcore/src/machine/mod.rs:1058-1061 | After any run and one take of every log, a byte off the marked pages is the base's |
| `Image.SparseReadsDense` | src/lingcore/src/machine/mod.rs:1012-1046 | On a fresh file the sparse image reads byte for byte as the regions one after another, and ends where they do |
| `Image.Machine.WriteMemory` | src/lingcore/src/machine/mod.rs:1016-1046 | Lays every chunk which is not all zero, whole, over what the file held from its position, skips the others, and sets the exact length; refused unless paused with nothing written |
| `Image.Machine.WriteChunk` | src/lingcore/src/machine/mod.rs:1029-1038 | A chunk is laid whole if any byte of it is not zero, else skipped |
| `Image.Machine.WriteRegion` | src/lingcore/src/machine/mod.rs:1026-1041 | All chunks of one region |
| `Image.AnyByte` | src/lingcore/src/machine/mod.rs:1032 | Whether any byte is not zero |
| `Image.Machine.ReadMemory` | src/lingcore/src/machine/mod.rs:1116-1130 | For any chunking of reads RAM becomes what the file holds region by region, `SnapshotShape` only for a file too short, and every page written is marked |
| `Image.Machine.ReadRegion` | src/lingcore/src/machine/mod.rs:1123-1128 | One region more of RAM is what the file holds, with the regions before left alone |
| `Image.ImageRoundTrip` | src/lingcore/src/machine/mod.rs:1016-1130 | RAM read back from a written image is the RAM written, and no other RAM reads from it |
| `Image.Machine.CollectRegion` | src/lingcore/src/machine/mod.rs:1058-1061 | Moves the logged pages of a region to the marks, or changes nothing |
| `Image.Machine.GetDirtyLog` | src/lingcore/src/machine/mod.rs:1059 | The words of the hypervisor's log of a region, which is then empty |
| `Image.Machine.GuestStores` | src/lingcore/src/machine/mod.rs:1048-1050 | A store by the guest itself reaches the hypervisor's log alone |
| `Image.Machine.Collect` | src/lingcore/src/machine/mod.rs:1058-1061 | No page of RAM is left in the hypervisor's log, and both logs together hold what they did, even after a failure |
| `Image.Machine.FindRun` | src/lingcore/src/machine/mod.rs:1086-1094 | The longest run of pages which are all marked or all unmarked |
| `Image.Machine.PageWritten` | src/lingcore/src/machine/mod.rs:1086-1090 | Whether one page is marked |
| `Image.Machine.AnyWritten` | src/lingcore/src/machine/mod.rs:1073 | Whether any page of a stretch is marked |
| `Image.Machine.WriteRun` | src/lingcore/src/machine/mod.rs:1084-1103 | One run is laid whole or skipped, and the next starts on a page boundary |
| `Image.Machine.WriteDirtyChunk` | src/lingcore/src/machine/mod.rs:1070-1106 | Skipping whole chunks and moving runs lays exactly the marked pages of the chunk |
| `Image.Machine.WriteDirtyRegion` | src/lingcore/src/machine/mod.rs:1067-1107 | All chunks of one region |
| `Image.Machine.WriteDirty` | src/lingcore/src/machine/mod.rs:1051-1110 | Lays exactly the marked pages, a hole for each other, with the exact length; loses no mark and no log even when it fails; refused unless paused |
| `Image.DirtyOverBase` | src/lingcore/src/machine/mod.rs:1048-1110 | Laid over the base the dirty image reads as RAM exactly if every page off the marked ones equals the base |
| `Image.CaptureIsExact` | src/lingcore/src/machine/mod.rs:1048-1110 | So after any run of host writes, guest stores and discards, the dirty image over the base is RAM |
| `Orders.StepKeeps` | src/lingcore/src/machine/mod.rs:553-615 | Each step keeps the count, the locks and the promise that no wake-up is lost |
| `Orders.ParkedIsExact` | src/lingcore/src/machine/mod.rs:564-575 | In every reachable state `parked` is the number of threads inside `wait_out_a_hold`, and none of them has its vCPU locked |
| `Orders.HeldFindsAllStill` | src/lingcore/src/machine/mod.rs:579-594 | A wait for all threads returns `Held` exactly if each is parked and no vCPU is locked |
| `Orders.StillRun` | src/lingcore/src/machine/mod.rs:1218-1235 | Under a hold no run without a new order gets a thread out, even one woken by a resume which a new pause overtook |
| `Orders.HoldIsReal` | src/lingcore/src/machine/mod.rs:1402-1415 | With each thread seen parked, none leaves before the next order exactly if the order is still to hold |
| `Orders.HeldUnderStop` | src/lingcore/src/machine/mod.rs:579-594 | A reachable state in which a wait returned `Held` under a stop order and the thread leaves on its own |
| `Orders.WorkerIsWoken` | src/lingcore/src/machine/mod.rs:553-575 | A parked thread asleep past a change of the order has a `notify_all` to come, and then leaves |
| `Orders.WaiterIsWoken` | src/lingcore/src/machine/mod.rs:579-615 | As has every timed and untimed waiter whose condition is met, and its wait then ends |
| `Orders.StopIsObeyed` | src/lingcore/src/machine/mod.rs:1228-1235 | While a stop stands each worker enters the guest at most once more, takes at most six steps, always has one to take, and then is gone |
| `Orders.EndedStays` | src/lingcore/src/machine/mod.rs:1228-1235 | A worker which has read a stop or left for good never enters the guest again, whatever is told later |
| `Orders.HoldIsObeyed` | src/lingcore/src/machine/mod.rs:1228-1235 | Under a hold a worker which does not quit is parked once it has taken four steps |
| `Orders.OrderDecides` | src/lingcore/src/machine/mod.rs:1228-1235 | A worker ends exactly by leaving for good or reading a stop, comes to park exactly by reading a hold, and is released exactly by looking under another order |
| `Orders.TellReleases` | src/lingcore/src/machine/mod.rs:553-575 | Telling a parked thread anything but to hold gets it out once it is woken and has looked |
| `Orders.WaitEndsRightly` | src/lingcore/src/machine/mod.rs:579-615 | A wait ends held, stopped or out of time exactly if that is so, and sleeps exactly otherwise |
| `Demux.StepKeeps` | src/lingcage/src/sandbox/demux.rs:99-350 | Each lock section keeps generations in order, readers with their connections, `stop` in order, and frames to requests of their own generation |
| `Demux.InstallIsolates` | src/lingcage/src/sandbox/demux.rs:220-254 | When `install` returns after replacing a live connection, that was of the generation before and none of its requests is pending |
| `Demux.ReconnectIsolates` | src/lingcage/src/sandbox/demux.rs:116-188 | From then on, through any interleaving and any further reconnects while a connection lives, no request is added on the replaced generation and no frame of its reader reaches any request |
| `Demux.LateFailIsHarmless` | src/lingcage/src/sandbox/demux.rs:176-188 | At any later moment of such a run, either lock section of a `fail` by a reader of the replaced generation leaves the live connection and the requests made on it |
| `Demux.StepAlone` | src/lingcage/src/sandbox/demux.rs:104-111 | A live connection shares its generation with no other running reader, kept by a step exactly if it does not install a generation an old reader still goes by |
| `Demux.OnlyOwnReaderFails` | src/lingcage/src/sandbox/demux.rs:176-188 | Over every run from the start without such an install, also through times without a connection, `fail` by any reader but the live one's leaves the live connection and its requests |
| `Demux.TwinFails` | src/lingcage/src/sandbox/demux.rs:176-188 | After such an install `fail` by the old reader drops the new connection and closes its requests |
| `Demux.TwinIsReached` | src/lingcage/src/sandbox/demux.rs:104-111 | Such a state is reachable: with no connection the count starts over at 1 |
| `Demux.StepIsRead` | src/lingcage/src/sandbox/demux.rs:220-254 | A live connection has a reader which has not ended, kept by a step exactly if it does not install a connection whose reader has |
| `Demux.RunIsRead` | src/lingcage/src/sandbox/demux.rs:220-254 | So over every run without such an install |
| `Demux.StopIsFinal` | src/lingcage/src/sandbox/demux.rs:323-350 | After `stop` returned, link and pending requests stay empty through every run |
| `Demux.AnswersArrive` | src/lingcage/src/sandbox/demux.rs:310-320 | Over every run each frame for a pending request of its own connection is given to it once, in order, and nothing else is |
| `Demux.LiveAnswerArrives` | src/lingcage/src/sandbox/demux.rs:310-320 | So an answer read on the live connection reaches its request |
| `Demux.StepPending` | src/lingcage/src/sandbox/demux.rs:116-188 | A request is pending exactly from when it is registered until it is completed, fails to be written, is failed with its generation, or `stop` clears it |
| `Demux.StepLink` | src/lingcage/src/sandbox/demux.rs:176-254 | A connection comes to live exactly by being installed, and goes exactly when replaced, dropped by a reader of its generation, or cut by `stop` |
| `Demux.RequestIsRegistered` | src/lingcage/src/sandbox/demux.rs:116-128 | Each request registers under the next id drawn, with the generation of the connection it goes out on |
| `Demux.AcceptorEnds` | src/lingcage/src/sandbox/demux.rs:259-280 | Once stopping, the acceptor is gone within seven of its steps |
| `Demux.AcceptorStops` | src/lingcage/src/sandbox/demux.rs:259-280 | And installs at most the connection it has in hand |
| `Demux.AcceptorGoesOn` | src/lingcage/src/sandbox/demux.rs:259-280 | Until then it ends for nothing, and numbers each connection after the live one |
| `Demux.NoneStranded` | src/lingcage/src/sandbox/demux.rs:116-188 | Over every run from the start in which no connection is installed after its reader ended and no request registered between the two sections of `fail`, each pending request is on a live connection with a reader reading it, or about to be closed |
| `Demux.LateRequestStrands` | src/lingcage/src/sandbox/demux.rs:173-188 | A request registered between the two sections can be left with nobody to close it |
| `Demux.UnreadRequestStrands` | src/lingcage/src/sandbox/demux.rs:227-243 | So can the first request on a connection installed after its reader ended |
| `Demux.LateRequestIsReached` | src/lingcage/src/sandbox/demux.rs:116-188 | A request between the two sections is reachable |
| `Demux.LinkWithoutReader` | src/lingcage/src/sandbox/demux.rs:227-243 | A live connection whose only reader has ended is reachable |
| `Demux.IdsRepeat` | src/lingcage/src/sandbox/demux.rs:99-101 | Two draws give the same request id exactly if a multiple of 2^31 apart |
| `Serial.StepExact` | src/lingcore/src/devices/serial.rs:115-259 | Each operation keeps input pending exactly if enabled and queued and every pending reason enabled, unless a failing line cuts one write short, and over a working line raises it once for each reason which becomes pending |
| `Serial.RunExact` | src/lingcore/src/devices/serial.rs:115-259 | Over every run on a working line raises equal the times a reason went from clear to pending |
| `Serial.CutShortIsReached` | src/lingcore/src/devices/serial.rs:239-251 | One byte received by a fresh UART and both interrupts enabled over a failing line leave the byte unreported |
| `Serial.StreamConserved` | src/lingcore/src/devices/serial.rs:147-183 | Over every run, whatever fails, bytes read from `DATA` followed by the queue are those accepted, in order, with the queue at most 4096 |
| `Serial.OutputConserved` | src/lingcore/src/devices/serial.rs:224-235 | Over every run the sink has the bytes the guest sent, in order |
| `Serial.TransmitExact` | src/lingcore/src/devices/serial.rs:128-133 | The transmit interrupt is pending exactly from when it is due until it is reported or disabled, whatever the line does |
| `Serial.ReasonReported` | src/lingcore/src/devices/serial.rs:187-207 | `IIR` reports input exactly if enabled and queued, the transmit register exactly if that alone is pending, and the FIFOs as enabled |
| `Serial.LineStatus` | src/lingcore/src/devices/serial.rs:210-218 | `LSR` tells of queued input, with the transmit register always empty |
| `Serial.WrittenIsRead` | src/lingcore/src/devices/serial.rs:252-256 | Plain registers read back what was written, status ones drop it |
| `Serial.EnabledIsRead` | src/lingcore/src/devices/serial.rs:239-251 | So does `IER` |
| `Serial.DivisorIsRead` | src/lingcore/src/devices/serial.rs:225-238 | And the divisor by its halves while the latch is open |
| `Serial.Ports` | src/lingcore/src/devices/serial.rs:15-32 | Registers lie at offsets 0 to 7 and repeat every eight bytes |
| `Serial.ReceiveStream` | src/lingcore/src/devices/serial.rs:147-165 | A receive queues the longest prefix there is room for and returns its length |
| `Serial.RestoreContinues` | src/lingcore/src/devices/serial.rs:305-347 | A UART restored from a capture, whatever it held, answers every later run as the captured one |
| `Serial.Serial.constructor` | src/lingcore/src/devices/serial.rs:90-105 | A UART in reset, with nothing pending |
| `Serial.Serial.AskForAttention` | src/lingcore/src/devices/serial.rs:115-124 | The reason is pending, and the line raised once unless it was already |
| `Serial.Serial.AskAboutTransmit` | src/lingcore/src/devices/serial.rs:128-133 | As that for an empty transmit register, if enabled |
| `Serial.Serial.AskAboutInput` | src/lingcore/src/devices/serial.rs:137-142 | As that for queued input, if enabled and there is any |
| `Serial.Serial.Receive` | src/lingcore/src/devices/serial.rs:147-165 | Queue, logging flag, pending reason and raises are those specified, for any outcome of the line |
| `Serial.Serial.Read` | src/lingcore/src/devices/serial.rs:173-219 | Value and effect of a read of each register, latched or not |
| `Serial.Serial.TakeByte` | src/lingcore/src/devices/serial.rs:176-184 | The first byte leaves the queue, and the reason for input goes with the last |
| `Serial.Serial.Identify` | src/lingcore/src/devices/serial.rs:187-206 | Input is reported first, and reporting an empty transmit register clears it |
| `Serial.Serial.Write` | src/lingcore/src/devices/serial.rs:224-259 | State, bytes sent and raises of a write to each register, for any outcome of sink and line |
| `Serial.Serial.Send` | src/lingcore/src/devices/serial.rs:228-235 | A byte reaches the sink even if the flush fails, and the transmit register is asked about only after both |
| `Serial.Serial.Keep` | src/lingcore/src/devices/serial.rs:225-256 | The other registers hold what is written, the divisor by halves |
| `Serial.Serial.Enable` | src/lingcore/src/devices/serial.rs:239-251 | Reasons no longer enabled are dropped, then each enabled one is asked about |
| `Serial.Serial.Capture` | src/lingcore/src/devices/serial.rs:305-322 | Keeps all but the logging flag |
| `Serial.Serial.Restore` | src/lingcore/src/devices/serial.rs:324-347 | Another kind or version is refused with nothing changed |
| `Bus.Place` | src/lingcore/src/devices/bus.rs:46-56 | Accepts a range exactly if it is non-empty, fits the address space and no address of it is claimed, and keeps ranges disjoint |
| `Bus.Find` | src/lingcore/src/devices/bus.rs:59-67 | Finds the one device which covers the address, with the offset, and none exactly if unclaimed |
| `Bus.EveryBlobTaken` | src/lingcore/src/devices/bus.rs:162-180 | Without a surplus every saved blob goes to exactly one device of its kind |
| `Bus.CaptureMatches` | src/lingcore/src/devices/bus.rs:137-185 | On a bus with the same kinds in order, each device is given the blob captured in its place, with no surplus |
| `Bus.RestoreUndoesCapture` | src/lingcore/src/devices/bus.rs:137-185 | So it then holds the captured state |
| `Bus.Sort` | src/lingcore/src/devices/bus.rs:148-152 | The queues hold the blobs of each kind in saved order |
| `Bus.CountKinds` | src/lingcore/src/devices/bus.rs:160-165 | The number of placed devices of each kind |
| `Bus.Take` | src/lingcore/src/devices/bus.rs:172-178 | The next blob of the kind leaves its queue, and no other does |
| `Bus.Bus.Restore` | src/lingcore/src/devices/bus.rs:147-185 | The k-th blob of a kind goes to the k-th device of it and each device is told once at the end, exactly if none refuses; a surplus is refused with nothing changed; the first device to refuse ends it with its error, itself as it leaves itself, those before applied and those after as they were; a failure leaves the whole bus unchanged exactly if it is a surplus, a failed capture, or nothing applied was new |
| `Bus.UnchangedExactly` | src/lingcore/src/devices/bus.rs:172-180 | A restore ended by a device leaves the bus as it was exactly if the blobs before held what their devices did and the refusal changed nothing |
| `Bus.HalfRestored` | src/lingcore/src/devices/bus.rs:172-180 | A bus of two devices whose second refuses after the first has changed |
| `Bus.Bus.constructor` | src/lingcore/src/devices/bus.rs:96-98 | An empty bus |
| `Bus.Bus.Apply` | src/lingcore/src/devices/bus.rs:172-180 | Each device takes the next blob of its kind, up to the first which refuses |
| `Bus.Bus.Settle` | src/lingcore/src/devices/bus.rs:181-183 | Each device is told once, and nothing else changes |
| `Bus.Bus.Put` | src/lingcore/src/devices/bus.rs:122-128 | One device has a new state, every device its place |
| `Bus.Bus.PlacePort` | src/lingcore/src/devices/bus.rs:102-104 | Port space grows by the device exactly if its range is free |
| `Bus.Bus.PlaceMmio` | src/lingcore/src/devices/bus.rs:107-109 | MMIO space grows by the device exactly if its range is free |
| `Pump.ReadInputKeeps` | src/lingcage/src/agent/session.rs:585-609 | Taking or ending input keeps it whole, in order and bounded, with the end byte after all of it |
| `Pump.WriteMasterKeeps` | src/lingcage/src/agent/session.rs:561-581 | As does handing it to the terminal |
| `Pump.ReadMasterKeeps` | src/lingcage/src/agent/session.rs:524-558 | The same of output taken from the terminal |
| `Pump.WriteOutputKeeps` | src/lingcage/src/agent/session.rs:612-629 | And of output handed to its stream |
| `Pump.DropsOnlyOnFault` | src/lingcage/src/agent/session.rs:524-629 | Only a failing write drops bytes, and output for which there is no stream |
| `Pump.RunConserves` | src/lingcage/src/agent/session.rs:491-629 | Over every run without a failing write, bytes taken from each source are those its sink has followed by the buffer; one end byte exactly if the input ended; both buffers at most 65536 |
| `Pump.BytesReach` | src/lingcage/src/agent/session.rs:491-629 | The bytes the reads of a run return are those its writes take followed by the buffer, in both directions |
| `Pump.FlowIsRecorded` | src/lingcage/src/agent/session.rs:524-629 | What is counted as moved is what the reads and writes moved |
| `Pump.EndsAreSeen` | src/lingcage/src/agent/session.rs:524-629 | The end of the input queues one byte 4 and closes it, that of the master marks it done, and the output closes once all of it is written |
| `Pump.PolledHasRoom` | src/lingcage/src/agent/session.rs:437-487 | A descriptor is polled for reading exactly if a read would have room, for writing exactly if there is something to write |
| `Pump.PolledIsDue` | src/lingcage/src/agent/session.rs:491-519 | What a slot was polled for and poll reports is done, on its own descriptor |
| `Pump.Session.PollSet` | src/lingcage/src/agent/session.rs:437-487 | One slot for each descriptor with work pending and for no other, none twice, the control descriptor first |
| `Pump.Session.ChildSlots` | src/lingcage/src/agent/session.rs:444-484 | The slots of one command with what each is polled for |
| `Pump.Session.PumpOne` | src/lingcage/src/agent/session.rs:492-519 | One pass for a slot takes exactly the steps due for what poll reported |
| `Pump.Session.Pump` | src/lingcage/src/agent/session.rs:491-520 | Each command goes by exactly the steps due for its own slots, in order, and stays conserved |
| `Frames.DecodeEncoding` | src/lingcage/src/lcp/mod.rs:115-163 | A frame comes back from its encoding, whatever follows |
| `Frames.WireLayout` | src/lingcage/src/lcp/mod.rs:115-130 | Byte by byte: the length, which counts seven bytes and the payload, the id and the kind highest byte first, the flags, the payload |
| `Frames.PayloadLimit` | src/lingcage/src/lcp/mod.rs:115-146 | Payloads up to 65529 bytes are written, and lengths from 7 to 65536 read |
| `Bytes.BigEndianDigit` | src/lingcage/src/lcp/mod.rs:123-126 | Byte k from the end counts in units of 256 to the power k |
| `Frames.PrefixIsTruncated` | src/lingcage/src/lcp/mod.rs:132-142 | Every strict prefix of an encoding is `Truncated` |
| `Frames.DecodedIsEncoding` | src/lingcage/src/lcp/mod.rs:134-163 | Whatever reads as a frame is the encoding of one the writer accepts |
| `Frames.StreamRoundTrip` | src/lingcage/src/lcp/mod.rs:115-163 | Any frames the writer accepts come back in order from their bytes, then the end is seen; a last one cut short is the only one lost |
| `Frames.StreamsDiffer` | src/lingcage/src/lcp/mod.rs:115-130 | No two sequences of frames are written as the same bytes |
| `Frames.WriteTo` | src/lingcage/src/lcp/mod.rs:115-130 | Writes the encoding, and refuses with nothing written exactly the payloads over the limit |
| `Frames.Source.Fill` | src/lingcage/src/lcp/mod.rs:135-151 | So many bytes in as many reads as it takes, `Truncated` only if the source ends before |
| `Frames.ReadFrom` | src/lingcage/src/lcp/mod.rs:134-163 | For any chunking and any interruptions the result is that of decoding the bytes, with exactly the frame consumed |
| `Frames.ReadAll` | src/lingcage/src/sandbox/demux.rs:296-306 | Read until a read fails, the frames are those of the bytes in order with what ended them, for any chunking, and the first of them if a read faults |

## Left out

- Reading registers and configuration space, feature selection and the dispatch of register writes: each is one assignment.
- Transport.Transport.Restored: models the one queue of a disk; with several queues each needs its own rings apart from the others.
- Pump.Session.Pump: the last unbounded read of `drain` after a command has exited is outside the model.
- Demux.NoneStranded: log draining, the handshake and timeouts of callers are left open as steps which may or may not come.
- Frames.ReadFrom: interruptions are finite in number, since a read interrupted forever never returns.
- GuestMemory.GuestRam.Mark: regions start on a page boundary, as every layout of the machine has them.
- Lifecycle of the machine besides the states images are written and read in: `pause` and `resume` are the orders they tell.
- Liveness other than wake-ups, such as that a held guest is reached at all: it needs the guest to be interruptible.
- KVM, seccomp, signals, fork and exec, `mmap`, sockets and the template store.
- JSON encoding of blobs and frames: a capture passes a record.
- Rounding of floating point in the token buckets.
- vsock, network and virtio-fs devices, i8042 and power management registers.
- Placement of kernel, initrd and boot tables.
- Command lines, logs, events and error texts.
