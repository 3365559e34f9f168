/** Virtio MMIO transport of section 4.2 of virtio 1.2, over a block device.
    Models src/lingcore/src/devices/virtio/mmio.rs. */
module Transport {
  import opened Wrappers
  import opened Bytes
  import opened GuestMemory
  import opened Virtqueue
  import opened Slots
  import opened Driver
  import opened Throttle
  import opened BlockDevice
  import opened ServiceRun
  import Protocol = ExactlyOnce

  const INTERRUPT_VRING: bv32 := 0x1
  const INTERRUPT_CONFIG: bv32 := 0x2
  const STATUS_FEATURES_OK: bv32 := 0x08
  const STATUS_NEEDS_RESET: bv32 := 0x40
  const STATUS_FAILED: bv32 := 0x80
  const VERSION_1: bv64 := 0x1_0000_0000

  /** Largest queue size and number of queues the block device asks for. */
  const QUEUE_SIZE_MAX := 256
  const QUEUE_COUNT := 1

  datatype QueueRegister =
    | QueueNum | QueueReady
    | DescLow | DescHigh | AvailLow | AvailHigh | UsedLow | UsedHigh

  /** Registers which are not of a queue. */
  datatype Registers = Registers(
    status: bv32, deviceFeaturesSel: bv32, driverFeatures: bv64, driverFeaturesSel: bv32,
    queueSel: nat, interruptStatus: bv32, configGeneration: nat)

  /** What a capture keeps: registers, configuration and each slot. */
  datatype TransportState = TransportState(registers: Registers, configuration: Option<nat>, queues: seq<SlotState>)

  datatype BusError = WrongQueues(found: nat, wanted: nat) | State

  /** `value` with its lower 32 bits replaced. */
  function WithLow(value: nat, low: nat): nat { value / U32_LIMIT * U32_LIMIT + low }

  /** `value` with its upper 32 bits replaced. */
  function WithHigh(value: nat, high: nat): nat { value % U32_LIMIT + high * U32_LIMIT }

  /** A 64-bit address arrives whole in either order of its halves. */
  lemma HalvesMakeAddress(was: nat, address: nat)
    requires was < U64_LIMIT && address < U64_LIMIT
    ensures WithHigh(WithLow(was, address % U32_LIMIT), address / U32_LIMIT) == address
    ensures WithLow(WithHigh(was, address / U32_LIMIT), address % U32_LIMIT) == address
  {
  }

  function WriteRing(regs: Rings, register: QueueRegister, value: nat): Rings {
    match register
    case QueueNum => regs.(size := if value % U16_LIMIT < QUEUE_SIZE_MAX then value % U16_LIMIT else QUEUE_SIZE_MAX)
    case DescLow => regs.(table := WithLow(regs.table, value))
    case DescHigh => regs.(table := WithHigh(regs.table, value))
    case AvailLow => regs.(avail := WithLow(regs.avail, value))
    case AvailHigh => regs.(avail := WithHigh(regs.avail, value))
    case UsedLow => regs.(used := WithLow(regs.used, value))
    case UsedHigh => regs.(used := WithHigh(regs.used, value))
    case QueueReady => regs
  }

  predicate RingsFit(regs: Rings) {
    regs.table < U64_LIMIT && regs.avail < U64_LIMIT && regs.used < U64_LIMIT
  }

  /** Writes to different registers of a queue do not touch each other. */
  lemma RingWritesCommute(regs: Rings, a: QueueRegister, v: nat, b: QueueRegister, w: nat)
    requires a != b && v < U32_LIMIT && w < U32_LIMIT
    ensures WriteRing(WriteRing(regs, a, v), b, w) == WriteRing(WriteRing(regs, b, w), a, v)
  {
    HalvesApart(regs.table, v, w);
    HalvesApart(regs.table, w, v);
    HalvesApart(regs.avail, v, w);
    HalvesApart(regs.avail, w, v);
    HalvesApart(regs.used, v, w);
    HalvesApart(regs.used, w, v);
    hide WithLow, WithHigh;
  }

  lemma HalvesApart(value: nat, low: nat, high: nat)
    requires low < U32_LIMIT && high < U32_LIMIT
    ensures WithHigh(WithLow(value, low), high) == WithLow(WithHigh(value, high), low)
  {
  }

  /** A driver which writes the size and both halves of each address has its rings
      where it said, a size over the largest cut to it. */
  lemma RingsArrive(regs: Rings, wanted: Rings)
    requires RingsFit(regs) && RingsFit(wanted) && wanted.size < U16_LIMIT
    ensures var sized := WriteRing(regs, QueueNum, wanted.size);
            var desc := WriteRing(WriteRing(sized, DescLow, wanted.table % U32_LIMIT), DescHigh,
                                  wanted.table / U32_LIMIT);
            var avail := WriteRing(WriteRing(desc, AvailLow, wanted.avail % U32_LIMIT), AvailHigh,
                                   wanted.avail / U32_LIMIT);
            var used := WriteRing(WriteRing(avail, UsedLow, wanted.used % U32_LIMIT), UsedHigh,
                                  wanted.used / U32_LIMIT);
            used == wanted.(size := if wanted.size <= 256 then wanted.size else 256)
  {
    HalvesMakeAddress(regs.table, wanted.table);
    HalvesMakeAddress(regs.avail, wanted.avail);
    HalvesMakeAddress(regs.used, wanted.used);
    hide WithLow, WithHigh;
  }

  // ---- Capture and restore on values ----

  function CaptureSlots(slots: seq<Slot>): (kept: seq<SlotState>)
    ensures |kept| == |slots|
  {
    seq(|slots|, i requires 0 <= i < |slots| => CaptureSlot(slots[i]))
  }

  /** First slot whose queue can not be built again. */
  function FirstBad(kept: seq<SlotState>): (n: nat)
    ensures n <= |kept|
    ensures forall i :: 0 <= i < n ==> TakeUpSlot(kept[i]).Some?
    ensures n < |kept| ==> TakeUpSlot(kept[n]).None?
  {
    if kept == [] || TakeUpSlot(kept[0]).None? then 0 else 1 + FirstBad(kept[1..])
  }

  /** Slots after a restore. One which can not be built again ends it, with
      its registers set and the later slots as they were. */
  function TakeUpSlots(slots: seq<Slot>, kept: seq<SlotState>): (r: seq<Slot>)
    requires |slots| == |kept|
    ensures |r| == |slots|
  {
    var bad := FirstBad(kept);
    seq(|slots|, i requires 0 <= i < |slots| =>
      if i < bad then TakeUpSlot(kept[i]).value
      else if i == bad then Slot(kept[i].regs, None)
      else slots[i])
  }

  ghost predicate SlotsGood(slots: seq<Slot>) {
    forall i :: 0 <= i < |slots| ==> slots[i].queue.Some? ==> GoodQueue(slots[i].queue.value)
  }

  /** No ring register was written after its queue was made ready. */
  ghost predicate RingsKept(slots: seq<Slot>) {
    forall i :: 0 <= i < |slots| ==> slots[i].queue.Some? ==> slots[i].queue.value.rings == slots[i].regs
  }

  /** A clone gets back every slot of a capture, whatever its own held, if
      and only if no ring register was written while its queue was ready. */
  lemma SlotsRoundTrip(slots: seq<Slot>, others: seq<Slot>)
    requires |others| == |slots| && SlotsGood(slots)
    ensures (TakeUpSlots(others, CaptureSlots(slots)) == slots && FirstBad(CaptureSlots(slots)) == |slots|) <==>
            RingsKept(slots)
  {
    var kept := CaptureSlots(slots);
    forall i | 0 <= i < |slots|
      ensures TakeUpSlot(kept[i]) == Some(slots[i]) <==>
              (slots[i].queue.Some? ==> slots[i].queue.value.rings == slots[i].regs)
    {
      SlotRoundTrip(slots[i]);
    }
    if RingsKept(slots) {
      assert forall i :: 0 <= i < |slots| ==> TakeUpSlot(kept[i]).Some?;
      assert TakeUpSlots(others, kept) == slots;
    } else {
      var i :| 0 <= i < |slots| && slots[i].queue.Some? && slots[i].queue.value.rings != slots[i].regs;
      assert FirstBad(kept) == |slots| ==> TakeUpSlots(others, kept)[i] == TakeUpSlot(kept[i]).value;
    }
  }

  // ---- What serving tells the guest ----

  /** Serving ended at a malformed chain. */
  ghost predicate EndsRefused(fates: seq<Protocol.Fate>, decided: seq<Protocol.Fate>) {
    |fates| < |decided| && decided[|decided| - 1].Refused?
  }

  /** Serving used a chain and met no malformed one. */
  ghost predicate Uses(published: seq<nat>, fates: seq<Protocol.Fate>, decided: seq<Protocol.Fate>)
    requires |fates| <= |published| && |decided| <= |published|
  {
    !EndsRefused(fates, decided) && |Protocol.UsedOf(published, fates)| < |Protocol.UsedOf(published, decided)|
  }

  ghost function Told(r: Registers, published: seq<nat>, fates: seq<Protocol.Fate>,
                      decided: seq<Protocol.Fate>): Registers
    requires |fates| <= |published| && |decided| <= |published|
  {
    if EndsRefused(fates, decided) then r.(status := r.status | STATUS_NEEDS_RESET)
    else if Uses(published, fates, decided) then r.(interruptStatus := r.interruptStatus | INTERRUPT_VRING)
    else r
  }

  lemma NothingTold(r: Registers, published: seq<nat>, fates: seq<Protocol.Fate>)
    requires |fates| <= |published|
    ensures Told(r, published, fates, fates) == r && !Uses(published, fates, fates)
  {
  }

  /** A head past the table behind a good chain: the good one is served and used,
      the other refused, and the guest is told only to reset. */
  lemma MalformedHidesUsed(sectors: nat, writable: bool, m: Moment, m': Moment, len: nat, published: seq<nat>,
                           fates: seq<Protocol.Fate>, r: Registers)
    requires Serving(m.queue, m.ram, published, fates) && |fates| + 1 < |published|
    requires Handled(sectors, writable, m, m', Protocol.Served(len))
    requires published[|fates| + 1] >= m'.queue.rings.size
    ensures m'.queue.rings.size > 0
    ensures var decided := fates + [Protocol.Served(len), Protocol.Refused];
            && Handled(sectors, writable, m', m'.(queue := AfterPop(m'.queue, m'.ram).queue), Protocol.Refused)
            && |Protocol.UsedOf(published, fates)| < |Protocol.UsedOf(published, decided)|
            && !Uses(published, fates, decided)
            && Told(r, published, fates, decided) == r.(status := r.status | STATUS_NEEDS_RESET)
  {
    hide Serving;
    var served := fates + [Protocol.Served(len)];
    HandledServes(sectors, writable, m, m', Protocol.Served(len), published, fates);
    hide Answered, AfterPop, Protocol.UsedOf;
    NextIsMalformed(m'.queue, m'.ram, published, served);
    assert served + [Protocol.Refused] == fates + [Protocol.Served(len), Protocol.Refused];
    Protocol.DecidedGrows(published, fates, Protocol.Served(len));
    Protocol.DecidedGrows(published, served, Protocol.Refused);
  }

  lemma NextIsMalformed(q: QueueState, ram: Ram, published: seq<nat>, fates: seq<Protocol.Fate>)
    requires Serving(q, ram, published, fates) && |fates| < |published| && published[|fates|] >= q.rings.size
    ensures q.rings.size > 0 && AfterPop(q, ram).outcome.Err?
  {
    hide AfterPop, BuffersClear;
    Protocol.PopAgrees(q, ram, published, fates);
  }

  /** Registers once configuration is found to differ from what was kept. */
  function Reconfigured(r: Registers): Registers {
    r.(configGeneration := (r.configGeneration + 1) % U32_LIMIT,
    interruptStatus := r.interruptStatus | INTERRUPT_CONFIG)
  }

  /** A read of the configuration across the restore is seen to be torn: its
      generation has moved, the guest is told, and nothing else is touched. */
  lemma GenerationMoves(r: Registers)
    requires r.configGeneration < U32_LIMIT
    ensures var after := Reconfigured(r);
            && after.configGeneration != r.configGeneration && after.configGeneration < U32_LIMIT
            && after.interruptStatus & 2 == 2 && after.interruptStatus & 1 == r.interruptStatus & 1
            && after == r.(configGeneration := after.configGeneration, interruptStatus := after.interruptStatus)
  {
  }

  // ---- The transport ----

  class Transport {
    const device: Block
    const ram: GuestRam
    var registers: Registers
    /** Configuration kept by the capture, `None` unless restored. */
    var configuration: Option<nat>
    var regs: seq<Rings>
    var queues: seq<Queue?>
    var faults: nat
    /** Times the interrupt line was raised. */
    var raises: nat

    ghost predicate Valid()
      reads this, queues
    {
      && |regs| == |queues|
      && (forall i :: 0 <= i < |queues| && queues[i] != null ==> queues[i].Valid())
      && (forall i, j :: 0 <= i < j < |queues| && queues[i] != null ==> queues[i] != queues[j])
    }

    ghost function SlotAt(i: nat): Slot
      requires i < |regs| == |queues|
      reads this, queues
    {
      Slot(regs[i], if queues[i] == null then None else Some(queues[i].View()))
    }

    ghost function View(): seq<Slot>
      requires |regs| == |queues|
      reads this, queues
    {
      seq(|regs|, i requires 0 <= i < |regs| && |regs| == |queues| reads this, queues => SlotAt(i))
    }

    constructor (device: Block, ram: GuestRam)
      ensures Valid() && this.device == device && this.ram == ram
      ensures View() == seq(QUEUE_COUNT, _ => Slot(Rings(0, 0, 0, 0), None))
      ensures registers == Registers(0, 0, 0, 0, 0, 0, 0) && configuration == None && raises == 0
    {
      this.device, this.ram := device, ram;
      registers := Registers(0, 0, 0, 0, 0, 0, 0);
      configuration := None;
      regs := seq(QUEUE_COUNT, _ => Rings(0, 0, 0, 0));
      queues := seq(QUEUE_COUNT, _ => null);
      faults, raises := 0, 0;
    }

    /** A `STATUS` write. Zero resets; `FEATURES_OK` of a driver which did not
        accept version 1 fails the handshake. */
    method SetStatus(value: bv32)
      requires Valid()
      modifies this
      ensures Valid()
      ensures value == 0 ==> registers == Registers(0, 0, 0, 0, 0, 0, old(registers.configGeneration)) &&
                             (forall i :: 0 <= i < |View()| ==> View()[i] == Slot(Rings(0, 0, 0, 0), None))
      ensures value != 0 ==>
                && View() == old(View())
                && registers == old(registers).(status :=
                                if value & STATUS_FEATURES_OK != 0 && old(registers).driverFeatures & VERSION_1 == 0
                                then value | STATUS_FAILED else value)
      ensures |regs| == old(|regs|) && configuration == old(configuration) && raises == old(raises)
    {
      if value == 0 {
        registers := Registers(0, 0, 0, 0, 0, 0, registers.configGeneration);
        regs := seq(|regs|, _ => Rings(0, 0, 0, 0));
        queues := seq(|queues|, _ => null);
        return;
      }
      if value & STATUS_FEATURES_OK != 0 && registers.driverFeatures & VERSION_1 == 0 {
        faults := faults + 1;
        registers := registers.(status := value | STATUS_FAILED);
        return;
      }
      registers := registers.(status := value);
    }

    /** The slots other than the `n`th and the registers are as they were. */
    twostate predicate OthersKept(n: nat)
      requires old(|regs| == |queues|) && |regs| == |queues|
      reads this, queues
    {
      && |regs| == old(|regs|) && raises == old(raises) && configuration == old(configuration)
      && forall i :: 0 <= i < |regs| && i != n ==>
                       regs[i] == old(regs)[i] && queues[i] == old(queues)[i]
    }

    /** A write to an address or size register of the selected queue. A queue
        already built is not touched. */
    method WriteRingRegister(register: QueueRegister, value: nat)
      requires Valid() && register != QueueReady
      modifies this`regs
      ensures Valid() && OthersKept(registers.queueSel)
      ensures var n := registers.queueSel;
              n < |regs| ==> regs[n] == WriteRing(old(regs[n]), register, value)
    {
      var n := registers.queueSel;
      if n < |regs| {
        regs := regs[n := WriteRing(regs[n], register, value)];
      }
    }

    /** A `QUEUE_READY` write. A set bit builds the queue from the registers
        of its slot, a size which can not be indexed asks for a reset. */
    method SetReady(value: nat)
      requires Valid()
      modifies this`queues, this`registers, this`faults
      ensures Valid() && OthersKept(registers.queueSel) && regs == old(regs)
      ensures var n := old(registers).queueSel;
              if n >= |regs| then registers == old(registers)
              else if value % 2 == 0 then SlotAt(n) == Slot(regs[n], None) && registers == old(registers)
              else if GoodSize(regs[n].size) then
                SlotAt(n) == Slot(regs[n], Some(QueueState(regs[n], 0, 0))) && registers == old(registers)
              else
                && queues == old(queues)
                && registers == old(registers).(status := old(registers).status | STATUS_NEEDS_RESET)
    {
      hide GoodSize, GoodQueue;
      var n := registers.queueSel;
      if n >= |regs| {
        return;
      }
      if value % 2 == 0 {
        queues := queues[n := null];
        return;
      }
      var built := Queue.New(regs[n].size, regs[n].table, regs[n].avail, regs[n].used);
      if built.Ok? {
        queues := queues[n := built.value];
      } else {
        faults := faults + 1;
        registers := registers.(status := registers.status | STATUS_NEEDS_RESET);
      }
    }

    method Capture() returns (state: TransportState)
      requires Valid()
      ensures state == TransportState(registers, Some(device.sectors), CaptureSlots(View()))
    {
      var kept: seq<SlotState> := [];
      for i := 0 to |regs|
        invariant |kept| == i
        invariant forall k :: 0 <= k < i ==> kept[k] == CaptureSlot(SlotAt(k))
      {
        var queue := queues[i];
        kept := kept + [if queue == null then SlotState(regs[i], false, 0, 0)
                        else SlotState(regs[i], true, queue.nextAvail, queue.nextUsed)];
      }
      state := TransportState(registers, Some(device.sectors), kept);
    }

    /** Set slot `n` to what was kept, building its queue if it was ready. */
    method TakeUpOne(n: nat, kept: SlotState) returns (ok: bool)
      requires Valid() && n < |regs| && kept.nextAvail < U16_LIMIT && kept.nextUsed < U16_LIMIT
      modifies this`regs, this`queues
      ensures Valid() && regs == old(regs)[n := kept.regs] && queues == old(queues)[n := queues[n]]
      ensures ok <==> TakeUpSlot(kept).Some?
      ensures SlotAt(n) == if ok then TakeUpSlot(kept).value else Slot(kept.regs, None)
    {
      regs, queues := regs[n := kept.regs], queues[n := null];
      if kept.ready {
        var built := Queue.New(kept.regs.size, kept.regs.table, kept.regs.avail, kept.regs.used);
        if built.Err? {
          return false;
        }
        built.value.SetCursors(kept.nextAvail, kept.nextUsed);
        queues := queues[n := built.value];
      }
      ok := true;
    }

    /** Build the slots again in order, up to the first which can not be. */
    method TakeUpQueues(kept: seq<SlotState>) returns (bad: nat)
      requires Valid() && |kept| == |regs|
      requires forall i :: 0 <= i < |kept| ==> kept[i].nextAvail < U16_LIMIT && kept[i].nextUsed < U16_LIMIT
      modifies this`regs, this`queues
      ensures Valid() && |regs| == |kept| && bad == FirstBad(kept)
      ensures forall k :: 0 <= k < bad ==> Some(SlotAt(k)) == TakeUpSlot(kept[k])
      ensures bad < |regs| ==> SlotAt(bad) == Slot(kept[bad].regs, None)
      ensures forall k :: bad < k < |regs| ==> regs[k] == old(regs)[k] && queues[k] == old(queues)[k]
    {
      bad := 0;
      while bad < |regs|
        invariant 0 <= bad <= FirstBad(kept) && |regs| == |kept| && Valid()
        invariant forall k :: 0 <= k < bad ==> Some(SlotAt(k)) == TakeUpSlot(kept[k])
        invariant forall k :: bad <= k < |regs| ==> regs[k] == old(regs)[k] && queues[k] == old(queues)[k]
      {
        hide TakeUpSlot;
        var ok := TakeUpOne(bad, kept[bad]);
        if !ok {
          return;
        }
        bad := bad + 1;
      }
    }

    /** Restore `state`. Another number of queues is refused with nothing
        changed; a ring marked ready is built again and given its cursors. */
    method TakeUp(state: TransportState) returns (r: Result<(), BusError>)
      requires Valid()
      requires forall i :: 0 <= i < |state.queues| ==>
                             state.queues[i].nextAvail < U16_LIMIT && state.queues[i].nextUsed < U16_LIMIT
      modifies this`registers, this`configuration, this`regs, this`queues
      ensures Valid() && |regs| == old(|regs|)
      ensures |state.queues| != |regs| ==>
                && r == Err(WrongQueues(|state.queues|, |regs|))
                && registers == old(registers) && configuration == old(configuration) && View() == old(View())
      ensures |state.queues| == |regs| ==>
                && r == (if FirstBad(state.queues) == |regs| then Ok(()) else Err(State))
                && registers == state.registers && configuration == state.configuration
                && View() == TakeUpSlots(old(View()), state.queues)
    {
      if |state.queues| != |regs| {
        return Err(WrongQueues(|state.queues|, |regs|));
      }
      registers, configuration := state.registers, state.configuration;
      ghost var before := View();
      var bad := TakeUpQueues(state.queues);
      assert View() == TakeUpSlots(before, state.queues);
      r := if bad == |regs| then Ok(()) else Err(State);
    }

    /** The disk over `moments`: each chain was handled in turn, the length is
        kept, a read-only one is left alone, and what was served is what the
        limiter let through. A chain is left undecided exactly if it is held,
        and none is without a limiter. */
    twostate predicate Handles(queue: Queue, clock: Clock, moments: seq<Moment>, asks: seq<Ask>, published: seq<nat>,
                               fates: seq<Protocol.Fate>, decided: seq<Protocol.Fate>)
      reads device, device.disk, queue, ram, clock
      reads device.limiter, if device.limiter == null then {} else {device.limiter.bytes, device.limiter.requests}
    {
      && Metered(old(device.MeterOf(clock)), device.MeterOf(clock), asks, moments, fates, decided)
      && (!EndsRefused(fates, decided) ==> (device.due.None? <==> |decided| == |published|))
      && (device.limiter == null ==> device.due.None?)
      && HandledSince(device.sectors, device.writable, moments, old(device.Now(queue, ram)), device.Now(queue, ram),
                      fates, decided)
      && |device.disk.content| == old(|device.disk.content|)
      && (!device.writable ==> device.disk.content == old(device.disk.content))
    }

    /** Serve a queue, with what it has to tell the guest left in the
        registers. `raised` is whether the line is to be raised for it. */
    method ServeQueue(queue: Queue, clock: Clock, ghost published: seq<nat>, ghost fates: seq<Protocol.Fate>)
      returns (raised: bool, ghost decided: seq<Protocol.Fate>, ghost moments: seq<Moment>, ghost asks: seq<Ask>)
      requires device.Valid() && queue.Valid() && Serving(queue.View(), ram.bytes, published, fates)
      modifies this`registers, this`faults, ram, device, device.disk, clock, queue
      modifies if device.limiter == null then {} else {device.limiter.bytes, device.limiter.requests}
      ensures device.Valid() && queue.Valid() && Serving(queue.View(), ram.bytes, published, decided)
      ensures fates <= decided && |decided| <= |published|
      ensures registers == Told(old(registers), published, fates, decided) && raised == Uses(published, fates, decided)
      ensures Handles(queue, clock, moments, asks, published, fates, decided) &&
              ram.Tracked(old(ram.bytes), old(ram.marks))
    {
      hide Serving, Tracks, Protocol.UsedOf, GoodQueue, HandledSince, Metered;
      var answered := queue.nextUsed;
      ghost var q, bytes := queue.View(), ram.bytes;
      var served;
      served, decided, moments, asks := device.Notify(queue, ram, clock, published, fates);
      UsedMovesCursor(q, bytes, queue.View(), ram.bytes, published, fates, decided);
      if served.Err? {
        faults := faults + 1;
        registers := registers.(status := registers.status | STATUS_NEEDS_RESET);
        return false, decided, moments, asks;
      }
      // An unmoved cursor has nothing new behind it.
      raised := queue.nextUsed != answered;
      if raised {
        registers := registers.(interruptStatus := registers.interruptStatus | INTERRUPT_VRING);
      }
    }

    /** Serve queue `index` and raise the line if a chain was used. A malformed
        chain asks for a reset instead. `works` is whether the line can be
        raised, an error is returned if it is to be and can not. */
    method Notify(index: nat, clock: Clock, works: bool, ghost published: seq<nat>, ghost fates: seq<Protocol.Fate>)
      returns (ok: bool, ghost decided: seq<Protocol.Fate>, ghost moments: seq<Moment>, ghost asks: seq<Ask>)
      requires Valid() && device.Valid()
      requires index < |queues| && queues[index] != null ==> Serving(queues[index].View(), ram.bytes, published, fates)
      modifies this`registers, this`faults, this`raises, ram, device, device.disk, clock
      modifies if index < |queues| && queues[index] != null then {queues[index]} else {}
      modifies if device.limiter == null then {} else {device.limiter.bytes, device.limiter.requests}
      ensures Valid() && device.Valid() && ram.Tracked(old(ram.bytes), old(ram.marks))
      ensures index >= |queues| || queues[index] == null ==>
                && ok && decided == fates && registers == old(registers) && raises == old(raises)
                && ram.bytes == old(ram.bytes) && device.disk.content == old(device.disk.content)
      ensures index < |queues| && queues[index] != null ==>
                && Serving(queues[index].View(), ram.bytes, published, decided)
                && fates <= decided && |decided| <= |published| &&
                   Handles(queues[index], clock, moments, asks, published, fates, decided)
                && registers == Told(old(registers), published, fates, decided)
                && raises == old(raises) + (if works && Uses(published, fates, decided) then 1 else 0)
                && (ok <==> works || !Uses(published, fates, decided))
    {
      hide Serving, Tracks, Told, Uses, GoodQueue, HandledSince, Metered;
      ok, decided, moments, asks := true, fates, [], [];
      TracksSelf(ram.bytes, ram.marks);
      if index >= |queues| || queues[index] == null {
        return;
      }
      var raised;
      raised, decided, moments, asks := ServeQueue(queues[index], clock, published, fates);
      if raised && works {
        raises := raises + 1;
      }
      ok := works || !raised;
    }

    predicate ConfigurationMoved()
      reads this
    {
      configuration.Some? && configuration.value != device.sectors
    }

    /** Handle what is left after a restore: a changed configuration is told to
        the guest, and requests held at the capture are served on from where
        they were. The line is raised once for all of it, if it works. */
    method Restored(clock: Clock, works: bool, ghost published: seq<nat>, ghost fates: seq<Protocol.Fate>)
      returns (ghost decided: seq<Protocol.Fate>, ghost moments: seq<Moment>, ghost asks: seq<Ask>)
      requires Valid() && device.Valid() && |queues| == QUEUE_COUNT && |fates| <= |published|
      requires queues[0] != null ==> Serving(queues[0].View(), ram.bytes, published, fates)
      modifies this`registers, this`faults, this`raises, ram, device, device.disk, clock
      modifies if queues[0] != null then {queues[0]} else {}
      modifies if device.limiter == null then {} else {device.limiter.bytes, device.limiter.requests}
      ensures Valid() && device.Valid() && ram.Tracked(old(ram.bytes), old(ram.marks))
      ensures fates <= decided && |decided| <= |published|
      ensures queues[0] == null ==>
                decided == fates && ram.bytes == old(ram.bytes) && device.disk.content == old(device.disk.content)
      ensures queues[0] != null ==>
                && Serving(queues[0].View(), ram.bytes, published, decided)
                && Handles(queues[0], clock, moments, asks, published, fates, decided)
      ensures registers == Told(Configured(old(registers)), published, fates, decided)
      ensures raises == old(raises) +
                        (if works && (ConfigurationMoved() || Uses(published, fates, decided)) then 1 else 0)
    {
      hide Serving, Tracks, Told, Uses, GoodQueue, Reconfigured, HandledSince, Metered;
      NothingTold(Configured(registers), published, fates);
      TracksSelf(ram.bytes, ram.marks);
      decided, moments, asks := fates, [], [];
      var raised := ConfigurationMoved();
      registers := Configured(registers);
      if queues[0] != null {
        var used;
        used, decided, moments, asks := ServeQueue(queues[0], clock, published, fates);
        raised := raised || used;
      }
      if raised && works {
        raises := raises + 1;
      }
    }

    function Configured(r: Registers): Registers
      reads this
    {
      if ConfigurationMoved() then Reconfigured(r) else r
    }
  }
}
