/** Queue registers of the MMIO transport and the state a capture keeps of
    them. Models `Slot`, `SlotState`, `state` and `take_up` of
    src/lingcore/src/devices/virtio/mmio.rs. */
module Slots {
  import opened Wrappers
  import opened Virtqueue

  /** Registers of one queue, with the queue built when the driver set it
      ready. */
  datatype Slot = Slot(regs: Rings, queue: Option<QueueState>)

  datatype SlotState = SlotState(regs: Rings, ready: bool, nextAvail: nat, nextUsed: nat)

  /** The registers of the slot are kept, not those the queue was built from. */
  function CaptureSlot(slot: Slot): SlotState {
    match slot.queue
    case None => SlotState(slot.regs, false, 0, 0)
    case Some(q) => SlotState(slot.regs, true, q.nextAvail, q.nextUsed)
  }

  /** A ring marked ready is built again and given its cursors. */
  function TakeUpSlot(kept: SlotState): Option<Slot> {
    if !kept.ready then Some(Slot(kept.regs, None))
    else if !GoodSize(kept.regs.size) then None
    else Some(Slot(kept.regs, Some(QueueState(kept.regs, kept.nextAvail, kept.nextUsed))))
  }

  /** A restored slot is the captured one exactly when its registers still
      hold the rings its queue was built from. */
  lemma SlotRoundTrip(slot: Slot)
    requires slot.queue.Some? ==> GoodQueue(slot.queue.value)
    ensures TakeUpSlot(CaptureSlot(slot)) == Some(slot) <==> (slot.queue.Some? ==> slot.queue.value.rings == slot.regs)
  {
  }
}
