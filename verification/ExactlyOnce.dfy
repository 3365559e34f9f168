/** The virtqueue protocol between a driver and the device, over every
    interleaving of published chains, served, refused and deferred requests,
    captures and restores. Models the queue side of
    src/lingcore/src/devices/virtio/{queue,mmio,block}.rs. */
module ExactlyOnce {
  import opened Wrappers
  import opened Bytes
  import opened GuestMemory
  import opened Virtqueue
  import opened Slots
  import opened Cursors

  // ---- The rings in guest RAM ----

  function AvailEnd(rings: Rings): nat { rings.avail + 4 + 2 * rings.size }
  function UsedEnd(rings: Rings): nat { rings.used + 4 + 8 * rings.size }

  /** Available and used ring are backed and lie apart. */
  ghost predicate Laid(ram: Ram, rings: Rings) {
    && GoodSize(rings.size)
    && Holds(ram, rings.avail, 4 + 2 * rings.size) && AvailEnd(rings) <= U64_LIMIT
    && Holds(ram, rings.used, 4 + 8 * rings.size) && UsedEnd(rings) <= U64_LIMIT
    && (AvailEnd(rings) <= rings.used || UsedEnd(rings) <= rings.avail)
  }

  /** Little-endian field of `count` bytes, as the driver reads it. */
  function Field(ram: Ram, gpa: nat, count: nat): nat {
    FromLittleEndian(Load(ram, gpa, count))
  }

  function AvailSlotAt(rings: Rings, k: nat): nat
    requires rings.size > 0
  {
    rings.avail + 4 + 2 * (k % rings.size)
  }

  function UsedElementAt(rings: Rings, k: nat): nat
    requires rings.size > 0
  {
    rings.used + 4 + 8 * (k % rings.size)
  }

  /** Content of one ring field does not depend on bytes elsewhere. */
  lemma FieldFrame(ram: Ram, ram': Ram, gpa: nat, count: nat)
    requires Holds(ram, gpa, count) && ram'.Keys == ram.Keys
    requires forall a :: gpa <= a < gpa + count ==> ram'[a] == ram[a]
    ensures Holds(ram', gpa, count) && Field(ram', gpa, count) == Field(ram, gpa, count)
  {
    assert Load(ram', gpa, count) == Load(ram, gpa, count);
  }

  lemma FieldStored(ram: Ram, gpa: nat, v: nat, count: nat)
    requires Holds(ram, gpa, count) && v < Pow256(count)
    ensures Field(Store(ram, gpa, LittleEndian(v, count)), gpa, count) == v
  {
    assert Load(Store(ram, gpa, LittleEndian(v, count)), gpa, count) == LittleEndian(v, count);
    LittleEndianRoundTrip(v, count);
  }

  lemma FieldKept(ram: Ram, at: nat, data: seq<Byte>, gpa: nat, count: nat)
    requires Holds(ram, gpa, count) && Holds(ram, at, |data|)
    requires at + |data| <= gpa || gpa + count <= at
    ensures Holds(Store(ram, at, data), gpa, count)
    ensures Field(Store(ram, at, data), gpa, count) == Field(ram, gpa, count)
  {
    FieldFrame(ram, Store(ram, at, data), gpa, count);
  }

  // ---- The protocol ----

  /** What became of a chain the device took. */
  datatype Fate = Served(len: nat) | Refused

  datatype Element = Element(head: nat, len: nat)

  datatype Device = Idle | Holding(chain: Chain)

  datatype Snapshot = Snapshot(ram: Ram, slot: SlotState, published: seq<nat>, fates: seq<Fate>)

  /** Guest RAM and the slot as the code holds them, with the history the
      two sides have behind them. */
  datatype System = System(
    ram: Ram, slot: Slot, device: Device,
    published: seq<nat>, fates: seq<Fate>, saved: seq<Snapshot>)

  /** Elements the device owes the used ring: the chains it served, in the
      order they were published. */
  function UsedOf(published: seq<nat>, fates: seq<Fate>): (u: seq<Element>)
    requires |fates| <= |published|
    ensures |u| <= |fates|
  {
    if fates == [] then []
    else
      var n := |fates| - 1;
      UsedOf(published, fates[..n]) +
      (match fates[n] case Served(len) => [Element(published[n], len)] case Refused => [])
  }

  datatype Event =
    | Publish(head: nat)          // driver adds a head to the available ring
    | GuestStores(after: Ram)     // guest writes anywhere but in the two rings
    | Take                        // device pops
    | Refuse                      // device finds the chain is no request
    | Defer                       // rate is spent, chain goes back
    | DeviceStores(stored: Ram)   // device fills buffers or the status byte
    | Finish(len: nat)            // device reports the chain as used
    | Capture                     // paused guest is captured
    | Restore(from: nat)          // a clone continues from a capture

  /** Index and slots of the available ring are kept. Its flags are the driver's
      to write at any time. */
  ghost predicate SameAvail(ram: Ram, ram': Ram, rings: Rings) {
    ram'.Keys == ram.Keys && forall a :: rings.avail + 2 <= a < AvailEnd(rings) && a in ram ==> ram'[a] == ram[a]
  }

  ghost predicate SameUsed(ram: Ram, ram': Ram, rings: Rings) {
    ram'.Keys == ram.Keys && forall a :: rings.used <= a < UsedEnd(rings) && a in ram ==> ram'[a] == ram[a]
  }

  ghost predicate SameRings(ram: Ram, ram': Ram, rings: Rings) {
    SameAvail(ram, ram', rings) && SameUsed(ram, ram', rings)
  }

  /** When an event can happen, with what the driver keeps to: at most `size`
      chains outstanding, and no buffer over the rings. */
  ghost predicate Enabled(s: System, e: Event) {
    && s.slot.queue.Some? && s.slot.queue.value.rings.size > 0 && s.slot.regs.size > 0
    && |s.fates| <= |s.published|
    && match e
       case Publish(head) =>
         head < U16_LIMIT && |s.published| - |UsedOf(s.published, s.fates)| < s.slot.regs.size
       case GuestStores(after) => SameRings(s.ram, after, s.slot.regs)
       case Take => s.device.Idle?
       case Refuse => s.device.Holding?
       case Defer => s.device.Holding?
       case DeviceStores(stored) => s.device.Holding? && SameRings(s.ram, stored, s.slot.regs)
       case Finish(len) => s.device.Holding? && len < U32_LIMIT
       case Capture => s.device.Idle?
       case Restore(from) => from < |s.saved|
  }

  /** Driver writes the head into the next slot, then the index. */
  ghost function Published(ram: Ram, rings: Rings, n: nat, head: nat): Ram
    requires rings.size > 0
  {
    var slotted := Store(ram, AvailSlotAt(rings, n), LittleEndian(head, 2));
    Store(slotted, rings.avail + 2, LittleEndian((n + 1) % U16_LIMIT, 2))
  }

  ghost function After(s: System, e: Event): System
    requires Enabled(s, e)
  {
    var q := s.slot.queue.value;
    match e
    case Publish(head) =>
      s.(ram := Published(s.ram, s.slot.regs, |s.published|, head), published := s.published + [head])
    case GuestStores(after) => s.(ram := after)
    case Take =>
      var popped := AfterPop(q, s.ram);
      var moved := s.(slot := s.slot.(queue := Some(popped.queue)));
      (match popped.outcome
       case Ok(Some(chain)) => moved.(device := Holding(chain))
       case Ok(None) => moved
       case Err(_) => if popped.queue == q then s else moved.(fates := s.fates + [Refused]))
    case Refuse => s.(device := Idle, fates := s.fates + [Refused])
    case Defer => s.(device := Idle, slot := s.slot.(queue := Some(AfterUndo(q))))
    case DeviceStores(stored) => s.(ram := stored)
    case Finish(len) =>
      var added := AfterUsed(q, s.ram, s.device.chain.head, len);
      s.(ram := added.ram, slot := s.slot.(queue := Some(added.queue)), device := Idle,
      fates := s.fates + [if added.outcome.Ok? then Served(len) else Refused])
    case Capture =>
      s.(saved := s.saved + [Snapshot(s.ram, CaptureSlot(s.slot), s.published, s.fates)])
    case Restore(from) =>
      var kept := s.saved[from];
      (match TakeUpSlot(kept.slot)
       case None => s
       case Some(slot) =>
         s.(ram := kept.ram, slot := slot, device := Idle, published := kept.published, fates := kept.fates))
  }

  // ---- The invariant ----

  function Taken(s: System): nat {
    |s.fates| + if s.device.Holding? then 1 else 0
  }

  /** The available ring holds the wrapped count of published heads and
      each head from the `n`th on in its slot. */
  ghost predicate AvailAgrees(ram: Ram, rings: Rings, published: seq<nat>, n: nat) {
    && Laid(ram, rings)
    && Field(ram, rings.avail + 2, 2) == |published| % U16_LIMIT
    && forall k :: n <= k < |published| ==> Field(ram, AvailSlotAt(rings, k), 2) == published[k]
  }

  /** The used ring holds the wrapped count of used elements and the last
      ring's worth of them. */
  ghost predicate UsedAgrees(ram: Ram, rings: Rings, used: seq<Element>) {
    && Laid(ram, rings)
    && Field(ram, rings.used + 2, 2) == |used| % U16_LIMIT
    && forall k :: 0 <= k < |used| <= k + rings.size ==> ElementHeld(ram, rings, k, used[k])
  }

  /** The rings in RAM and the wrapped cursor agree with the unbounded
      history: published heads not yet decided sit in the available ring,
      and the last ring's worth of served chains in the used ring. */
  ghost predicate Agrees(ram: Ram, rings: Rings, nextUsed: nat, published: seq<nat>, fates: seq<Fate>) {
    && |fates| <= |published| <= |UsedOf(published, fates)| + rings.size
    && (forall k :: 0 <= k < |published| ==> published[k] < U16_LIMIT)
    && AvailAgrees(ram, rings, published, |fates|)
    && UsedAgrees(ram, rings, UsedOf(published, fates))
    && nextUsed == |UsedOf(published, fates)| % U16_LIMIT
  }

  ghost predicate ElementHeld(ram: Ram, rings: Rings, k: nat, e: Element)
    requires rings.size > 0
  {
    && Field(ram, UsedElementAt(rings, k), 4) == e.head
    && Field(ram, UsedElementAt(rings, k) + 4, 4) == e.len
  }

  ghost predicate SnapshotGood(kept: Snapshot) {
    && kept.slot.ready
    && Agrees(kept.ram, kept.slot.regs, kept.slot.nextUsed, kept.published, kept.fates)
    && kept.slot.nextAvail == |kept.fates| % U16_LIMIT
  }

  ghost predicate Inv(s: System) {
    && s.slot.queue.Some?
    && s.slot.queue.value.rings == s.slot.regs
    && Agrees(s.ram, s.slot.regs, s.slot.queue.value.nextUsed, s.published, s.fates)
    && s.slot.queue.value.nextAvail == Taken(s) % U16_LIMIT
    && (s.device.Holding? ==> |s.fates| < |s.published| && s.device.chain.head == s.published[|s.fates|])
    && (forall i :: 0 <= i < |s.saved| ==> SnapshotGood(s.saved[i]))
  }

  /** A queue just made ready, over rings the driver zeroed. */
  ghost predicate Init(s: System) {
    && Laid(s.ram, s.slot.regs)
    && s.slot.queue == Some(QueueState(s.slot.regs, 0, 0))
    && s.device.Idle? && s.published == [] && s.fates == [] && s.saved == []
    && Field(s.ram, s.slot.regs.avail + 2, 2) == 0
    && Field(s.ram, s.slot.regs.used + 2, 2) == 0
  }

  lemma AvailFrame(ram: Ram, ram': Ram, rings: Rings, published: seq<nat>, n: nat)
    requires AvailAgrees(ram, rings, published, n) && SameAvail(ram, ram', rings)
    ensures AvailAgrees(ram', rings, published, n)
  {
    FieldFrame(ram, ram', rings.avail + 2, 2);
    forall k | n <= k < |published|
      ensures Field(ram', AvailSlotAt(rings, k), 2) == published[k]
    {
      FieldFrame(ram, ram', AvailSlotAt(rings, k), 2);
    }
  }

  lemma UsedFrame(ram: Ram, ram': Ram, rings: Rings, used: seq<Element>)
    requires UsedAgrees(ram, rings, used) && SameUsed(ram, ram', rings)
    ensures UsedAgrees(ram', rings, used)
  {
    FieldFrame(ram, ram', rings.used + 2, 2);
    forall k | 0 <= k < |used| <= k + rings.size
      ensures ElementHeld(ram', rings, k, used[k])
    {
      FieldFrame(ram, ram', UsedElementAt(rings, k), 4);
      FieldFrame(ram, ram', UsedElementAt(rings, k) + 4, 4);
    }
  }

  /** RAM changed outside the two rings keeps the agreement. */
  lemma AgreesFrame(ram: Ram, ram': Ram, rings: Rings, nextUsed: nat, published: seq<nat>, fates: seq<Fate>)
    requires Agrees(ram, rings, nextUsed, published, fates)
    requires SameRings(ram, ram', rings)
    ensures Agrees(ram', rings, nextUsed, published, fates)
  {
    AvailFrame(ram, ram', rings, published, |fates|);
    UsedFrame(ram, ram', rings, UsedOf(published, fates));
  }

  /** History of decided chains does not depend on heads published later. */
  lemma {:induction false} UsedOfGrows(published: seq<nat>, head: nat, fates: seq<Fate>)
    requires |fates| <= |published|
    ensures UsedOf(published + [head], fates) == UsedOf(published, fates)
  {
    if fates != [] {
      UsedOfGrows(published, head, fates[..|fates| - 1]);
    }
  }

  lemma PublishedFrame(ram: Ram, rings: Rings, n: nat, head: nat, gpa: nat, count: nat)
    requires Laid(ram, rings) && Holds(ram, gpa, count)
    requires gpa + count <= rings.avail + 2 || rings.avail + 4 <= gpa
    requires gpa + count <= AvailSlotAt(rings, n) || AvailSlotAt(rings, n) + 2 <= gpa
    ensures var ram' := Published(ram, rings, n, head);
            Holds(ram', gpa, count) && Field(ram', gpa, count) == Field(ram, gpa, count)
  {
    FieldFrame(ram, Published(ram, rings, n, head), gpa, count);
  }

  lemma PublishedHead(ram: Ram, rings: Rings, n: nat, head: nat)
    requires Laid(ram, rings) && head < U16_LIMIT
    ensures Field(Published(ram, rings, n, head), AvailSlotAt(rings, n), 2) == head
  {
    var at := AvailSlotAt(rings, n);
    var slotted := Store(ram, at, LittleEndian(head, 2));
    FieldStored(ram, at, head, 2);
    FieldKept(slotted, rings.avail + 2, LittleEndian((n + 1) % U16_LIMIT, 2), at, 2);
  }

  lemma PublishedIndex(ram: Ram, rings: Rings, n: nat, head: nat)
    requires Laid(ram, rings) && head < U16_LIMIT
    ensures Field(Published(ram, rings, n, head), rings.avail + 2, 2) == (n + 1) % U16_LIMIT
  {
    var slotted := Store(ram, AvailSlotAt(rings, n), LittleEndian(head, 2));
    FieldStored(slotted, rings.avail + 2, (n + 1) % U16_LIMIT, 2);
  }

  /** One more head in the available ring, if its slot is free. */
  lemma AvailGrows(ram: Ram, rings: Rings, published: seq<nat>, n: nat, head: nat)
    requires AvailAgrees(ram, rings, published, n)
    requires head < U16_LIMIT && n <= |published| < n + rings.size
    ensures AvailAgrees(Published(ram, rings, |published|, head), rings, published + [head], n)
  {
    var m, more := |published|, published + [head];
    var ram' := Published(ram, rings, m, head);
    PublishedIndex(ram, rings, m, head);
    forall k | n <= k < |more|
      ensures Field(ram', AvailSlotAt(rings, k), 2) == more[k]
    {
      if k < m {
        SlotsDiffer(k, m, rings.size);
        PublishedFrame(ram, rings, m, head, AvailSlotAt(rings, k), 2);
      } else {
        PublishedHead(ram, rings, m, head);
      }
    }
  }

  lemma PublishKeeps(ram: Ram, rings: Rings, nextUsed: nat, published: seq<nat>, fates: seq<Fate>, head: nat)
    requires Agrees(ram, rings, nextUsed, published, fates)
    requires head < U16_LIMIT && |published| - |UsedOf(published, fates)| < rings.size
    ensures Agrees(Published(ram, rings, |published|, head), rings, nextUsed, published + [head], fates)
  {
    UsedOfGrows(published, head, fates);
    AvailGrows(ram, rings, published, |fates|, head);
    assert SameUsed(ram, Published(ram, rings, |published|, head), rings);
    UsedFrame(ram, Published(ram, rings, |published|, head), rings, UsedOf(published, fates));
  }

  /** With agreeing rings the wrapped test for an empty ring is exact, and a
      pop which is not empty moves the cursor over the next head. */
  lemma PopAgrees(q: QueueState, ram: Ram, published: seq<nat>, fates: seq<Fate>)
    requires Agrees(ram, q.rings, q.nextUsed, published, fates)
    requires q.nextAvail == |fates| % U16_LIMIT
    ensures var p := AfterPop(q, ram);
            if |fates| == |published| then p == Popped(q, Ok(None))
            else
              && p.queue == q.(nextAvail := (|fates| + 1) % U16_LIMIT)
              && p.queue != q
              && match WalkTable(ram, q.rings, published[|fates|])
                 case Ok(ds) => p.outcome == Ok(Some(Chain(published[|fates|], ds)))
                 case Err(e) => p.outcome == Err(e)
  {
    hide UsedOf, UsedAgrees, WalkTable;
    var n := |fates|;
    WrappedEqual(n, |published|);
    WrappedEqual(n, n + 1);
    WrappedSlot(n, q.rings.size);
    WrappedNext(n);
    if n < |published| {
      assert Field(ram, AvailSlotAt(q.rings, n), 2) == published[n];
    }
  }

  ghost function ElementStored(ram: Ram, at: nat, e: Element): Ram {
    Store(Store(ram, at, LittleEndian(e.head, 4)), at + 4, LittleEndian(e.len, 4))
  }

  /** RAM once an element and the index which counts it are written. */
  ghost function Reported(ram: Ram, rings: Rings, n: nat, e: Element): Ram
    requires rings.size > 0
  {
    Store(ElementStored(ram, UsedElementAt(rings, n), e), rings.used + 2, LittleEndian((n + 1) % U16_LIMIT, 2))
  }

  lemma StoreAtBacked(ram: Ram, base: nat, delta: nat, data: seq<Byte>)
    requires base + delta < U64_LIMIT && Holds(ram, base + delta, |data|)
    ensures StoreAt(ram, base, delta, data) == Wrote(Store(ram, base + delta, data), Ok(()))
  {
  }

  lemma ElementBacked(ram: Ram, used: nat, delta: nat, at: nat, e: Element)
    requires at == used + delta && at + 8 <= U64_LIMIT && Holds(ram, at, 8)
    ensures StoreElement(ram, used, delta, e.head, e.len) == Wrote(ElementStored(ram, at, e), Ok(()))
  {
    hide StoreAt, Store, LittleEndian;
    StoreAtBacked(ram, used, delta, LittleEndian(e.head, 4));
    StoreAtBacked(Store(ram, at, LittleEndian(e.head, 4)), at, 4, LittleEndian(e.len, 4));
  }

  lemma CountBacked(q: QueueState, element: Wrote, next: nat)
    requires element.outcome.Ok? && Laid(element.ram, q.rings) && next == (q.nextUsed + 1) % U16_LIMIT
    ensures CountElement(q, element) ==
            Added(q.(nextUsed := next), Store(element.ram, q.rings.used + 2, LittleEndian(next, 2)), Ok(()))
  {
    hide StoreAt, Store, LittleEndian;
    StoreAtBacked(element.ram, q.rings.used, 2, LittleEndian(next, 2));
  }

  lemma UsedAtSlot(q: QueueState, ram: Ram, at: nat, next: nat, e: Element)
    requires Laid(ram, q.rings)
    requires at == q.rings.used + (4 + q.nextUsed % q.rings.size * 8) && next == (q.nextUsed + 1) % U16_LIMIT
    requires Holds(ram, at, 8) && at + 8 <= U64_LIMIT
    ensures AfterUsed(q, ram, e.head, e.len) ==
            Added(q.(nextUsed := next), Store(ElementStored(ram, at, e), q.rings.used + 2, LittleEndian(next, 2)),
                  Ok(()))
  {
    hide CountElement, StoreElement, Store, StoreAt;
    ElementBacked(ram, q.rings.used, 4 + q.nextUsed % q.rings.size * 8, at, e);
    CountBacked(q, Wrote(ElementStored(ram, at, e), Ok(())), next);
  }

  lemma UsedIsReported(q: QueueState, ram: Ram, n: nat, e: Element)
    requires Laid(ram, q.rings) && q.nextUsed == n % U16_LIMIT
    ensures AfterUsed(q, ram, e.head, e.len) ==
            Added(q.(nextUsed := (n + 1) % U16_LIMIT), Reported(ram, q.rings, n, e), Ok(()))
  {
    hide AfterUsed, ElementStored, Store, LittleEndian;
    WrappedSlot(n, q.rings.size);
    WrappedNext(n);
    UsedAtSlot(q, ram, UsedElementAt(q.rings, n), (n + 1) % U16_LIMIT, e);
  }

  lemma ReportedFrame(ram: Ram, rings: Rings, n: nat, e: Element, gpa: nat, count: nat)
    requires Laid(ram, rings) && Holds(ram, gpa, count)
    requires gpa + count <= rings.used + 2 || rings.used + 4 <= gpa
    requires gpa + count <= UsedElementAt(rings, n) || UsedElementAt(rings, n) + 8 <= gpa
    ensures var ram' := Reported(ram, rings, n, e);
            Holds(ram', gpa, count) && Field(ram', gpa, count) == Field(ram, gpa, count)
  {
    FieldFrame(ram, Reported(ram, rings, n, e), gpa, count);
  }

  lemma ReportedIndex(ram: Ram, rings: Rings, n: nat, e: Element)
    requires Laid(ram, rings)
    ensures Field(Reported(ram, rings, n, e), rings.used + 2, 2) == (n + 1) % U16_LIMIT
  {
    var at := UsedElementAt(rings, n);
    var r1 := Store(ram, at, LittleEndian(e.head, 4));
    var r2 := Store(r1, at + 4, LittleEndian(e.len, 4));
    FieldStored(r2, rings.used + 2, (n + 1) % U16_LIMIT, 2);
  }

  lemma ReportedId(ram: Ram, rings: Rings, n: nat, e: Element)
    requires Laid(ram, rings) && e.head < U32_LIMIT
    ensures Field(Reported(ram, rings, n, e), UsedElementAt(rings, n), 4) == e.head
  {
    var at := UsedElementAt(rings, n);
    var r1 := Store(ram, at, LittleEndian(e.head, 4));
    FieldStored(ram, at, e.head, 4);
    FieldFrame(r1, Reported(ram, rings, n, e), at, 4);
  }

  lemma ReportedLen(ram: Ram, rings: Rings, n: nat, e: Element)
    requires Laid(ram, rings) && e.len < U32_LIMIT
    ensures Field(Reported(ram, rings, n, e), UsedElementAt(rings, n) + 4, 4) == e.len
  {
    var at := UsedElementAt(rings, n);
    var r1 := Store(ram, at, LittleEndian(e.head, 4));
    var r2 := Store(r1, at + 4, LittleEndian(e.len, 4));
    FieldStored(r1, at + 4, e.len, 4);
    FieldFrame(r2, Reported(ram, rings, n, e), at + 4, 4);
  }

  lemma ReportedElsewhere(ram: Ram, rings: Rings, k: nat, was: Element, n: nat, e: Element)
    requires Laid(ram, rings) && ElementHeld(ram, rings, k, was)
    requires k < n < k + rings.size
    ensures Laid(Reported(ram, rings, n, e), rings) && ElementHeld(Reported(ram, rings, n, e), rings, k, was)
  {
    SlotsDiffer(k, n, rings.size);
    ReportedFrame(ram, rings, n, e, UsedElementAt(rings, k), 4);
    ReportedFrame(ram, rings, n, e, UsedElementAt(rings, k) + 4, 4);
  }

  /** One more element in the used ring, over the oldest. */
  lemma UsedGrows(ram: Ram, rings: Rings, used: seq<Element>, e: Element)
    requires UsedAgrees(ram, rings, used) && e.head < U32_LIMIT && e.len < U32_LIMIT
    ensures UsedAgrees(Reported(ram, rings, |used|, e), rings, used + [e])
  {
    var n, more, ram' := |used|, used + [e], Reported(ram, rings, |used|, e);
    ReportedIndex(ram, rings, n, e);
    forall k | 0 <= k < |more| <= k + rings.size
      ensures ElementHeld(ram', rings, k, more[k])
    {
      if k < n {
        ReportedElsewhere(ram, rings, k, used[k], n, e);
      } else {
        ReportedId(ram, rings, n, e);
        ReportedLen(ram, rings, n, e);
      }
    }
  }

  lemma ReportedSameAvail(ram: Ram, rings: Rings, n: nat, e: Element)
    requires Laid(ram, rings)
    ensures SameAvail(ram, Reported(ram, rings, n, e), rings)
  {
  }

  lemma DecidedGrows(published: seq<nat>, fates: seq<Fate>, fate: Fate)
    requires |fates| < |published|
    ensures UsedOf(published, fates + [fate]) ==
            UsedOf(published, fates) + match fate
                                       case Served(len) => [Element(published[|fates|], len)]
                                       case Refused => []
  {
    assert (fates + [fate])[..|fates|] == fates;
  }

  lemma FinishAgrees(ram: Ram, rings: Rings, nextUsed: nat, published: seq<nat>, fates: seq<Fate>, len: nat)
    requires Agrees(ram, rings, nextUsed, published, fates)
    requires |fates| < |published| && len < U32_LIMIT
    ensures rings.size > 0
    ensures var n := |UsedOf(published, fates)|;
            Agrees(Reported(ram, rings, n, Element(published[|fates|], len)), rings, (n + 1) % U16_LIMIT, published,
                   fates + [Served(len)])
  {
    hide AvailAgrees, UsedAgrees, UsedOf, Reported, SameAvail, Laid, GoodSize;
    AgreesLaid(ram, rings, nextUsed, published, fates);
    var e, used := Element(published[|fates|], len), UsedOf(published, fates);
    UsedGrows(ram, rings, used, e);
    ReportedSameAvail(ram, rings, |used|, e);
    AvailFrame(ram, Reported(ram, rings, |used|, e), rings, published, |fates|);
    AvailLater(Reported(ram, rings, |used|, e), rings, published, |fates|);
    DecidedGrows(published, fates, Served(len));
  }

  lemma AgreesLaid(ram: Ram, rings: Rings, nextUsed: nat, published: seq<nat>, fates: seq<Fate>)
    requires Agrees(ram, rings, nextUsed, published, fates)
    ensures Laid(ram, rings) && rings.size > 0 && nextUsed == |UsedOf(published, fates)| % U16_LIMIT
  {
  }

  lemma FinishKeeps(q: QueueState, ram: Ram, published: seq<nat>, fates: seq<Fate>, len: nat)
    requires Agrees(ram, q.rings, q.nextUsed, published, fates)
    requires |fates| < |published| && len < U32_LIMIT
    ensures var added := AfterUsed(q, ram, published[|fates|], len);
            && added.outcome == Ok(())
            && added.queue == q.(nextUsed := added.queue.nextUsed)
            && Agrees(added.ram, q.rings, added.queue.nextUsed, published, fates + [Served(len)])
  {
    hide Agrees, Reported, AfterUsed, Laid, UsedOf;
    AgreesLaid(ram, q.rings, q.nextUsed, published, fates);
    FinishAgrees(ram, q.rings, q.nextUsed, published, fates, len);
    UsedIsReported(q, ram, |UsedOf(published, fates)|, Element(published[|fates|], len));
  }

  lemma AvailLater(ram: Ram, rings: Rings, published: seq<nat>, n: nat)
    requires AvailAgrees(ram, rings, published, n) && n < |published|
    ensures AvailAgrees(ram, rings, published, n + 1)
  {
  }

  lemma RefuseKeeps(ram: Ram, rings: Rings, nextUsed: nat, published: seq<nat>, fates: seq<Fate>)
    requires Agrees(ram, rings, nextUsed, published, fates)
    requires |fates| < |published|
    ensures Agrees(ram, rings, nextUsed, published, fates + [Refused])
  {
    DecidedGrows(published, fates, Refused);
    assert UsedOf(published, fates) + [] == UsedOf(published, fates);
  }

  lemma TakeKeeps(s: System)
    requires Inv(s) && Enabled(s, Take)
    ensures Inv(After(s, Take))
  {
    hide AfterPop, WalkTable;
    var q := s.slot.queue.value;
    PopAgrees(q, s.ram, s.published, s.fates);
    if |s.fates| < |s.published| {
      RefuseKeeps(s.ram, s.slot.regs, q.nextUsed, s.published, s.fates);
    }
  }

  lemma FinishedKeeps(s: System, len: nat)
    requires Inv(s) && Enabled(s, Finish(len))
    ensures Inv(After(s, Finish(len)))
  {
    FinishKeeps(s.slot.queue.value, s.ram, s.published, s.fates, len);
  }

  lemma PublishedKeeps(s: System, head: nat)
    requires Inv(s) && Enabled(s, Publish(head))
    ensures Inv(After(s, Publish(head)))
  {
    PublishKeeps(s.ram, s.slot.regs, s.slot.queue.value.nextUsed, s.published, s.fates, head);
  }

  lemma StoresKeep(s: System, ram': Ram)
    requires Inv(s) && SameRings(s.ram, ram', s.slot.regs)
    ensures Inv(s.(ram := ram'))
  {
    AgreesFrame(s.ram, ram', s.slot.regs, s.slot.queue.value.nextUsed, s.published, s.fates);
  }

  lemma RefusedKeeps(s: System)
    requires Inv(s) && Enabled(s, Refuse)
    ensures Inv(After(s, Refuse))
  {
    RefuseKeeps(s.ram, s.slot.regs, s.slot.queue.value.nextUsed, s.published, s.fates);
  }

  /** A deferred chain is the next one popped again. */
  lemma DeferKeeps(s: System)
    requires Inv(s) && Enabled(s, Defer)
    ensures Inv(After(s, Defer))
  {
    WrappedNext(|s.fates|);
  }

  /** A capture keeps what a restore needs to continue the same history. */
  lemma CaptureKeeps(s: System)
    requires Inv(s) && Enabled(s, Capture)
    ensures Inv(After(s, Capture))
  {
    assert SnapshotGood(Snapshot(s.ram, CaptureSlot(s.slot), s.published, s.fates));
  }

  lemma RestoreKeeps(s: System, from: nat)
    requires Inv(s) && Enabled(s, Restore(from))
    ensures Inv(After(s, Restore(from)))
  {
    assert SnapshotGood(s.saved[from]);
  }

  /** Every step keeps the rings and the cursors agreeing with the history. */
  lemma StepKeeps(s: System, e: Event)
    requires Inv(s) && Enabled(s, e)
    ensures Inv(After(s, e))
  {
    match e
    case Publish(head) => PublishedKeeps(s, head);
    case GuestStores(after) => StoresKeep(s, after);
    case Take => TakeKeeps(s);
    case Refuse => RefusedKeeps(s);
    case Defer => DeferKeeps(s);
    case DeviceStores(stored) => StoresKeep(s, stored);
    case Finish(len) => FinishedKeeps(s, len);
    case Capture => CaptureKeeps(s);
    case Restore(from) => RestoreKeeps(s, from);
  }

  // ---- Runs ----

  /** Each event could happen when it did. */
  ghost predicate IsRun(s: System, events: seq<Event>)
    decreases |events|
  {
    events != [] ==> Enabled(s, events[0]) && IsRun(After(s, events[0]), events[1..])
  }

  ghost function Final(s: System, events: seq<Event>): System
    requires IsRun(s, events)
    decreases |events|
  {
    if events == [] then s else Final(After(s, events[0]), events[1..])
  }

  lemma {:induction false} RunKeeps(s: System, events: seq<Event>)
    requires Inv(s) && IsRun(s, events)
    ensures Inv(Final(s, events))
    decreases |events|
  {
    if events != [] {
      StepKeeps(s, events[0]);
      RunKeeps(After(s, events[0]), events[1..]);
    }
  }

  /** Places, in order, of the chains which were served. */
  function ServedAt(fates: seq<Fate>): (places: seq<nat>)
    ensures forall i :: 0 <= i < |places| ==> places[i] < |fates|
  {
    if fates == [] then []
    else
      var n := |fates| - 1;
      ServedAt(fates[..n]) + if fates[n].Served? then [n] else []
  }

  /** Strictly growing places, which are those of the served chains. */
  ghost predicate PlacesServed(fates: seq<Fate>, places: seq<nat>) {
    && (forall i :: 0 <= i < |places| ==> places[i] < |fates| && fates[places[i]].Served?)
    && (forall i, j :: 0 <= i < j < |places| ==> places[i] < places[j])
    && (forall n :: 0 <= n < |fates| && fates[n].Served? ==> n in places)
  }

  /** `used` names each served chain once, in published order, and no other. */
  ghost predicate OnceEach(published: seq<nat>, fates: seq<Fate>, used: seq<Element>)
    requires |fates| <= |published|
  {
    var places := ServedAt(fates);
    && PlacesServed(fates, places)
    && |used| == |places|
    && forall i :: 0 <= i < |used| ==> used[i] == Element(published[places[i]], fates[places[i]].len)
  }

  lemma PlacesGrow(fates: seq<Fate>, places: seq<nat>)
    requires fates != [] && PlacesServed(fates[..|fates| - 1], places)
    ensures PlacesServed(fates, places + if fates[|fates| - 1].Served? then [|fates| - 1] else [])
  {
    var n := |fates| - 1;
    var front, more := fates[..n], places + if fates[n].Served? then [n] else [];
    forall i | 0 <= i < |more|
      ensures more[i] < |fates| && fates[more[i]].Served? && (i < |places| ==> more[i] == places[i] < n)
    {
      if i < |places| {
        assert front[places[i]] == fates[places[i]];
      }
    }
    forall k | 0 <= k < |fates| && fates[k].Served?
      ensures k in more
    {
      if k < n {
        assert front[k].Served? && k in places;
      }
    }
  }

  lemma {:induction false} ServedPlaces(fates: seq<Fate>)
    ensures PlacesServed(fates, ServedAt(fates))
  {
    hide PlacesServed;
    if fates == [] {
      NoPlaces();
    } else {
      var front := fates[..|fates| - 1];
      ServedPlaces(front);
      PlacesGrow(fates, ServedAt(front));
    }
  }

  lemma NoPlaces()
    ensures PlacesServed([], [])
  {
  }

  lemma {:induction false} UsedAtPlaces(published: seq<nat>, fates: seq<Fate>)
    requires |fates| <= |published|
    ensures var used, places := UsedOf(published, fates), ServedAt(fates);
            && |used| == |places|
            && forall i :: 0 <= i < |used| ==>
                             && fates[places[i]].Served?
                             && used[i] == Element(published[places[i]], fates[places[i]].len)
  {
    if fates != [] {
      UsedAtPlaces(published, fates[..|fates| - 1]);
    }
  }

  /** With no chain refused the used heads are the published ones so far. */
  lemma {:induction false} AllServedIsPrefix(published: seq<nat>, fates: seq<Fate>)
    requires |fates| <= |published|
    requires forall n :: 0 <= n < |fates| ==> fates[n].Served?
    ensures |UsedOf(published, fates)| == |fates|
    ensures forall i :: 0 <= i < |fates| ==> UsedOf(published, fates)[i].head == published[i]
  {
    if fates != [] {
      AllServedIsPrefix(published, fates[..|fates| - 1]);
    }
  }

  ghost predicate AllServed(fates: seq<Fate>) {
    forall n :: 0 <= n < |fates| ==> fates[n].Served?
  }

  /** No published head is skipped: the next pop takes the next one, and
      finds the ring empty only when all are decided. */
  ghost predicate NextPopFound(t: System)
    requires t.slot.queue.Some? && t.slot.queue.value.rings.size > 0 && |t.fates| <= |t.published|
  {
    var popped := AfterPop(t.slot.queue.value, t.ram);
    if |t.fates| == |t.published| then popped.outcome == Ok(None)
    else
      match WalkTable(t.ram, t.slot.regs, t.published[|t.fates|])
      case Ok(ds) => popped.outcome == Ok(Some(Chain(t.published[|t.fates|], ds)))
      case Err(e) => popped.outcome == Err(e)
  }

  /** What the driver and the device find after any run from a fresh queue:
      the used ring in RAM names each served chain once and in order, and
      no published head is skipped. */
  ghost predicate ServiceHolds(t: System) {
    && t.slot.queue.Some? && |t.fates| <= |t.published| && t.slot.regs.size > 0
    && t.slot.queue.value.rings == t.slot.regs
    && OnceEach(t.published, t.fates, UsedOf(t.published, t.fates))
    && UsedAgrees(t.ram, t.slot.regs, UsedOf(t.published, t.fates))
    && (AllServed(t.fates) ==> IsPrefix(UsedOf(t.published, t.fates), t.published))
    && (t.device.Idle? ==> NextPopFound(t))
  }

  ghost predicate IsPrefix(used: seq<Element>, published: seq<nat>) {
    |used| <= |published| && forall i :: 0 <= i < |used| ==> used[i].head == published[i]
  }

  lemma InitAgrees(s: System)
    requires Init(s)
    ensures Inv(s)
  {
    assert UsedOf(s.published, s.fates) == [];
  }

  lemma PopsNext(t: System)
    requires Inv(t) && t.device.Idle?
    ensures NextPopFound(t)
  {
    PopAgrees(t.slot.queue.value, t.ram, t.published, t.fates);
  }

  lemma InvServes(t: System)
    requires Inv(t)
    ensures ServiceHolds(t)
  {
    if t.device.Idle? {
      PopsNext(t);
    }
    ServedPlaces(t.fates);
    UsedAtPlaces(t.published, t.fates);
    if AllServed(t.fates) {
      AllServedIsPrefix(t.published, t.fates);
    }
    hide AfterPop, WalkTable, UsedOf, ServedAt, PlacesServed, ElementHeld, Field;
  }

  /** Exactly-once service, over every run of published chains, served,
      refused and deferred requests, captures and restores. */
  lemma ExactlyOnceService(s: System, events: seq<Event>)
    requires Init(s) && IsRun(s, events)
    ensures ServiceHolds(Final(s, events))
  {
    InitAgrees(s);
    RunKeeps(s, events);
    InvServes(Final(s, events));
    hide Init, Inv, ServiceHolds;
  }

  /** A clone restored from a capture continues where the capture was
      taken, no matter what happened since. */
  lemma RestoreContinues(s: System, t: System, n: nat)
    requires Inv(s) && s.device.Idle?
    requires n < |t.saved| && t.saved[n] == Snapshot(s.ram, CaptureSlot(s.slot), s.published, s.fates)
    requires Enabled(t, Restore(n))
    ensures After(t, Restore(n)) == s.(saved := t.saved)
  {
    SlotRoundTrip(s.slot);
  }

  // ---- One notify ----

  ghost predicate OfDevice(e: Event) {
    e.Take? || e.Refuse? || e.Defer? || e.DeviceStores? || e.Finish?
  }

  /** `t` follows `s` by serving: the published heads and the slot are
      left alone and decided chains are only added to. */
  ghost predicate ServesOn(s: System, t: System) {
    && t.published == s.published && t.slot.regs == s.slot.regs
    && s.fates <= t.fates
  }

  lemma DeviceStepExtends(s: System, e: Event)
    requires Inv(s) && Enabled(s, e) && OfDevice(e)
    ensures ServesOn(s, After(s, e))
  {
    hide AfterPop, AfterUsed;
  }

  lemma {:induction false} DeviceRunExtends(s: System, events: seq<Event>)
    requires Inv(s) && IsRun(s, events)
    requires forall i :: 0 <= i < |events| ==> OfDevice(events[i])
    ensures Inv(Final(s, events)) && ServesOn(s, Final(s, events))
    decreases |events|
  {
    hide Inv, Enabled, After;
    if events != [] {
      StepKeeps(s, events[0]);
      DeviceStepExtends(s, events[0]);
      DeviceRunExtends(After(s, events[0]), events[1..]);
    }
  }

  lemma {:induction false} UsedOfPrefix(published: seq<nat>, fates: seq<Fate>, n: nat)
    requires n <= |fates| <= |published|
    ensures |UsedOf(published, fates[..n])| <= |UsedOf(published, fates)|
  {
    if n < |fates| {
      var m := |fates| - 1;
      UsedOfPrefix(published, fates[..m], n);
      assert fates[..m][..n] == fates[..n];
    } else {
      assert fates[..n] == fates;
    }
  }

  lemma UsedCursor(s: System)
    requires Inv(s)
    ensures s.slot.queue.Some? && |s.fates| <= |s.published|
    ensures s.slot.queue.value.nextUsed == |UsedOf(s.published, s.fates)| % U16_LIMIT
    ensures |s.published| <= |UsedOf(s.published, s.fates)| + s.slot.regs.size
    ensures s.slot.regs.size <= MAX_SIZE
  {
  }

  /** Chains used so far. */
  ghost function UsedCount(s: System): nat
    requires |s.fates| <= |s.published|
  {
    |UsedOf(s.published, s.fates)|
  }

  lemma StepAddsUsed(s: System, e: Event)
    requires Inv(s) && Enabled(s, e) && Inv(After(s, e)) && !e.Restore?
    ensures |s.fates| <= |s.published| && |After(s, e).fates| <= |After(s, e).published|
    ensures UsedCount(s) <= UsedCount(After(s, e))
  {
    hide AfterPop, AfterUsed, Inv, UsedOf;
    UsedCursor(s);
    UsedCursor(After(s, e));
    if e.Publish? {
      UsedOfGrows(s.published, e.head, s.fates);
    } else if |s.fates| < |s.published| {
      var t := After(s, e);
      if t.fates != s.fates {
        DecidedGrows(s.published, s.fates, t.fates[|s.fates|]);
      }
    }
  }

  lemma {:induction false} RunAddsUsed(s: System, events: seq<Event>)
    requires Inv(s) && IsRun(s, events) && forall i :: 0 <= i < |events| ==> !events[i].Restore?
    ensures Inv(Final(s, events)) && |s.fates| <= |s.published|
    ensures |Final(s, events).fates| <= |Final(s, events).published|
    ensures UsedCount(s) <= UsedCount(Final(s, events))
    decreases |events|
  {
    hide Inv, Enabled, After, UsedCount;
    UsedCursor(s);
    if events != [] {
      StepKeeps(s, events[0]);
      StepAddsUsed(s, events[0]);
      RunAddsUsed(After(s, events[0]), events[1..]);
    }
  }

  /** Over any run without a restore the wrapped used cursor shows a move unless
      the number of chains used along it is a multiple of 65536. */
  lemma CursorMoved(s: System, events: seq<Event>)
    requires Inv(s) && IsRun(s, events) && forall i :: 0 <= i < |events| ==> !events[i].Restore?
    ensures var t := Final(s, events);
            && t.slot.queue.Some? && |s.fates| <= |s.published| && |t.fates| <= |t.published|
            && UsedCount(s) <= UsedCount(t)
            && (s.slot.queue.value.nextUsed == t.slot.queue.value.nextUsed <==>
                (UsedCount(t) - UsedCount(s)) % U16_LIMIT == 0)
  {
    hide Inv, UsedOf;
    RunAddsUsed(s, events);
    UsedCursor(s);
    UsedCursor(Final(s, events));
    WrappedDifference(UsedCount(s), UsedCount(Final(s, events)));
  }

  /** A notify with the available index fixed uses at most a ring's worth
      of chains, so the wrapped cursor moves exactly when it used one. */
  lemma NotifyMovesCursor(s: System, events: seq<Event>)
    requires Inv(s) && IsRun(s, events)
    requires forall i :: 0 <= i < |events| ==> OfDevice(events[i])
    ensures var t := Final(s, events);
            && t.slot.queue.Some? && |t.fates| <= |t.published|
            && (t.slot.queue.value.nextUsed != s.slot.queue.value.nextUsed <==>
                |UsedOf(s.published, s.fates)| < |UsedOf(t.published, t.fates)|)
  {
    var t := Final(s, events);
    DeviceRunExtends(s, events);
    UsedCursor(s);
    UsedCursor(t);
    assert t.fates[..|s.fates|] == s.fates;
    hide Inv, IsRun;
    UsedOfPrefix(t.published, t.fates, |s.fates|);
    WrappedEqual(|UsedOf(s.published, s.fates)|, |UsedOf(t.published, t.fates)|);
  }
}
