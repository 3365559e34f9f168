/** Split virtqueue of section 2.7 of virtio 1.2, over guest RAM written by
    the driver. Models src/lingcore/src/devices/virtio/queue.rs. */
module Virtqueue {
  import opened Wrappers
  import opened Bytes
  import opened Bits
  import opened GuestMemory
  import opened ChainWalk

  const MAX_SIZE := 0x8000
  const DESCRIPTOR_SIZE := 16

  datatype Chain = Chain(head: nat, descriptors: seq<Descriptor>)

  /** Size and guest addresses of the three rings. */
  datatype Rings = Rings(size: nat, table: nat, avail: nat, used: nat)

  predicate IsPowerOfTwo(n: nat) {
    n == 1 || (n > 1 && n % 2 == 0 && IsPowerOfTwo(n / 2))
  }

  predicate GoodSize(size: nat) {
    0 < size <= MAX_SIZE && IsPowerOfTwo(size)
  }

  lemma {:induction false} PowerIsPow2(k: nat)
    ensures IsPowerOfTwo(Pow2(k)) && Pow2(k) > 0
  {
    if k > 0 {
      PowerIsPow2(k - 1);
      assert Pow2(k) / 2 == Pow2(k - 1);
    }
  }

  lemma {:induction false} PowerHasExponent(n: nat) returns (k: nat)
    requires IsPowerOfTwo(n)
    ensures n == Pow2(k)
  {
    if n == 1 {
      k := 0;
    } else {
      k := PowerHasExponent(n / 2);
      k := k + 1;
    }
  }

  lemma {:induction false} Pow2Grows(j: nat, k: nat)
    requires j <= k
    ensures Pow2(j) <= Pow2(k)
  {
    if j < k {
      Pow2Grows(j, k - 1);
    }
  }

  /** The sizes accepted are 1, 2, 4 and so on up to 32768. */
  lemma GoodSizes(size: nat)
    ensures GoodSize(size) <==> exists k: nat :: k <= 15 && size == Pow2(k)
  {
    assert Pow2(4) == 16 && Pow2(8) == 256 && Pow2(12) == 4096 && Pow2(15) == 32768 && Pow2(16) == 65536 by {
      assert Pow2(2) == 4 && Pow2(6) == 64 && Pow2(10) == 1024 && Pow2(14) == 16384;
    }
    if GoodSize(size) {
      var k := PowerHasExponent(size);
      if k > 15 {
        Pow2Grows(16, k);
      }
      assert k <= 15 && size == Pow2(k);
    }
    if k: nat :| k <= 15 && size == Pow2(k) {
      PowerIsPow2(k);
      Pow2Grows(k, 15);
    }
  }

  function DecodeDescriptor(bytes: seq<Byte>): Descriptor
    requires |bytes| == DESCRIPTOR_SIZE
  {
    Descriptor(FromLittleEndian(bytes[0..8]), FromLittleEndian(bytes[8..12]),
               FromLittleEndian(bytes[12..14]), FromLittleEndian(bytes[14..16]))
  }

  /** `base + delta` unless it leaves the 64-bit address space. */
  function Offset(base: nat, delta: nat): Result<nat, Error> {
    if base + delta < U64_LIMIT then Ok(base + delta) else Err(Ring(base))
  }

  function ReadU16(ram: Ram, gpa: nat): Result<nat, Error> {
    if Holds(ram, gpa, 2) then Ok(FromLittleEndian(Load(ram, gpa, 2))) else Err(Ring(gpa))
  }

  // ---- Chain walk ----

  /** One link of a chain: the checks made on the descriptor at `index`. */
  function LinkAt(ram: Ram, rings: Rings, index: nat): Result<Descriptor, Error> {
    if index >= rings.size then
      Err(BadIndex(index, rings.size))
    else
      match Offset(rings.table, index * DESCRIPTOR_SIZE)
      case Err(e) => Err(e)
      case Ok(at) =>
        if !Holds(ram, at, DESCRIPTOR_SIZE) then Err(Ring(at))
        else
          var d := DecodeDescriptor(Load(ram, at, DESCRIPTOR_SIZE));
          if d.IsIndirect() then Err(Indirect)
          else if !Holds(ram, d.addr, d.len) then Err(Unbacked(d.addr, d.len))
          else Ok(d)
  }

  /** A descriptor as a driver lays it: address, length, flags and next, each in
      little endian. */
  function EncodeDescriptor(d: Descriptor): (s: seq<Byte>)
    ensures |s| == 16
  {
    LittleEndian(d.addr, 8) + LittleEndian(d.len, 4) + LittleEndian(d.flags, 2) + LittleEndian(d.next, 2)
  }

  predicate Fits(d: Descriptor) {
    d.addr < U64_LIMIT && d.len < U32_LIMIT && d.flags < U16_LIMIT && d.next < U16_LIMIT
  }

  lemma DescriptorRoundTrip(d: Descriptor)
    requires Fits(d)
    ensures DecodeDescriptor(EncodeDescriptor(d)) == d
  {
    hide LittleEndian, FromLittleEndian, Pow256;
    Widths();
    LittleEndianRoundTrip(d.addr, 8);
    LittleEndianRoundTrip(d.len, 4);
    LittleEndianRoundTrip(d.flags, 2);
    LittleEndianRoundTrip(d.next, 2);
    var s := EncodeDescriptor(d);
    assert s[..8] == LittleEndian(d.addr, 8) && s[8..12] == LittleEndian(d.len, 4);
    assert s[12..14] == LittleEndian(d.flags, 2) && s[14..16] == LittleEndian(d.next, 2);
  }

  /** A descriptor laid in the table is the link there, if it is direct and its
      buffer backed. */
  lemma LinkLaid(ram: Ram, rings: Rings, index: nat, d: Descriptor)
    requires Fits(d) && index < rings.size && rings.table + 16 * rings.size <= U64_LIMIT
    requires Holds(ram, rings.table + 16 * index, 16)
    ensures var laid := Store(ram, rings.table + 16 * index, EncodeDescriptor(d));
            LinkAt(laid, rings, index) ==
            if d.IsIndirect() then Err(Indirect)
            else if !Holds(ram, d.addr, d.len) then Err(Unbacked(d.addr, d.len))
            else Ok(d)
  {
    hide DecodeDescriptor, EncodeDescriptor, Load, Store;
    DescriptorRoundTrip(d);
    var at := rings.table + 16 * index;
    LoadStored(ram, at, EncodeDescriptor(d), at + 16, 0);
  }

  /** Flags are bits 0, 1 and 2. */
  lemma FlagBits(d: Descriptor)
    ensures d.HasNext() <==> Bit(d.flags, 0)
    ensures d.Writable() <==> Bit(d.flags, 1)
    ensures d.IsIndirect() <==> Bit(d.flags, 2)
  {
    assert Bit(d.flags, 1) <==> Bit(d.flags / 2, 0);
    assert Bit(d.flags, 2) <==> Bit(d.flags / 2, 1);
    assert Bit(d.flags / 2, 1) <==> Bit(d.flags / 4, 0);
  }

  /** Every link of a table, for RAM which does not change under the walk. */
  function LinksOf(ram: Ram, rings: Rings): Links {
    (index: nat) => LinkAt(ram, rings, index)
  }

  function WalkTable(ram: Ram, rings: Rings, head: nat): Result<seq<Descriptor>, Error> {
    WalkFrom(LinksOf(ram, rings), rings.size, head, [])
  }

  /** The walk of a table in RAM accepts a head if and only if its links
      lead, over backed and direct descriptors of the table and meeting none
      twice, to a last one; `ChainTooLong` means that the links loop. */
  lemma WalkTableExact(ram: Ram, rings: Rings, head: nat)
    ensures var links, r := LinksOf(ram, rings), WalkTable(ram, rings, head);
            && (r.Ok? <==> exists path :: Accepts(links, head, path))
            && (forall path :: r.Ok? && Accepts(links, head, path) ==>
                                 Along(links, path, r.value) && |path| <= rings.size)
            && (r == Err(ChainTooLong(rings.size)) <==> exists path :: Loops(links, head, path))
            && (forall e: Error :: !e.ChainTooLong? ==> (r == Err(e) <==> exists path :: Faults(links, head, path, e)))
  {
    var links := LinksOf(ram, rings);
    assert forall i: nat :: links(i) == LinkAt(ram, rings, i);
    WalkExact(links, rings.size, head);
  }

  // ---- Queue operations on values ----

  /** Rings of a queue with the device's place in the available and used
      ones, both cursors wrapping at 16 bits. */
  datatype QueueState = QueueState(rings: Rings, nextAvail: nat, nextUsed: nat)

  ghost predicate GoodQueue(q: QueueState) {
    GoodSize(q.rings.size) && q.nextAvail < U16_LIMIT && q.nextUsed < U16_LIMIT
  }

  datatype Popped = Popped(queue: QueueState, outcome: Result<Option<Chain>, Error>)

  /** Take the chain at the available cursor, unless the published index is
      reached. The cursor moves before the walk and stays moved if it fails. */
  function AfterPop(q: QueueState, ram: Ram): Popped
    requires q.rings.size > 0
  {
    match Offset(q.rings.avail, 2)
    case Err(e) => Popped(q, Err(e))
    case Ok(indexAt) =>
      match ReadU16(ram, indexAt)
      case Err(e) => Popped(q, Err(e))
      case Ok(published) =>
        if q.nextAvail == published then Popped(q, Ok(None))
        else
          match Offset(q.rings.avail, 4 + q.nextAvail % q.rings.size * 2)
          case Err(e) => Popped(q, Err(e))
          case Ok(slotAt) =>
            match ReadU16(ram, slotAt)
            case Err(e) => Popped(q, Err(e))
            case Ok(head) =>
              var moved := q.(nextAvail := (q.nextAvail + 1) % U16_LIMIT);
              match WalkTable(ram, q.rings, head)
              case Err(e) => Popped(moved, Err(e))
              case Ok(ds) => Popped(moved, Ok(Some(Chain(head, ds))))
  }

  function AfterUndo(q: QueueState): QueueState {
    q.(nextAvail := (q.nextAvail + U16_LIMIT - 1) % U16_LIMIT)
  }

  /** Undoing a pop puts the queue back where it was, so the same chain is
      popped again. */
  lemma UndoIsInverse(q: QueueState, ram: Ram)
    requires GoodQueue(q) && AfterPop(q, ram).outcome.Ok? && AfterPop(q, ram).outcome.value.Some?
    ensures AfterUndo(AfterPop(q, ram).queue) == q
  {
    hide WalkTable, ReadU16, Offset;
  }

  datatype Wrote = Wrote(ram: Ram, outcome: Result<(), Error>)

  /** Write `data` at `base + delta`, checking the address first. */
  function StoreAt(ram: Ram, base: nat, delta: nat, data: seq<Byte>): Wrote {
    match Offset(base, delta)
    case Err(e) => Wrote(ram, Err(e))
    case Ok(at) =>
      if Holds(ram, at, |data|) then Wrote(Store(ram, at, data), Ok(()))
      else Wrote(Store(ram, at, data[..Backed(ram, at, |data|)]), Err(Ring(at)))
  }

  /** Write id and length of the used element at `element`. */
  function StoreElement(ram: Ram, used: nat, delta: nat, head: nat, len: nat): Wrote {
    var id := StoreAt(ram, used, delta, LittleEndian(head, 4));
    if id.outcome.Err? then id else StoreAt(id.ram, used + delta, 4, LittleEndian(len, 4))
  }

  datatype Added = Added(queue: QueueState, ram: Ram, outcome: Result<(), Error>)

  /** Count an element once it is written. */
  function CountElement(q: QueueState, element: Wrote): Added {
    if element.outcome.Err? then Added(q, element.ram, element.outcome)
    else
      var moved := q.(nextUsed := (q.nextUsed + 1) % U16_LIMIT);
      var index := StoreAt(element.ram, q.rings.used, 2, LittleEndian(moved.nextUsed, 2));
      Added(moved, index.ram, index.outcome)
  }

  /** Write the used element, then the index which counts it. */
  function AfterUsed(q: QueueState, ram: Ram, head: nat, len: nat): Added
    requires q.rings.size > 0
  {
    CountElement(q, StoreElement(ram, q.rings.used, 4 + q.nextUsed % q.rings.size * 8, head, len))
  }

  // ---- The queue the device holds ----

  class Queue {
    const rings: Rings
    var nextAvail: nat
    var nextUsed: nat

    ghost predicate Valid()
      reads this
    {
      GoodQueue(View())
    }

    ghost function View(): QueueState
      reads this
    {
      QueueState(rings, nextAvail, nextUsed)
    }

    constructor (rings: Rings)
      requires GoodSize(rings.size)
      ensures Valid() && View() == QueueState(rings, 0, 0)
    {
      this.rings := rings;
      nextAvail, nextUsed := 0, 0;
    }

    /** A size which is zero, over `MAX_SIZE` or not a power of two is refused. */
    static method New(size: nat, table: nat, avail: nat, used: nat) returns (r: Result<Queue, Error>)
      ensures r.Ok? <==> GoodSize(size)
      ensures r.Ok? ==> fresh(r.value) && r.value.Valid() &&
                        r.value.View() == QueueState(Rings(size, table, avail, used), 0, 0)
      ensures r.Err? ==> r.error == BadSize(size)
    {
      if size == 0 || size > MAX_SIZE || !IsPowerOfTwo(size) {
        return Err(BadSize(size));
      }
      var queue := new Queue(Rings(size, table, avail, used));
      return Ok(queue);
    }

    method Walk(ram: GuestRam, head: nat) returns (r: Result<Chain, Error>)
      requires Valid()
      ensures match WalkTable(ram.bytes, rings, head)
              case Ok(ds) => r == Ok(Chain(head, ds))
              case Err(e) => r == Err(e)
    {
      var descriptors: seq<Descriptor> := [];
      var index: nat := head;
      ghost var links := LinksOf(ram.bytes, rings);
      while true
        invariant |descriptors| <= rings.size
        invariant WalkTable(ram.bytes, rings, head) == WalkFrom(links, rings.size, index, descriptors)
        decreases rings.size - |descriptors|
      {
        if index >= rings.size {
          return Err(BadIndex(index, rings.size));
        }
        // A chain longer than the table revisits a descriptor.
        if |descriptors| >= rings.size {
          return Err(ChainTooLong(rings.size));
        }
        assert links(index) == LinkAt(ram.bytes, rings, index);
        var offset := Offset(rings.table, index * DESCRIPTOR_SIZE);
        if offset.Err? {
          return Err(offset.error);
        }
        var at := offset.value;
        var bytes := ram.Read(at, DESCRIPTOR_SIZE);
        if bytes.None? {
          return Err(Ring(at));
        }
        var descriptor := DecodeDescriptor(bytes.value);
        if descriptor.IsIndirect() {
          return Err(Indirect);
        }
        if !Holds(ram.bytes, descriptor.addr, descriptor.len) {
          return Err(Unbacked(descriptor.addr, descriptor.len));
        }
        descriptors := descriptors + [descriptor];
        if !descriptor.HasNext() {
          return Ok(Chain(head, descriptors));
        }
        index := descriptor.next;
      }
    }

    method ReadRing(ram: GuestRam, delta: nat) returns (r: Result<nat, Error>)
      ensures match Offset(rings.avail, delta)
              case Err(e) => r == Err(e)
              case Ok(at) => r == ReadU16(ram.bytes, at)
    {
      var offset := Offset(rings.avail, delta);
      if offset.Err? {
        return Err(offset.error);
      }
      var bytes := ram.Read(offset.value, 2);
      r := if bytes.None? then Err(Ring(offset.value)) else Ok(FromLittleEndian(bytes.value));
    }

    method Pop(ram: GuestRam) returns (r: Result<Option<Chain>, Error>)
      requires Valid()
      modifies this
      ensures Valid()
      ensures Popped(View(), r) == AfterPop(old(View()), ram.bytes)
    {
      var published := ReadRing(ram, 2);
      if published.Err? {
        return Err(published.error);
      }
      if nextAvail == published.value {
        return Ok(None);
      }
      var head := ReadRing(ram, 4 + nextAvail % rings.size * 2);
      if head.Err? {
        return Err(head.error);
      }
      nextAvail := (nextAvail + 1) % U16_LIMIT;
      var chain := Walk(ram, head.value);
      r := if chain.Err? then Err(chain.error) else Ok(Some(chain.value));
    }

    method UndoPop()
      requires Valid()
      modifies this
      ensures Valid() && View() == AfterUndo(old(View()))
    {
      nextAvail := (nextAvail + U16_LIMIT - 1) % U16_LIMIT;
    }

    /** Write `data` at `base + delta`, checking the address first. */
    static method WriteAt(ram: GuestRam, base: nat, delta: nat, data: seq<Byte>) returns (r: Result<(), Error>)
      modifies ram
      ensures Wrote(ram.bytes, r) == StoreAt(old(ram.bytes), base, delta, data)
      ensures ram.Tracked(old(ram.bytes), old(ram.marks))
    {
      var offset := Offset(base, delta);
      if offset.Err? {
        return Err(offset.error);
      }
      var wrote := ram.Write(offset.value, data);
      r := if wrote then Ok(()) else Err(Ring(offset.value));
    }

    method AddUsed(ram: GuestRam, head: nat, len: nat) returns (r: Result<(), Error>)
      requires Valid()
      modifies this, ram
      ensures Valid()
      ensures Added(View(), ram.bytes, r) == AfterUsed(old(View()), old(ram.bytes), head, len)
      ensures ram.Tracked(old(ram.bytes), old(ram.marks))
    {
      hide StoreAt, Tracks, LittleEndian;
      var slot := nextUsed % rings.size;
      r := WriteAt(ram, rings.used, 4 + slot * 8, LittleEndian(head, 4));
      if r.Err? {
        return;
      }
      ghost var bytes, marks := ram.bytes, ram.marks;
      var element := rings.used + (4 + slot * 8);
      r := WriteAt(ram, element, 4, LittleEndian(len, 4));
      TracksOn(old(ram.bytes), old(ram.marks), bytes, marks, ram.bytes, ram.marks);
      if r.Err? {
        return;
      }
      // The driver looks at the index first, so the element is complete by now.
      nextUsed := (nextUsed + 1) % U16_LIMIT;
      bytes, marks := ram.bytes, ram.marks;
      r := WriteAt(ram, rings.used, 2, LittleEndian(nextUsed, 2));
      TracksOn(old(ram.bytes), old(ram.marks), bytes, marks, ram.bytes, ram.marks);
    }

    method SetCursors(avail: nat, used: nat)
      requires Valid() && avail < U16_LIMIT && used < U16_LIMIT
      modifies this
      ensures Valid() && View() == QueueState(rings, avail, used)
    {
      nextAvail, nextUsed := avail, used;
    }
  }
}
