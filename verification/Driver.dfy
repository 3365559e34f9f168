/** What a driver keeps to so that a device which fills its buffers leaves
    the rings alone. */
module Driver {
  import opened Wrappers
  import opened Bytes
  import opened GuestMemory
  import opened ChainWalk
  import opened Virtqueue
  import opened Scatter
  import opened ExactlyOnce
  import opened Cursors

  predicate InRings(rings: Rings, a: int) {
    || rings.avail <= a < AvailEnd(rings)
    || rings.used <= a < UsedEnd(rings)
    || InTable(rings, a)
  }

  predicate InTable(rings: Rings, a: int) {
    rings.table <= a < rings.table + rings.size * DESCRIPTOR_SIZE
  }

  ghost predicate ClearOfRings(rings: Rings, d: Descriptor) {
    forall a :: InBuffer(d, a) ==> !InRings(rings, a)
  }

  ghost predicate ChainClear(rings: Rings, descriptors: seq<Descriptor>) {
    forall i :: 0 <= i < |descriptors| && descriptors[i].Writable() ==> ClearOfRings(rings, descriptors[i])
  }

  /** No chain published and yet to be decided lets the device write over the
      rings, and the used ring is not laid over the table. */
  ghost predicate BuffersClear(ram: Ram, rings: Rings, published: seq<nat>, decided: nat) {
    && (forall k :: decided <= k < |published| ==>
                      var r := WalkTable(ram, rings, published[k]); r.Ok? ==> ChainClear(rings, r.value))
    && (forall a :: rings.used <= a < UsedEnd(rings) ==> !InTable(rings, a))
  }

  ghost predicate SameTable(ram: Ram, ram': Ram, rings: Rings) {
    ram'.Keys == ram.Keys && forall a :: a in ram && InTable(rings, a) ==> ram'[a] == ram[a]
  }

  /** Bytes of RAM changed only inside the writable buffers of `data`. */
  ghost predicate OnlyInto(ram: Ram, ram': Ram, data: seq<Descriptor>) {
    && ram'.Keys == ram.Keys
    && forall a :: a in ram && ram'[a] != ram[a] ==>
                     exists i :: 0 <= i < |data| && data[i].Writable() && InBuffer(data[i], a)
  }

  lemma IntoMore(ram0: Ram, ram: Ram, data: seq<Descriptor>, i: nat, bytes: seq<Byte>)
    requires OnlyInto(ram0, ram, data)
    requires i < |data| && data[i].Writable() && |bytes| <= data[i].len
    ensures OnlyInto(ram0, Store(ram, data[i].addr, bytes), data)
  {
    var ram' := Store(ram, data[i].addr, bytes);
    forall a | a in ram0 && ram'[a] != ram0[a]
      ensures exists j :: 0 <= j < |data| && data[j].Writable() && InBuffer(data[j], a)
    {
      if ram'[a] != ram[a] {
        assert InBuffer(data[i], a);
      }
    }
  }

  lemma LinkUnchanged(ram: Ram, ram': Ram, rings: Rings, index: nat)
    requires SameTable(ram, ram', rings)
    ensures LinkAt(ram', rings, index) == LinkAt(ram, rings, index)
  {
    if index < rings.size {
      var at := rings.table + index * DESCRIPTOR_SIZE;
      assert forall a :: at <= a < at + DESCRIPTOR_SIZE ==> InTable(rings, a);
      assert Load(ram', at, DESCRIPTOR_SIZE) == Load(ram, at, DESCRIPTOR_SIZE);
      hide DecodeDescriptor, Load;
    }
  }

  lemma {:induction false} WalksAlike(links: Links, links': Links, size: nat, index: nat, seen: seq<Descriptor>)
    requires |seen| <= size && forall i: nat :: links'(i) == links(i)
    ensures WalkFrom(links', size, index, seen) == WalkFrom(links, size, index, seen)
    decreases size - |seen|
  {
    if index < size && |seen| < size && links(index).Ok? {
      WalksAlike(links, links', size, links(index).value.next, seen + [links(index).value]);
    }
  }

  /** While the table is left alone every head walks the same. */
  lemma WalkUnchanged(ram: Ram, ram': Ram, rings: Rings, head: nat)
    requires SameTable(ram, ram', rings)
    ensures WalkTable(ram', rings, head) == WalkTable(ram, rings, head)
  {
    forall i: nat
      ensures LinksOf(ram', rings)(i) == LinksOf(ram, rings)(i)
    {
      LinkUnchanged(ram, ram', rings, i);
    }
    WalksAlike(LinksOf(ram, rings), LinksOf(ram', rings), rings.size, head, []);
  }

  lemma {:induction false} WalkedIsBacked(ram: Ram, links: Links, size: nat, index: nat, seen: seq<Descriptor>)
    requires |seen| <= size && AllBacked(ram, seen)
    requires forall i: nat :: links(i).Ok? ==> Holds(ram, links(i).value.addr, links(i).value.len)
    ensures var r := WalkFrom(links, size, index, seen); r.Ok? ==> AllBacked(ram, r.value)
    decreases size - |seen|
  {
    if index < size && |seen| < size && links(index).Ok? {
      assert AllBacked(ram, seen + [links(index).value]);
      WalkedIsBacked(ram, links, size, links(index).value.next, seen + [links(index).value]);
    }
  }

  /** Every buffer of a chain the walk accepts is backed. */
  lemma WalkIsBacked(ram: Ram, rings: Rings, head: nat)
    ensures WalkTable(ram, rings, head).Ok? ==> AllBacked(ram, WalkTable(ram, rings, head).value)
  {
    hide DecodeDescriptor, Load;
    WalkedIsBacked(ram, LinksOf(ram, rings), rings.size, head, []);
  }

  lemma StillClear(ram: Ram, ram': Ram, rings: Rings, published: seq<nat>, decided: nat)
    requires BuffersClear(ram, rings, published, decided) && SameTable(ram, ram', rings)
    ensures BuffersClear(ram', rings, published, decided) && BuffersClear(ram', rings, published, decided + 1)
  {
    forall head: nat
      ensures WalkTable(ram', rings, head) == WalkTable(ram, rings, head)
    {
      WalkUnchanged(ram, ram', rings, head);
    }
    hide WalkTable, SameTable, ChainClear;
  }

  /** A device which only fills writable buffers of a chain leaves both rings
      and the table as they were. */
  lemma FillLeavesRings(ram: Ram, ram': Ram, rings: Rings, descriptors: seq<Descriptor>)
    requires ChainClear(rings, descriptors) && OnlyInto(ram, ram', descriptors)
    ensures SameRings(ram, ram', rings) && SameTable(ram, ram', rings)
  {
    forall a | a in ram && InRings(rings, a)
      ensures ram'[a] == ram[a]
    {
      assert forall i :: 0 <= i < |descriptors| && descriptors[i].Writable() ==> !InBuffer(descriptors[i], a);
    }
  }

  /** Reporting a chain as used leaves the table as it was. */
  lemma ReportLeavesTable(ram: Ram, rings: Rings, n: nat, e: Element)
    requires Laid(ram, rings) && forall a :: rings.used <= a < UsedEnd(rings) ==> !InTable(rings, a)
    ensures SameTable(ram, Reported(ram, rings, n, e), rings)
  {
    hide WalkTable;
  }

  // ---- The device's place in the protocol ----

  /** Between chains: rings and cursors agree with what the driver published
      and what became of it. */
  ghost predicate Serving(q: QueueState, ram: Ram, published: seq<nat>, fates: seq<Fate>) {
    && Agrees(ram, q.rings, q.nextUsed, published, fates)
    && q.nextAvail == |fates| % U16_LIMIT
    && BuffersClear(ram, q.rings, published, |fates|)
  }

  /** With the next chain in hand. */
  ghost predicate Held(q: QueueState, ram: Ram, published: seq<nat>, fates: seq<Fate>, chain: Chain) {
    && Agrees(ram, q.rings, q.nextUsed, published, fates)
    && q.nextAvail == (|fates| + 1) % U16_LIMIT
    && BuffersClear(ram, q.rings, published, |fates|)
    && |fates| < |published| && chain.head == published[|fates|]
    && ChainClear(q.rings, chain.descriptors)
  }

  lemma PopServes(q: QueueState, ram: Ram, published: seq<nat>, fates: seq<Fate>)
    requires Serving(q, ram, published, fates)
    ensures q.rings.size > 0
    ensures var p := AfterPop(q, ram);
            match p.outcome
            case Ok(None) => p.queue == q && |fates| == |published|
            case Ok(Some(chain)) =>
              |fates| < |published| && Held(p.queue, ram, published, fates, chain) && AllBacked(ram, chain.descriptors)
            case Err(_) => |fates| < |published| && Serving(p.queue, ram, published, fates + [Refused])
  {
    PopAgrees(q, ram, published, fates);
    if |fates| < |published| {
      RefuseKeeps(ram, q.rings, q.nextUsed, published, fates);
      WalkIsBacked(ram, q.rings, published[|fates|]);
      StillClear(ram, ram, q.rings, published, |fates|);
      assert WalkTable(ram, q.rings, published[|fates|]).Ok? ==>
          ChainClear(q.rings, WalkTable(ram, q.rings, published[|fates|]).value);
    }
    hide AfterPop, WalkTable, BuffersClear, ChainClear, Agrees, AllBacked;
  }

  lemma UndoServes(q: QueueState, ram: Ram, published: seq<nat>, fates: seq<Fate>, chain: Chain)
    requires Held(q, ram, published, fates, chain)
    ensures Serving(AfterUndo(q), ram, published, fates) && |fates| < |published|
  {
    WrappedNext(|fates|);
    hide BuffersClear, ChainClear, Agrees;
  }

  lemma RefuseServes(q: QueueState, ram: Ram, published: seq<nat>, fates: seq<Fate>, chain: Chain)
    requires Held(q, ram, published, fates, chain)
    ensures Serving(q, ram, published, fates + [Refused]) && |fates| < |published|
  {
    RefuseKeeps(ram, q.rings, q.nextUsed, published, fates);
    StillClear(ram, ram, q.rings, published, |fates|);
    hide BuffersClear, ChainClear, Agrees;
  }

  lemma FillHolds(q: QueueState, ram: Ram, ram': Ram, published: seq<nat>, fates: seq<Fate>, chain: Chain)
    requires Held(q, ram, published, fates, chain) && OnlyInto(ram, ram', chain.descriptors)
    ensures Held(q, ram', published, fates, chain)
  {
    FillLeavesRings(ram, ram', q.rings, chain.descriptors);
    StillClear(ram, ram', q.rings, published, |fates|);
    AgreesFrame(ram, ram', q.rings, q.nextUsed, published, fates);
    hide BuffersClear, ChainClear, Agrees, OnlyInto;
  }

  lemma FinishServes(q: QueueState, ram: Ram, published: seq<nat>, fates: seq<Fate>, chain: Chain, len: nat)
    requires Held(q, ram, published, fates, chain) && len < U32_LIMIT
    ensures q.rings.size > 0
    ensures var added := AfterUsed(q, ram, chain.head, len);
            added.outcome == Ok(()) && Serving(added.queue, added.ram, published, fates + [Served(len)])
  {
    var used := UsedOf(published, fates);
    FinishKeeps(q, ram, published, fates, len);
    UsedIsReported(q, ram, |used|, Element(chain.head, len));
    ReportLeavesTable(ram, q.rings, |used|, Element(chain.head, len));
    StillClear(ram, AfterUsed(q, ram, chain.head, len).ram, q.rings, published, |fates|);
    hide BuffersClear, ChainClear, Agrees, AfterUsed, Reported, UsedOf;
  }

  lemma ServingCursor(q: QueueState, ram: Ram, published: seq<nat>, fates: seq<Fate>)
    requires Serving(q, ram, published, fates)
    ensures |fates| <= |published| <= |UsedOf(published, fates)| + q.rings.size && q.rings.size <= MAX_SIZE
    ensures q.nextUsed == |UsedOf(published, fates)| % U16_LIMIT
  {
    hide BuffersClear, UsedOf;
  }

  /** While the driver publishes nothing the wrapped used cursor moves
      exactly when a chain was used. */
  lemma UsedMovesCursor(q: QueueState, ram: Ram, q': QueueState, ram': Ram, published: seq<nat>, fates: seq<Fate>,
                        decided: seq<Fate>)
    requires Serving(q, ram, published, fates) && Serving(q', ram', published, decided)
    requires q'.rings == q.rings && fates <= decided
    ensures |fates| <= |decided| <= |published|
    ensures q'.nextUsed != q.nextUsed <==> |UsedOf(published, fates)| < |UsedOf(published, decided)|
  {
    hide Serving, UsedOf;
    ServingCursor(q, ram, published, fates);
    ServingCursor(q', ram', published, decided);
    assert decided[..|fates|] == fates;
    UsedOfPrefix(published, decided, |fates|);
    WrappedEqual(|UsedOf(published, fates)|, |UsedOf(published, decided)|);
  }
}
