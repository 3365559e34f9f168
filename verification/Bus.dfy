/** Device bus: placement of devices in the address spaces, lookup, and the
    restore of saved state matched by kind. Models
    src/lingcore/src/devices/bus.rs. */
module Bus {
  import opened Wrappers
  import opened Bytes

  /** State captured from a device, tagged with its kind. */
  datatype Blob = Blob(kind: string, version: nat, data: seq<Byte>)

  /** A device as the bus sees it, `None` for the kind of a stateless one.
      `settled` counts the calls which tell it that a restore is complete. */
  datatype Device = Device(kind: Option<string>, version: nat, data: seq<Byte>, settled: nat)

  datatype Placed = Placed(base: nat, size: nat, device: Device) {
    predicate Covers(a: int) { base <= a < base + size }
  }

  datatype Error = BadRange(base: nat) | Overlap(base: nat) | State | WrongState | WrongVersion | WrongQueues

  /** What a device which refuses a blob returns, and the state it is left in. A
      transport, say, has set its registers by the time a queue can not be
      built. */
  datatype Refusal = Refusal(left: seq<Byte>, error: Error)

  /** The restore of each device, `None` where it takes the blob. */
  type Restorer = (Device, Blob) -> Option<Refusal>

  // ---- Placement ----

  /** Ranges are non-empty, fit the address space and are disjoint. */
  ghost predicate Disjoint(list: seq<Placed>) {
    && (forall i :: 0 <= i < |list| ==> 0 < list[i].size && list[i].base + list[i].size < U64_LIMIT)
    && (forall i, j, a :: 0 <= i < j < |list| && list[i].Covers(a) ==> !list[j].Covers(a))
  }

  /** No address of the range is claimed. */
  ghost predicate Unclaimed(list: seq<Placed>, base: nat, size: nat) {
    forall i, a :: 0 <= i < |list| && base <= a < base + size ==> !list[i].Covers(a)
  }

  /** Place `device` at `base` covering `size` bytes. */
  method Place(list: seq<Placed>, base: nat, size: nat, device: Device) returns (r: Result<seq<Placed>, Error>)
    requires Disjoint(list) && base < U64_LIMIT && size < U64_LIMIT
    ensures r.Ok? ==> r.value == list + [Placed(base, size, device)] && Disjoint(r.value)
    ensures r.Ok? <==> 0 < size && base + size < U64_LIMIT && Unclaimed(list, base, size)
    ensures r == Err(BadRange(base)) <==> size == 0 || base + size >= U64_LIMIT
    ensures r.Err? ==> r.error == BadRange(base) || r.error == Overlap(base)
  {
    if base + size >= U64_LIMIT || size == 0 {
      return Err(BadRange(base));
    }
    var end := base + size;
    for i := 0 to |list|
      invariant Unclaimed(list[..i], base, size)
    {
      if base < list[i].base + list[i].size && list[i].base < end {
        var a := if base < list[i].base then list[i].base else base;
        assert list[i].Covers(a) && base <= a < base + size;
        return Err(Overlap(base));
      }
    }
    assert list[..|list|] == list;
    r := Ok(list + [Placed(base, size, device)]);
  }

  /** Index of the device covering `addr` and the offset into it. There is at
      most one, so the first found is the only one. */
  method Find(list: seq<Placed>, addr: nat) returns (r: Option<(nat, nat)>)
    requires Disjoint(list)
    ensures r.None? <==> forall i :: 0 <= i < |list| ==> !list[i].Covers(addr)
    ensures r.Some? ==> && r.value.0 < |list| && addr == list[r.value.0].base + r.value.1 &&
                           r.value.1 < list[r.value.0].size
                        && forall i :: 0 <= i < |list| && list[i].Covers(addr) ==> i == r.value.0
  {
    for i := 0 to |list|
      invariant forall k :: 0 <= k < i ==> !list[k].Covers(addr)
    {
      if list[i].base <= addr && addr - list[i].base < list[i].size {
        return Some((i, addr - list[i].base));
      }
    }
    r := None;
  }

  // ---- Matching by kind ----

  function Kinds(list: seq<Placed>): (r: seq<Option<string>>)
    ensures |r| == |list|
  {
    seq(|list|, i requires 0 <= i < |list| => list[i].device.kind)
  }

  /** Number of devices of a kind. */
  function Count(kinds: seq<Option<string>>, kind: string): (n: nat)
    ensures n <= |kinds|
  {
    if kinds == [] then 0
    else Count(kinds[..|kinds| - 1], kind) + if kinds[|kinds| - 1] == Some(kind) then 1 else 0
  }

  /** Saved blobs of a kind, in saved order. */
  function OfKind(blobs: seq<Option<Blob>>, kind: string): seq<Blob> {
    if blobs == [] then []
    else
      var last := blobs[|blobs| - 1];
      OfKind(blobs[..|blobs| - 1], kind) + if last.Some? && last.value.kind == kind then [last.value] else []
  }

  /** The blob for device `i`: the one as far among the blobs of its kind as
      the device is among the devices of its kind. */
  function BlobFor(kinds: seq<Option<string>>, blobs: seq<Option<Blob>>, i: nat): Option<Blob>
    requires i < |kinds|
  {
    if kinds[i].None? then None
    else
      var rank, mine := Count(kinds[..i], kinds[i].value), OfKind(blobs, kinds[i].value);
      if rank < |mine| then Some(mine[rank]) else None
  }

  /** More blobs of a kind were saved than there are devices for. */
  ghost predicate Surplus(kinds: seq<Option<string>>, blobs: seq<Option<Blob>>) {
    exists kind :: |OfKind(blobs, kind)| > Count(kinds, kind)
  }

  /** Device `i` once its blob, if there is one, is applied. */
  function Applied(p: Placed, blob: Option<Blob>): Placed {
    if blob.Some? then p.(device := p.device.(data := blob.value.data)) else p
  }

  function Settled(p: Placed): Placed {
    p.(device := p.device.(settled := p.device.settled + 1))
  }

  lemma {:induction false} CountGrows(kinds: seq<Option<string>>, kind: string, n: nat)
    requires n <= |kinds|
    ensures Count(kinds[..n], kind) <= Count(kinds, kind)
    ensures n < |kinds| && kinds[n] == Some(kind) ==> Count(kinds[..n], kind) < Count(kinds, kind)
    decreases |kinds|
  {
    if n == |kinds| {
      assert kinds[..n] == kinds;
    } else {
      var m := |kinds| - 1;
      CountGrows(kinds[..m], kind, n);
      assert kinds[..m][..n] == kinds[..n];
    }
  }

  /** Of each kind, every rank below the count is held by exactly one device. */
  lemma {:induction false} RankHeld(kinds: seq<Option<string>>, kind: string, rank: nat) returns (i: nat)
    requires rank < Count(kinds, kind)
    ensures i < |kinds| && kinds[i] == Some(kind) && Count(kinds[..i], kind) == rank
    ensures forall j :: 0 <= j < |kinds| && kinds[j] == Some(kind) && Count(kinds[..j], kind) == rank ==> j == i
    decreases |kinds|
  {
    var m := |kinds| - 1;
    var front := kinds[..m];
    if rank < Count(front, kind) {
      i := RankHeld(front, kind, rank);
    } else {
      i := m;
    }
    forall j | 0 <= j < |kinds| && kinds[j] == Some(kind) && Count(kinds[..j], kind) == rank
      ensures j == i
    {
      if j < m {
        assert front[..j] == kinds[..j] && front[j] == kinds[j];
        CountGrows(front, kind, j);
      }
    }
    if i < m {
      assert front[..i] == kinds[..i];
    }
  }

  /** With no surplus every saved blob is taken, and by one device only. */
  lemma EveryBlobTaken(kinds: seq<Option<string>>, blobs: seq<Option<Blob>>, kind: string, rank: nat) returns (i: nat)
    requires !Surplus(kinds, blobs) && rank < |OfKind(blobs, kind)|
    ensures i < |kinds| && kinds[i] == Some(kind) && BlobFor(kinds, blobs, i) == Some(OfKind(blobs, kind)[rank])
    ensures forall j :: 0 <= j < |kinds| && kinds[j] == Some(kind) && Count(kinds[..j], kind) == rank ==> j == i
  {
    i := RankHeld(kinds, kind, rank);
  }

  lemma {:induction false} OfKindPrefix(blobs: seq<Option<Blob>>, kind: string, n: nat)
    requires n <= |blobs|
    ensures OfKind(blobs[..n], kind) <= OfKind(blobs, kind)
    decreases |blobs|
  {
    if n == |blobs| {
      assert blobs[..n] == blobs;
    } else {
      var m := |blobs| - 1;
      OfKindPrefix(blobs[..m], kind, n);
      assert blobs[..m][..n] == blobs[..n];
    }
  }

  // ---- Capture ----

  function BlobOf(d: Device): Option<Blob> {
    if d.kind.Some? then Some(Blob(d.kind.value, d.version, d.data)) else None
  }

  function Captured(list: seq<Placed>): (blobs: seq<Option<Blob>>)
    ensures |blobs| == |list|
  {
    seq(|list|, i requires 0 <= i < |list| => BlobOf(list[i].device))
  }

  lemma {:induction false} CapturedCount(list: seq<Placed>, kind: string, n: nat)
    requires n <= |list|
    ensures |OfKind(Captured(list)[..n], kind)| == Count(Kinds(list)[..n], kind)
  {
    if n > 0 {
      CapturedCount(list, kind, n - 1);
      var blobs, kinds := Captured(list)[..n], Kinds(list)[..n];
      assert blobs[..n - 1] == Captured(list)[..n - 1] && kinds[..n - 1] == Kinds(list)[..n - 1];
    }
  }

  /** On a bus with the same kinds in the same order, each device is given the
      blob captured from the device in its place, and nothing is left over. */
  lemma CaptureMatches(was: seq<Placed>, list: seq<Placed>, i: nat)
    requires Kinds(list) == Kinds(was) && i < |list|
    ensures BlobFor(Kinds(list), Captured(was), i) == BlobOf(was[i].device)
    ensures !Surplus(Kinds(list), Captured(was))
  {
    var blobs := Captured(was);
    forall kind
      ensures |OfKind(blobs, kind)| == Count(Kinds(list), kind)
    {
      CapturedCount(was, kind, |was|);
      assert blobs[..|was|] == blobs && Kinds(was)[..|was|] == Kinds(was);
    }
    assert Kinds(list)[i] == Kinds(was)[i];
    if was[i].device.kind.Some? {
      var kind := was[i].device.kind.value;
      CapturedCount(was, kind, i);
      OfKindPrefix(blobs, kind, i + 1);
      assert blobs[..i + 1][..i] == blobs[..i] && blobs[..i + 1][i] == blobs[i];
    }
  }

  /** A bus restored from what was captured on one with the same kinds holds
      the captured state. */
  lemma RestoreUndoesCapture(was: seq<Placed>, list: seq<Placed>, i: nat)
    requires Kinds(list) == Kinds(was) && i < |list| && was[i].device.kind.Some?
    ensures Applied(list[i], BlobFor(Kinds(list), Captured(was), i)).device.data == was[i].device.data
  {
    CaptureMatches(was, list, i);
  }

  // ---- The bus ----

  function Queue(saved: map<string, seq<Blob>>, kind: string): seq<Blob> {
    if kind in saved then saved[kind] else []
  }

  function Counted(counts: map<string, nat>, kind: string): nat {
    if kind in counts then counts[kind] else 0
  }

  /** `s` without its first `n`, as many as there are. */
  function Rest(s: seq<Blob>, n: nat): seq<Blob> {
    if n <= |s| then s[n..] else []
  }

  /** Blobs of each kind, in saved order. */
  method Sort(blobs: seq<Option<Blob>>) returns (saved: map<string, seq<Blob>>)
    ensures forall kind :: Queue(saved, kind) == OfKind(blobs, kind)
  {
    saved := map[];
    for i := 0 to |blobs|
      invariant forall kind :: Queue(saved, kind) == OfKind(blobs[..i], kind)
    {
      assert blobs[..i + 1][..i] == blobs[..i];
      if blobs[i].Some? {
        var kind := blobs[i].value.kind;
        saved := saved[kind := Queue(saved, kind) + [blobs[i].value]];
      }
    }
    assert blobs[..|blobs|] == blobs;
  }

  method CountKinds(kinds: seq<Option<string>>) returns (counts: map<string, nat>)
    ensures forall kind :: Counted(counts, kind) == Count(kinds, kind)
  {
    counts := map[];
    for i := 0 to |kinds|
      invariant forall kind :: Counted(counts, kind) == Count(kinds[..i], kind)
    {
      assert kinds[..i + 1][..i] == kinds[..i];
      if kinds[i].Some? {
        counts := counts[kinds[i].value := Counted(counts, kinds[i].value) + 1];
      }
    }
    assert kinds[..|kinds|] == kinds;
  }

  /** The queues have lost the blobs of the first `n` devices. */
  ghost predicate Taken(saved: map<string, seq<Blob>>, kinds: seq<Option<string>>, blobs: seq<Option<Blob>>, n: nat)
    requires n <= |kinds|
  {
    forall kind :: Queue(saved, kind) == Rest(OfKind(blobs, kind), Count(kinds[..n], kind))
  }

  /** Take the next blob for device `n`. */
  method Take(saved: map<string, seq<Blob>>, ghost kinds: seq<Option<string>>, kind: Option<string>,
              ghost blobs: seq<Option<Blob>>, ghost n: nat)
    returns (left: map<string, seq<Blob>>, blob: Option<Blob>)
    requires n < |kinds| && kinds[n] == kind && Taken(saved, kinds, blobs, n)
    ensures blob == BlobFor(kinds, blobs, n) && Taken(left, kinds, blobs, n + 1)
  {
    left, blob := saved, None;
    assert kinds[..n + 1][..n] == kinds[..n];
    if kind.None? {
      return;
    }
    ghost var mine := Queue(saved, kind.value);
    if kind.value in saved && saved[kind.value] != [] {
      blob := Some(saved[kind.value][0]);
      left := saved[kind.value := saved[kind.value][1..]];
    }
  }

  function RefusalAt(list: seq<Placed>, blobs: seq<Option<Blob>>, restorer: Restorer, i: nat): Option<Refusal>
    requires i < |list|
  {
    var blob := BlobFor(Kinds(list), blobs, i);
    if blob.Some? then restorer(list[i].device, blob.value) else None
  }

  /** None of the first `n` devices refuses its blob. */
  ghost predicate NoneRefused(list: seq<Placed>, blobs: seq<Option<Blob>>, restorer: Restorer, n: nat) {
    forall i :: 0 <= i < n && i < |list| ==> RefusalAt(list, blobs, restorer, i).None?
  }

  /** Device `n` is the first to refuse its blob. */
  ghost predicate FirstRefused(list: seq<Placed>, blobs: seq<Option<Blob>>, restorer: Restorer, n: nat) {
    n < |list| && NoneRefused(list, blobs, restorer, n) && RefusalAt(list, blobs, restorer, n).Some?
  }

  /** The first `n` devices have taken their blobs, the others are as before. */
  ghost predicate AppliedTo(was: seq<Placed>, list: seq<Placed>, blobs: seq<Option<Blob>>, n: nat) {
    && |list| == |was|
    && forall i :: 0 <= i < |was| ==>
                     list[i] == if i < n then Applied(was[i], BlobFor(Kinds(was), blobs, i)) else was[i]
  }

  function Left(p: Placed, data: seq<Byte>): Placed {
    p.(device := p.device.(data := data))
  }

  /** Device `n` has refused its blob and left itself with `data`, the others
      are as `AppliedTo` has them. */
  ghost predicate StoppedAt(was: seq<Placed>, list: seq<Placed>, blobs: seq<Option<Blob>>, n: nat, data: seq<Byte>) {
    && n < |list| == |was| && list[n] == Left(was[n], data)
    && AppliedTo(was, list[n := was[n]], blobs, n)
  }

  /** The blobs before device `n` hold what their devices hold already, and the
      refusal there changes nothing. */
  ghost predicate NothingNew(list: seq<Placed>, blobs: seq<Option<Blob>>, restorer: Restorer, n: nat)
    requires n < |list|
  {
    && (forall i :: 0 <= i < n ==> Applied(list[i], BlobFor(Kinds(list), blobs, i)) == list[i])
    && (RefusalAt(list, blobs, restorer, n).Some? ==>
          RefusalAt(list, blobs, restorer, n).value.left == list[n].device.data)
  }

  /** A restore which ends at a refusal leaves the bus as it was exactly if
      nothing it applied was new. */
  lemma UnchangedExactly(was: seq<Placed>, list: seq<Placed>, blobs: seq<Option<Blob>>, restorer: Restorer, n: nat)
    requires n < |was| && RefusalAt(was, blobs, restorer, n).Some?
    requires StoppedAt(was, list, blobs, n, RefusalAt(was, blobs, restorer, n).value.left)
    ensures list == was <==> NothingNew(was, blobs, restorer, n)
  {
    hide BlobFor, Kinds, RefusalAt;
    var data := RefusalAt(was, blobs, restorer, n).value.left;
    var changed := list[n := was[n]];
    if NothingNew(was, blobs, restorer, n) {
      forall i | 0 <= i < |was|
        ensures list[i] == was[i]
      {
        assert i != n ==> changed[i] == list[i];
      }
    }
    assert list == was ==> forall i :: 0 <= i < n ==> changed[i] == was[i];
  }

  lemma AppliedStep(was: seq<Placed>, list: seq<Placed>, blobs: seq<Option<Blob>>, restorer: Restorer, n: nat)
    requires n < |was| && AppliedTo(was, list, blobs, n) && NoneRefused(was, blobs, restorer, n)
    ensures list[n] == was[n]
    ensures AppliedTo(was, list[n := Applied(was[n], BlobFor(Kinds(was), blobs, n))], blobs, n + 1)
    ensures BlobFor(Kinds(was), blobs, n).None? ==> AppliedTo(was, list, blobs, n + 1)
    ensures RefusalAt(was, blobs, restorer, n).None? ==> NoneRefused(was, blobs, restorer, n + 1)
    ensures forall data :: StoppedAt(was, list[n := Left(was[n], data)], blobs, n, data)
  {
    hide BlobFor, Kinds;
    forall data
      ensures StoppedAt(was, list[n := Left(was[n], data)], blobs, n, data)
    {
      assert list[n := Left(was[n], data)][n := was[n]] == list;
    }
  }

  // ---- A restore which ends halfway ----

  function TwoDevices(first: seq<Byte>, second: seq<Byte>): seq<Placed> {
    [Placed(0x3f8, 8, Device(Some("serial"), 1, first, 0)),
     Placed(0x1000, 512, Device(Some("virtio-mmio"), 1, second, 0))]
  }

  /** A UART which takes its blob before a transport which refuses one. */
  lemma HalfRestored(restorer: Restorer, left: seq<Byte>)
    requires restorer(TwoDevices([0], [0])[0].device, Blob("serial", 1, [1])) == None
    requires restorer(TwoDevices([0], [0])[1].device, Blob("virtio-mmio", 1, [2])) == Some(Refusal(left, State))
    ensures var bus, blobs := TwoDevices([0], [0]), Captured(TwoDevices([1], [2]));
            !Surplus(Kinds(bus), blobs) && FirstRefused(bus, blobs, restorer, 1) && !NothingNew(bus, blobs, restorer, 1)
  {
    var bus, was := TwoDevices([0], [0]), TwoDevices([1], [2]);
    assert Kinds(bus) == Kinds(was);
    CaptureMatches(was, bus, 0);
    CaptureMatches(was, bus, 1);
    hide BlobFor, Surplus;
    assert BlobFor(Kinds(bus), Captured(was), 0) == Some(Blob("serial", 1, [1]));
    assert Applied(bus[0], Some(Blob("serial", 1, [1]))).device.data == [1];
  }

  lemma AppliedAll(was: seq<Placed>, list: seq<Placed>, blobs: seq<Option<Blob>>)
    requires AppliedTo(was, list, blobs, |list|)
    ensures |was| == |list|
    ensures forall i :: 0 <= i < |list| ==> list[i] == Applied(was[i], BlobFor(Kinds(was), blobs, i))
  {
  }

  /** New state in a device moves it nowhere. */
  lemma SamePlaces(list: seq<Placed>, i: nat, device: Device)
    requires i < |list| && Disjoint(list)
    ensures Disjoint(list[i := list[i].(device := device)])
  {
    var changed := list[i := list[i].(device := device)];
    assert forall j, a :: 0 <= j < |list| ==> (changed[j].Covers(a) <==> list[j].Covers(a));
  }

  class Bus {
    var ports: seq<Placed>
    var mmio: seq<Placed>

    /** The placed devices, port space first. */
    function All(): seq<Placed>
      reads this
    {
      ports + mmio
    }

    ghost predicate Valid()
      reads this
    {
      Disjoint(ports) && Disjoint(mmio)
    }

    constructor ()
      ensures Valid() && All() == []
    {
      ports, mmio := [], [];
    }

    method PlacePort(base: nat, size: nat, device: Device) returns (r: Result<(), Error>)
      requires Valid() && base < U16_LIMIT && size < U16_LIMIT
      modifies this`ports
      ensures Valid()
      ensures r.Ok? <==> 0 < size && Unclaimed(old(ports), base, size)
      ensures ports == if r.Ok? then old(ports) + [Placed(base, size, device)] else old(ports)
    {
      var placed := Place(ports, base, size, device);
      if placed.Err? {
        return Err(placed.error);
      }
      ports := placed.value;
      r := Ok(());
    }

    method PlaceMmio(base: nat, size: nat, device: Device) returns (r: Result<(), Error>)
      requires Valid() && base < U64_LIMIT && size < U64_LIMIT
      modifies this`mmio
      ensures Valid()
      ensures r.Ok? <==> 0 < size && base + size < U64_LIMIT && Unclaimed(old(mmio), base, size)
      ensures mmio == if r.Ok? then old(mmio) + [Placed(base, size, device)] else old(mmio)
    {
      var placed := Place(mmio, base, size, device);
      if placed.Err? {
        return Err(placed.error);
      }
      mmio := placed.value;
      r := Ok(());
    }

    /** Give placed device `i` a new state. */
    method Put(i: nat, device: Device)
      requires i < |All()|
      modifies this
      ensures All() == old(All())[i := old(All())[i].(device := device)]
      ensures |ports| == old(|ports|) && |mmio| == old(|mmio|) && (old(Valid()) ==> Valid())
    {
      if Disjoint(ports) && i < |ports| {
        SamePlaces(ports, i, device);
      }
      if Disjoint(mmio) && |ports| <= i {
        SamePlaces(mmio, i - |ports|, device);
      }
      hide Disjoint;
      if i < |ports| {
        ports := ports[i := ports[i].(device := device)];
      } else {
        mmio := mmio[i - |ports| := mmio[i - |ports|].(device := device)];
      }
    }

    /** Restore saved blobs, matched by kind in saved order against placement
        order. `captures` is whether each device could be captured. `done` is
        the number of devices passed by before an end. */
    method Restore(blobs: seq<Option<Blob>>, captures: bool, restorer: Restorer)
      returns (r: Result<(), Error>, ghost done: nat)
      modifies this
      ensures |All()| == |old(All())| && (old(Valid()) ==> Valid())
      ensures !captures || Surplus(Kinds(old(All())), blobs) ==> r == Err(State) && All() == old(All())
      ensures captures && !Surplus(Kinds(old(All())), blobs) ==>
                if r.Ok? then
                  && NoneRefused(old(All()), blobs, restorer, |All()|)
                  && forall i :: 0 <= i < |All()| ==>
                                   All()[i] == Settled(Applied(old(All())[i], BlobFor(Kinds(old(All())), blobs, i)))
                else
                  && FirstRefused(old(All()), blobs, restorer, done)
                  && var refusal := RefusalAt(old(All()), blobs, restorer, done).value;
                  r.error == refusal.error && StoppedAt(old(All()), All(), blobs, done, refusal.left)
      // A failure which is not a surplus has changed nothing only by accident.
      ensures r.Err? ==>
                (All() == old(All()) <==> || !captures || Surplus(Kinds(old(All())), blobs)
                                          || (done < |All()| && NothingNew(old(All()), blobs, restorer, done)))
    {
      done := 0;
      var saved := Sort(blobs);
      if !captures {
        return Err(State), done;
      }
      var kinds := Kinds(All());
      var counts := CountKinds(kinds);
      if exists kind :: kind in saved && |saved[kind]| > Counted(counts, kind) {
        var kind :| kind in saved && |saved[kind]| > Counted(counts, kind);
        assert |OfKind(blobs, kind)| > Count(kinds, kind);
        return Err(State), done;
      }
      forall kind
        ensures |OfKind(blobs, kind)| <= Count(kinds, kind)
      {
        assert |Queue(saved, kind)| <= Counted(counts, kind);
      }
      hide BlobFor, Kinds, AppliedTo, NoneRefused, RefusalAt, NothingNew;
      ghost var was := All();
      r, done := Apply(blobs, saved, kinds, restorer);
      if r.Ok? {
        AppliedAll(was, All(), blobs);
        Settle();
      } else {
        UnchangedExactly(was, All(), blobs, restorer, done);
      }
    }

    /** Each device takes the next blob of its kind, up to one which refuses. */
    method Apply(ghost blobs: seq<Option<Blob>>, saved: map<string, seq<Blob>>, kinds: seq<Option<string>>,
                 restorer: Restorer)
      returns (r: Result<(), Error>, ghost done: nat)
      requires kinds == Kinds(All()) && forall kind :: Queue(saved, kind) == OfKind(blobs, kind)
      modifies this
      ensures |All()| == |old(All())| && (old(Valid()) ==> Valid())
      ensures r.Ok? ==> AppliedTo(old(All()), All(), blobs, |All()|) &&
                        NoneRefused(old(All()), blobs, restorer, |All()|)
      ensures r.Err? ==> && FirstRefused(old(All()), blobs, restorer, done)
                         && var refusal := RefusalAt(old(All()), blobs, restorer, done).value;
                         r.error == refusal.error && StoppedAt(old(All()), All(), blobs, done, refusal.left)
    {
      var left := saved;
      var i := 0;
      done := 0;
      ghost var was := All();
      while i < |kinds|
        invariant i <= |kinds| == |was| == |All()| && kinds == Kinds(was)
        invariant Taken(left, kinds, blobs, i) && (old(Valid()) ==> Valid())
        invariant AppliedTo(was, All(), blobs, i) && NoneRefused(was, blobs, restorer, i)
      {
        hide Taken, BlobFor, AppliedTo, NoneRefused, Kinds, StoppedAt;
        var blob: Option<Blob>;
        left, blob := Take(left, kinds, kinds[i], blobs, i);
        AppliedStep(was, All(), blobs, restorer, i);
        if blob.Some? {
          var device := All()[i].device;
          var refusal := restorer(device, blob.value);
          if refusal.Some? {
            Put(i, device.(data := refusal.value.left));
            return Err(refusal.value.error), i;
          }
          Put(i, device.(data := blob.value.data));
        }
        i := i + 1;
      }
      r := Ok(());
    }

    /** Tell each device that the restore is complete. */
    method Settle()
      modifies this
      ensures |All()| == |old(All())| && forall i :: 0 <= i < |All()| ==> All()[i] == Settled(old(All())[i])
      ensures old(Valid()) ==> Valid()
    {
      ghost var was := All();
      var i := 0;
      while i < |ports| + |mmio|
        invariant i <= |All()| == |was| == |ports| + |mmio| && (old(Valid()) ==> Valid())
        invariant forall j :: 0 <= j < |was| ==> All()[j] == if j < i then Settled(was[j]) else was[j]
      {
        var device := All()[i].device;
        Put(i, device.(settled := device.settled + 1));
        i := i + 1;
      }
    }
  }
}
