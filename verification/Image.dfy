/** RAM images: the dense and the dirty one written from a paused guest, and
    the invariant which makes a dirty one enough. Models `write_memory`,
    `write_dirty` and `read_memory` of src/lingcore/src/machine/mod.rs. */
module Image {
  import opened Wrappers
  import opened Bytes
  import opened GuestMemory
  import opened HostFile
  import opened Dirty

  /** Bytes read and written at once. */
  const CHUNK := 0x1_0000

  // ---- Sparse files ----

  /** A byte of a sparse file, `None` where there is a hole. */
  type Cell = Option<Byte>

  function CellAt(cells: seq<Cell>, i: nat): Cell {
    if i < |cells| then cells[i] else None
  }

  /** What a read returns, a hole reads as zero. */
  function ReadCell(c: Cell): Byte {
    if c.Some? then c.value else 0
  }

  class SparseFile {
    var cells: seq<Cell>
    var at: nat

    /** Write all of `data` at the position, past the end after a hole. */
    method WriteAll(data: seq<Byte>) returns (ok: bool)
      modifies this
      ensures ok ==> at == old(at) + |data|
      ensures ok ==> forall i: nat :: CellAt(cells, i) ==
                                      if old(at) <= i < at then Some(data[i - old(at)]) else CellAt(old(cells), i)
    {
      ok := *;
      if ok {
        var start, was := at, cells;
        var end := at + |data|;
        var length := if end > |cells| then end else |cells|;
        cells := seq(length, i requires 0 <= i < length =>
          if start <= i < end then Some(data[i - start]) else CellAt(was, i));
        at := end;
      }
    }

    method SeekForward(count: nat) returns (ok: bool)
      modifies this`at
      ensures ok ==> at == old(at) + count
    {
      ok := *;
      if ok {
        at := at + count;
      }
    }

    /** Lay down the next cells of `image`: all of `data`, or a hole. */
    method Lay(data: seq<Byte>, some: bool, ghost was: seq<Cell>, ghost start: nat, ghost image: seq<Cell>)
      returns (ok: bool)
      requires start <= at && IsPiece(image, at - start, data, some) && LaidOver(was, cells, start, at, image)
      modifies this
      ensures ok ==> at == old(at) + |data| && LaidOver(was, cells, start, at, image)
    {
      hide LaidOver;
      if some {
        ghost var cells0 := cells;
        ok := WriteAll(data);
        if ok {
          LaidWrite(was, cells0, cells, start, old(at), data, image);
        }
      } else {
        LaidSkip(was, cells, start, at, |data|, image);
        ok := SeekForward(|data|);
      }
    }

    /** Cut the file or extend it by a hole. */
    method SetLen(length: nat) returns (ok: bool)
      modifies this`cells
      ensures ok ==> |cells| == length && forall i: nat :: i < length ==> CellAt(cells, i) == CellAt(old(cells), i)
    {
      ok := *;
      if ok {
        var was := cells;
        cells := seq(length, i requires 0 <= i < length => CellAt(was, i));
      }
    }
  }

  /** From `first`, `image` holds all of `data`, or holes for it. */
  ghost predicate IsPiece(image: seq<Cell>, first: nat, data: seq<Byte>, some: bool) {
    && first + |data| <= |image|
    && forall k :: first <= k < first + |data| ==> image[k] == if some then Some(data[k - first]) else None
  }

  // ---- Layout ----

  /** Guest address of each byte of an image, region after region. */
  function Addresses(regions: seq<Region>): seq<int> {
    if regions == [] then []
    else
      var r := regions[|regions| - 1];
      Addresses(regions[..|regions| - 1]) + seq(r.size, k requires 0 <= k < r.size => r.gpa + k)
  }

  /** Where region `n` starts in an image. */
  function Before(regions: seq<Region>, n: nat): nat
    requires n <= |regions|
  {
    |Addresses(regions[..n])|
  }

  /** The image holds region `n` at `Before`, byte after byte. */
  lemma {:induction false} AddressesAt(regions: seq<Region>, n: nat)
    requires n < |regions|
    ensures Before(regions, n) + regions[n].size == Before(regions, n + 1) <= |Addresses(regions)|
    ensures forall i :: Before(regions, n) <= i < Before(regions, n) + regions[n].size ==>
                          Addresses(regions)[i] == regions[n].gpa + (i - Before(regions, n))
    decreases |regions|
  {
    var m := |regions| - 1;
    var front := regions[..m];
    if n < m {
      AddressesAt(front, n);
      assert front[..n] == regions[..n] && front[..n + 1] == regions[..n + 1];
    } else {
      assert regions[..n + 1] == regions;
    }
  }

  lemma {:induction false} AddressesCover(regions: seq<Region>, i: nat)
    requires i < |Addresses(regions)|
    ensures Covered(regions, Addresses(regions)[i])
    decreases |regions|
  {
    var m := |regions| - 1;
    var front := regions[..m];
    if i < |Addresses(front)| {
      AddressesCover(front, i);
      var k :| 0 <= k < |front| && front[k].Covers(Addresses(front)[i]);
      assert regions[k].Covers(Addresses(regions)[i]);
    } else {
      assert regions[m].Covers(Addresses(regions)[i]);
    }
  }

  // ---- What the writers lay down ----

  /** `cells` is `old` from before `start`, and from there on, as far as
      `end`, holds what `image` lays over it. */
  ghost predicate LaidOver(was: seq<Cell>, cells: seq<Cell>, start: nat, end: nat, image: seq<Cell>) {
    forall i: nat :: CellAt(cells, i) == if start <= i < end && i - start < |image| && image[i - start].Some?
                                         then image[i - start] else CellAt(was, i)
  }

  /** Cell a page writes when it is marked, a hole when not. */
  function DirtyCells(bytes: Ram, marks: set<int>, addresses: seq<int>): (cells: seq<Cell>)
    ensures |cells| == |addresses|
  {
    seq(|addresses|, i requires 0 <= i < |addresses| =>
      var a := addresses[i];
      if PageOf(a) in marks && a in bytes then Some(bytes[a]) else None)
  }

  /** The chunk of its region holding byte `k` is all zero. */
  ghost predicate ZeroChunk(bytes: Ram, r: Region, k: int) {
    var chunk := r.gpa + k / CHUNK * CHUNK;
    forall a :: chunk <= a < chunk + CHUNK && r.Covers(a) ==> a in bytes && bytes[a] == 0
  }

  ghost function RegionCells(bytes: Ram, r: Region): (cells: seq<Cell>)
    ensures |cells| == r.size
  {
    seq(r.size, k requires 0 <= k < r.size =>
      if ZeroChunk(bytes, r, k) || r.gpa + k !in bytes then None else Some(bytes[r.gpa + k]))
  }

  /** A hole for each chunk which is all zero, every byte of the others. */
  ghost function DenseCells(bytes: Ram, regions: seq<Region>): (cells: seq<Cell>)
    ensures |cells| == |Addresses(regions)|
  {
    if regions == [] then []
    else DenseCells(bytes, regions[..|regions| - 1]) + RegionCells(bytes, regions[|regions| - 1])
  }

  lemma LaidNothing(was: seq<Cell>, start: nat, image: seq<Cell>)
    ensures LaidOver(was, was, start, start, image)
  {
  }

  lemma LaidSkip(was: seq<Cell>, cells: seq<Cell>, start: nat, end: nat, count: nat, image: seq<Cell>)
    requires LaidOver(was, cells, start, end, image) && start <= end && end - start + count <= |image|
    requires forall k :: end - start <= k < end - start + count ==> image[k].None?
    ensures LaidOver(was, cells, start, end + count, image)
  {
  }

  lemma LaidWrite(was: seq<Cell>, cells: seq<Cell>, cells': seq<Cell>, start: nat, end: nat, data: seq<Byte>,
                  image: seq<Cell>)
    requires LaidOver(was, cells, start, end, image) && start <= end && end - start + |data| <= |image|
    requires forall k :: end - start <= k < end - start + |data| ==> image[k] == Some(data[k - (end - start)])
    requires forall i: nat :: CellAt(cells', i) == if end <= i < end + |data| then Some(data[i - end])
                                                   else CellAt(cells, i)
    ensures LaidOver(was, cells', start, end + |data|, image)
  {
  }

  /** The length is set last, to the start plus the size of RAM. */
  lemma LaidCut(was: seq<Cell>, cells: seq<Cell>, cells': seq<Cell>, start: nat, image: seq<Cell>)
    requires LaidOver(was, cells, start, start + |image|, image)
    requires |cells'| == start + |image| && forall i: nat :: i < |cells'| ==> CellAt(cells', i) == CellAt(cells, i)
    ensures Overlaid(was, cells', start, image)
  {
  }

  /** The file holds exactly `image` from `start`, over what it held before. */
  ghost predicate Overlaid(was: seq<Cell>, cells: seq<Cell>, start: nat, image: seq<Cell>) {
    && |cells| == start + |image|
    && forall i: nat :: i < |cells| ==>
                          CellAt(cells, i) ==
                          if start <= i && image[i - start].Some? then image[i - start] else CellAt(was, i)
  }

  lemma {:induction false} DenseCellsAt(bytes: Ram, regions: seq<Region>, n: nat)
    requires n < |regions|
    ensures Before(regions, n) + regions[n].size <= |Addresses(regions)|
    ensures forall i :: Before(regions, n) <= i < Before(regions, n) + regions[n].size ==>
                          DenseCells(bytes, regions)[i] == RegionCells(bytes, regions[n])[i - Before(regions, n)]
    decreases |regions|
  {
    hide RegionCells;
    var m := |regions| - 1;
    var front := regions[..m];
    AddressesAt(regions, n);
    var image, start := DenseCells(bytes, regions), DenseCells(bytes, front);
    assert image == start + RegionCells(bytes, regions[m]) && |start| == Before(regions, m);
    hide DenseCells, Addresses;
    if n < m {
      DenseCellsAt(bytes, front, n);
      assert front[..n] == regions[..n] && front[n] == regions[n];
      var first := Before(regions, n);
      forall i | first <= i < first + regions[n].size
        ensures image[i] == RegionCells(bytes, regions[n])[i - first]
      {
        assert image[i] == start[i];
      }
    }
  }

  lemma RegionBacked(regions: seq<Region>, bytes: Ram, n: nat, at: nat, count: nat)
    requires n < |regions| && at + count <= regions[n].size && forall a :: a in bytes <==> Covered(regions, a)
    ensures Holds(bytes, regions[n].gpa + at, count)
  {
    forall a | regions[n].gpa + at <= a < regions[n].gpa + at + count
      ensures a in bytes
    {
      assert regions[n].Covers(a);
    }
  }

  ghost predicate AllZero(s: seq<Byte>) {
    forall j :: 0 <= j < |s| ==> s[j] == 0
  }

  /** Whether any byte is not zero. */
  method AnyByte(s: seq<Byte>) returns (some: bool)
    ensures some <==> !AllZero(s)
  {
    for k := 0 to |s|
      invariant AllZero(s[..k])
    {
      if s[k] != 0 {
        return true;
      }
    }
    assert s[..|s|] == s;
    some := false;
  }

  /** `piece` is what the chunk of `r` at `at` reads as. */
  ghost predicate IsChunk(bytes: Ram, r: Region, at: nat, piece: seq<Byte>) {
    && at % CHUNK == 0 && 0 < |piece| <= CHUNK && at + |piece| <= r.size
    && (|piece| == CHUNK || at + |piece| == r.size)
    && forall a :: r.gpa + at <= a < r.gpa + at + |piece| ==> a in bytes && bytes[a] == piece[a - (r.gpa + at)]
  }

  lemma LoadIsChunk(bytes: Ram, r: Region, at: nat, count: nat)
    requires Holds(bytes, r.gpa + at, count) && at % CHUNK == 0 && 0 < count && at + count <= r.size
    requires count == CHUNK || (count < CHUNK && at + count == r.size)
    ensures IsChunk(bytes, r, at, Load(bytes, r.gpa + at, count))
  {
  }

  lemma ZeroChunkIs(bytes: Ram, r: Region, at: nat, piece: seq<Byte>, k: nat)
    requires IsChunk(bytes, r, at, piece) && at <= k < at + |piece|
    ensures ZeroChunk(bytes, r, k) <==> AllZero(piece)
  {
    var chunk := r.gpa + at;
    assert k / CHUNK * CHUNK == at;
    assert forall a :: chunk <= a < chunk + CHUNK && r.Covers(a) <==> chunk <= a < chunk + |piece|;
    if ZeroChunk(bytes, r, k) {
      forall j | 0 <= j < |piece|
        ensures piece[j] == 0
      {
        assert r.Covers(chunk + j) && bytes[chunk + j] == piece[j];
      }
    }
  }

  /** A chunk which reads as zero is a hole, any other is written whole. */
  lemma ChunkCells(bytes: Ram, r: Region, at: nat, piece: seq<Byte>)
    requires IsChunk(bytes, r, at, piece)
    ensures forall k :: at <= k < at + |piece| ==>
                          RegionCells(bytes, r)[k] == if AllZero(piece) then None else Some(piece[k - at])
  {
    forall k | at <= k < at + |piece|
      ensures RegionCells(bytes, r)[k] == if AllZero(piece) then None else Some(piece[k - at])
    {
      ZeroChunkIs(bytes, r, at, piece, k);
      assert bytes[r.gpa + k] == piece[k - at];
      hide ZeroChunk, AllZero;
    }
  }

  lemma ChunkIsPiece(bytes: Ram, regions: seq<Region>, n: nat, at: nat, piece: seq<Byte>)
    requires n < |regions| && IsChunk(bytes, regions[n], at, piece)
    ensures IsPiece(DenseCells(bytes, regions), Before(regions, n) + at, piece, !AllZero(piece))
  {
    DenseCellsAt(bytes, regions, n);
    ChunkCells(bytes, regions[n], at, piece);
    hide DenseCells, RegionCells, AllZero;
    var first, image := Before(regions, n), DenseCells(bytes, regions);
    forall k | first + at <= k < first + at + |piece|
      ensures image[k] == if AllZero(piece) then None else Some(piece[k - (first + at)])
    {
      assert image[k] == RegionCells(bytes, regions[n])[k - first];
    }
  }

  /** What is read of a chunk is what the image holds for it. */
  lemma ChunkOfRegion(bytes: Ram, regions: seq<Region>, n: nat, at: nat, count: nat)
    requires n < |regions| && forall a :: a in bytes <==> Covered(regions, a)
    requires at % CHUNK == 0 && 0 < count && at + count <= regions[n].size
    requires count == CHUNK || (count < CHUNK && at + count == regions[n].size)
    ensures var piece := Load(bytes, regions[n].gpa + at, count);
            IsPiece(DenseCells(bytes, regions), Before(regions, n) + at, piece, !AllZero(piece))
  {
    hide DenseCells, Load, IsPiece, IsChunk, AllZero, Holds;
    RegionBacked(regions, bytes, n, at, count);
    LoadIsChunk(bytes, regions[n], at, count);
    ChunkIsPiece(bytes, regions, n, at, Load(bytes, regions[n].gpa + at, count));
  }

  // ---- What an image reads as ----

  /** What a read of the whole file returns. */
  function Content(cells: seq<Cell>): (s: seq<Byte>)
    ensures |s| == |cells|
  {
    seq(|cells|, i requires 0 <= i < |cells| => ReadCell(cells[i]))
  }

  /** RAM byte after byte, region after region. */
  function Dense(bytes: Ram, addresses: seq<int>): (s: seq<Byte>)
    ensures |s| == |addresses|
  {
    seq(|addresses|, i requires 0 <= i < |addresses| => if addresses[i] in bytes then bytes[addresses[i]] else 0)
  }

  lemma {:induction false} DenseCellsRead(bytes: Ram, regions: seq<Region>)
    ensures Content(DenseCells(bytes, regions)) == Dense(bytes, Addresses(regions))
    decreases |regions|
  {
    if regions != [] {
      var m := |regions| - 1;
      var front, r := regions[..m], regions[m];
      DenseCellsRead(bytes, front);
      forall k | 0 <= k < r.size
        ensures ReadCell(RegionCells(bytes, r)[k]) == if r.gpa + k in bytes then bytes[r.gpa + k] else 0
      {
        assert r.Covers(r.gpa + k);
      }
      var image, dense := DenseCells(bytes, regions), Dense(bytes, Addresses(regions));
      var n := |Addresses(front)|;
      forall i | 0 <= i < |image|
        ensures Content(image)[i] == dense[i]
      {
        if i < n {
          assert Content(DenseCells(bytes, front))[i] == Dense(bytes, Addresses(front))[i];
        } else {
          assert image[i] == RegionCells(bytes, r)[i - n];
        }
      }
    }
  }

  /** Written to a file with nothing past its position, a sparse image reads
      as the dense one and ends where it does. */
  lemma SparseReadsDense(was: seq<Cell>, cells: seq<Cell>, start: nat, bytes: Ram, regions: seq<Region>)
    requires Overlaid(was, cells, start, DenseCells(bytes, regions)) && |was| <= start
    ensures |cells| == start + |Addresses(regions)| && Content(cells)[start..] == Dense(bytes, Addresses(regions))
  {
    var image := DenseCells(bytes, regions);
    DenseCellsRead(bytes, regions);
    forall i | 0 <= i < |image|
      ensures Content(cells)[start..][i] == Content(image)[i]
    {
      assert CellAt(cells, start + i) == cells[start + i];
      assert CellAt(was, start + i).None?;
    }
    assert Content(cells)[start..] == Content(image);
  }

  /** The first `n` bytes of an image are in RAM. */
  ghost predicate Filled(bytes: Ram, addresses: seq<int>, n: nat, data: seq<Byte>) {
    forall i :: 0 <= i < n && i < |addresses| && i < |data| ==> addresses[i] in bytes && bytes[addresses[i]] == data[i]
  }

  /** Bytes before region `n` in an image lie below it in RAM. */
  lemma {:induction false} AddressesBelow(regions: seq<Region>, n: nat, i: nat)
    requires WellLaid(regions) && n < |regions| && i < Before(regions, n)
    ensures Before(regions, n) <= |Addresses(regions)| && Addresses(regions)[i] < regions[n].gpa
    decreases |regions|
  {
    var front := regions[..n];
    AddressesCover(front, i);
    var k :| 0 <= k < |front| && front[k].Covers(Addresses(front)[i]);
    assert regions[k] == front[k];
    AddressesPrefix(regions, n);
  }

  lemma {:induction false} AddressesPrefix(regions: seq<Region>, n: nat)
    requires n <= |regions|
    ensures Before(regions, n) <= |Addresses(regions)| &&
            Addresses(regions[..n]) == Addresses(regions)[..Before(regions, n)]
    decreases |regions|
  {
    if n < |regions| {
      var front := regions[..|regions| - 1];
      AddressesPrefix(front, n);
      assert front[..n] == regions[..n];
    } else {
      assert regions[..n] == regions;
    }
  }

  lemma FilledStore(bytes: Ram, addresses: seq<int>, first: nat, gpa: int, data: seq<Byte>, piece: seq<Byte>)
    requires Filled(bytes, addresses, first, data) && Holds(bytes, gpa, |piece|)
    requires first + |piece| <= |addresses| && first + |piece| <= |data| && piece == data[first..first + |piece|]
    requires forall i :: 0 <= i < first ==> addresses[i] < gpa
    requires forall i :: first <= i < first + |piece| ==> addresses[i] == gpa + (i - first)
    ensures Filled(Store(bytes, gpa, piece), addresses, first + |piece|, data)
  {
    forall i | 0 <= i < first + |piece|
      ensures addresses[i] in bytes && Store(bytes, gpa, piece)[addresses[i]] == data[i]
    {
      if first <= i {
        assert piece[i - first] == data[i];
      }
    }
  }

  /** Filling region `n` from where the image holds it fills one region more. */
  lemma FilledOn(regions: seq<Region>, n: nat, bytes: Ram, data: seq<Byte>)
    requires WellLaid(regions) && n < |regions| && Filled(bytes, Addresses(regions), Before(regions, n), data)
    requires Before(regions, n + 1) <= |data| && Holds(bytes, regions[n].gpa, regions[n].size)
    ensures Before(regions, n) <= Before(regions, n + 1)
    ensures Filled(Store(bytes, regions[n].gpa, data[Before(regions, n)..Before(regions, n + 1)]),
                   Addresses(regions), Before(regions, n + 1), data)
  {
    AddressesAt(regions, n);
    forall i: nat | i < Before(regions, n)
      ensures Addresses(regions)[i] < regions[n].gpa
    {
      AddressesBelow(regions, n, i);
    }
    hide Filled, WellLaid, Addresses, Store, Holds;
    FilledStore(bytes, Addresses(regions), Before(regions, n), regions[n].gpa, data,
                data[Before(regions, n)..Before(regions, n + 1)]);
  }

  /** Each backed address has its byte in the image. */
  lemma AddressesReach(regions: seq<Region>, a: int) returns (i: nat)
    requires Covered(regions, a)
    ensures i < |Addresses(regions)| && Addresses(regions)[i] == a
  {
    var n :| 0 <= n < |regions| && regions[n].Covers(a);
    AddressesAt(regions, n);
    i := Before(regions, n) + (a - regions[n].gpa);
  }

  /** An image determines RAM. */
  lemma DenseDetermines(regions: seq<Region>, a: Ram, b: Ram)
    requires a.Keys == b.Keys && forall x :: x in a <==> Covered(regions, x)
    requires Dense(a, Addresses(regions)) == Dense(b, Addresses(regions))
    ensures a == b
  {
    forall x | x in a
      ensures a[x] == b[x]
    {
      var i := AddressesReach(regions, x);
      assert Dense(a, Addresses(regions))[i] == Dense(b, Addresses(regions))[i];
    }
  }

  lemma FilledAll(regions: seq<Region>, bytes: Ram, data: seq<Byte>)
    requires Filled(bytes, Addresses(regions), |Addresses(regions)|, data) && |Addresses(regions)| <= |data|
    ensures Dense(bytes, Addresses(regions)) == data[..|Addresses(regions)|]
  {
  }

  /** RAM written by `write_memory` to a fresh file and read back by
      `read_memory` is the RAM that was written. */
  lemma ImageRoundTrip(was: seq<Cell>, cells: seq<Cell>, start: nat, saved: Ram, loaded: Ram, regions: seq<Region>)
    requires |was| <= start && Overlaid(was, cells, start, DenseCells(saved, regions))
    requires saved.Keys == loaded.Keys && forall x :: x in saved <==> Covered(regions, x)
    ensures |cells| == start + |Addresses(regions)|
    ensures Dense(loaded, Addresses(regions)) == Content(cells)[start..start + |Addresses(regions)|] <==>
            loaded == saved
  {
    SparseReadsDense(was, cells, start, saved, regions);
    assert Content(cells)[start..start + |Addresses(regions)|] == Content(cells)[start..];
    if Dense(loaded, Addresses(regions)) == Content(cells)[start..] {
      DenseDetermines(regions, loaded, saved);
    }
  }

  /** Pages of `bytes` off the marked ones read as the base. */
  ghost predicate CleanIsBase(base: Ram, bytes: Ram, marks: set<int>) {
    forall a :: a in bytes && a in base && PageOf(a) !in marks ==> bytes[a] == base[a]
  }

  /** Laid over the base, the image of the marked pages reads as RAM, if and
      only if no other page differs from the base. The file held the base
      before, or nothing past its position where the base is all zero. */
  lemma DirtyOverBase(was: seq<Cell>, cells: seq<Cell>, start: nat, base: Ram, bytes: Ram, marks: set<int>,
                      regions: seq<Region>)
    requires base.Keys == bytes.Keys && forall a :: a in bytes <==> Covered(regions, a)
    requires Overlaid(was, cells, start, DirtyCells(bytes, marks, Addresses(regions)))
    requires forall i :: 0 <= i < |Addresses(regions)| ==>
                           ReadCell(CellAt(was, start + i)) == Dense(base, Addresses(regions))[i]
    ensures Content(cells)[start..] == Dense(bytes, Addresses(regions)) <==> CleanIsBase(base, bytes, marks)
  {
    var addresses := Addresses(regions);
    var image := DirtyCells(bytes, marks, addresses);
    forall i | 0 <= i < |addresses|
      ensures addresses[i] in bytes
      ensures Content(cells)[start..][i] == if PageOf(addresses[i]) in marks then bytes[addresses[i]]
                                            else base[addresses[i]]
    {
      AddressesCover(regions, i);
      assert CellAt(cells, start + i) == cells[start + i];
      assert ReadCell(CellAt(was, start + i)) == Dense(base, addresses)[i];
    }
    if Content(cells)[start..] == Dense(bytes, addresses) {
      forall a | a in bytes && PageOf(a) !in marks
        ensures bytes[a] == base[a]
      {
        var i := AddressesReach(regions, a);
        assert Content(cells)[start..][i] == Dense(bytes, addresses)[i];
      }
    }
    if CleanIsBase(base, bytes, marks) {
      forall i | 0 <= i < |addresses|
        ensures Content(cells)[start..][i] == Dense(bytes, addresses)[i]
      {
        AddressesCover(regions, i);
      }
      assert Content(cells)[start..] == Dense(bytes, addresses);
    }
  }

  /** Once the log holds none of its pages, the marks alone tell RAM from its
      base. */
  lemma CollectedIsClean(base: Ram, m: Memory)
    requires Faithful(base, m) && forall a :: a in m.bytes ==> PageOf(a) !in m.log
    ensures CleanIsBase(base, m.bytes, m.marks)
  {
  }

  /** The capture of any run is exact: whatever host writes, guest stores and
      discards came before, taking the logs and laying the marked pages over
      the base gives the RAM of that moment. */
  lemma CaptureIsExact(base: Ram, events: seq<Dirty.Event>, regions: seq<Region>,
                       was: seq<Cell>, cells: seq<Cell>, start: nat)
    requires WellLaid(regions) && forall a :: a in base <==> Covered(regions, a)
    requires var taken := Run(base, Run(base, Memory(base, {}, {}), events), CollectAll(regions));
             Overlaid(was, cells, start, DirtyCells(taken.bytes, taken.marks, Addresses(regions)))
    requires forall i :: 0 <= i < |Addresses(regions)| ==>
                           ReadCell(CellAt(was, start + i)) == Dense(base, Addresses(regions))[i]
    ensures Content(cells)[start..] == Dense(Run(base, Memory(base, {}, {}), events).bytes, Addresses(regions))
  {
    var m := Run(base, Memory(base, {}, {}), events);
    var taken := Run(base, m, CollectAll(regions));
    CollectRun(base, m, regions);
    forall a | a in taken.bytes && PageOf(a) !in taken.marks
      ensures taken.bytes[a] == base[a]
    {
      CaptureIsClean(base, events, regions, a);
    }
    assert CleanIsBase(base, taken.bytes, taken.marks);
    DirtyOverBase(was, cells, start, base, taken.bytes, taken.marks, regions);
  }

  /** Cells of one stretch of a region. */
  lemma DirtyCellsAt(bytes: Ram, marks: set<int>, regions: seq<Region>, n: nat, at: nat, piece: seq<Byte>)
    requires n < |regions| && at + |piece| <= regions[n].size
    requires Holds(bytes, regions[n].gpa + at, |piece|) && piece == Load(bytes, regions[n].gpa + at, |piece|)
    ensures Before(regions, n) + at + |piece| <= |Addresses(regions)|
    ensures var first, image := Before(regions, n) + at, DirtyCells(bytes, marks, Addresses(regions));
            forall k :: first <= k < first + |piece| ==>
                          image[k] ==
                          if PageOf(regions[n].gpa + at + (k - first)) in marks then Some(piece[k - first]) else None
  {
    AddressesAt(regions, n);
  }

  /** The pages of `count` bytes from `gpa` are all marked, or all not. */
  ghost predicate AllMarked(marks: set<int>, gpa: int, count: nat, marked: bool) {
    forall a :: gpa <= a < gpa + count ==> (PageOf(a) in marks <==> marked)
  }

  lemma AllMarkedOn(marks: set<int>, gpa: int, n: nat, m: nat, marked: bool)
    ensures AllMarked(marks, gpa, n, marked) && AllMarked(marks, gpa + n, m, marked) ==>
              AllMarked(marks, gpa, n + m, marked)
    ensures AllMarked(marks, gpa, 0, marked)
  {
  }

  lemma RunIsPiece(bytes: Ram, marks: set<int>, regions: seq<Region>, n: nat, at: nat, piece: seq<Byte>, marked: bool)
    requires n < |regions| && at + |piece| <= regions[n].size && AllMarked(marks, regions[n].gpa + at, |piece|, marked)
    requires Holds(bytes, regions[n].gpa + at, |piece|) && piece == Load(bytes, regions[n].gpa + at, |piece|)
    ensures IsPiece(DirtyCells(bytes, marks, Addresses(regions)), Before(regions, n) + at, piece, marked)
  {
    DirtyCellsAt(bytes, marks, regions, n, at, piece);
    hide DirtyCells, Addresses, Load, PageOf, Before;
  }

  /** A stretch with no mark in it is a hole. */
  lemma HoleIsPiece(bytes: Ram, marks: set<int>, regions: seq<Region>, n: nat, at: nat, count: nat)
    requires n < |regions| && at + count <= regions[n].size && forall a :: a in bytes <==> Covered(regions, a)
    requires forall a :: regions[n].gpa + at <= a < regions[n].gpa + at + count ==> PageOf(a) !in marks
    ensures IsPiece(DirtyCells(bytes, marks, Addresses(regions)), Before(regions, n) + at,
                    Load(bytes, regions[n].gpa + at, count), false)
  {
    hide DirtyCells, Addresses, Load, IsPiece, Holds, PageOf;
    RegionBacked(regions, bytes, n, at, count);
    RunIsPiece(bytes, marks, regions, n, at, Load(bytes, regions[n].gpa + at, count), false);
  }

  lemma LaidHole(was: seq<Cell>, cells: seq<Cell>, start: nat, end: nat, piece: seq<Byte>, image: seq<Cell>)
    requires start <= end && LaidOver(was, cells, start, end, image) && IsPiece(image, end - start, piece, false)
    ensures LaidOver(was, cells, start, end + |piece|, image)
  {
    LaidSkip(was, cells, start, end, |piece|, image);
  }

  // ---- Machine ----

  datatype Lifecycle = Created | Running | Paused | Shutdown

  datatype MachineError = BadTransition(from: Lifecycle) | Io | Log | SnapshotShape

  class Machine {
    const ram: GuestRam
    var state: Lifecycle
    /** Pages the hypervisor logged as written by the guest. */
    var log: set<int>

    constructor (ram: GuestRam)
      requires ram.Valid()
      ensures this.ram == ram && state == Created && log == {}
    {
      this.ram := ram;
      state, log := Created, {};
    }

    /** One chunk of a region: written whole, or skipped if all zero. */
    method WriteChunk(out: SparseFile, n: nat, at: nat, count: nat, ghost was: seq<Cell>, ghost start: nat)
      returns (ok: bool)
      requires ram.Valid() && n < |ram.regions| && 0 < count && at + count <= ram.regions[n].size
      requires at % CHUNK == 0 && (count == CHUNK || (count < CHUNK && at + count == ram.regions[n].size))
      requires out.at == start + Before(ram.regions, n) + at
      requires LaidOver(was, out.cells, start, out.at, DenseCells(ram.bytes, ram.regions))
      modifies out
      ensures ok ==> out.at == old(out.at) + count &&
                     LaidOver(was, out.cells, start, out.at, DenseCells(ram.bytes, ram.regions))
    {
      hide DenseCells, LaidOver, Load, Covered, WellLaid, IsPiece, AllZero;
      ChunkOfRegion(ram.bytes, ram.regions, n, at, count);
      var piece := Load(ram.bytes, ram.regions[n].gpa + at, count);
      var some := AnyByte(piece);
      ok := out.Lay(piece, some, was, start, DenseCells(ram.bytes, ram.regions));
    }

    /** Every chunk of region `n`. */
    method WriteRegion(out: SparseFile, n: nat, ghost was: seq<Cell>, ghost start: nat) returns (ok: bool)
      requires ram.Valid() && n < |ram.regions| && out.at == start + Before(ram.regions, n)
      requires LaidOver(was, out.cells, start, out.at, DenseCells(ram.bytes, ram.regions))
      modifies out
      ensures ok ==> && out.at == start + Before(ram.regions, n + 1)
                     && LaidOver(was, out.cells, start, out.at, DenseCells(ram.bytes, ram.regions))
    {
      AddressesAt(ram.regions, n);
      hide LaidOver, DenseCells;
      var size := ram.regions[n].size;
      var at := 0;
      while at < size
        invariant 0 <= at <= size && (at % CHUNK == 0 || at == size)
        invariant out.at == start + Before(ram.regions, n) + at
        invariant LaidOver(was, out.cells, start, out.at, DenseCells(ram.bytes, ram.regions))
      {
        var count := if CHUNK < size - at then CHUNK else size - at;
        ok := WriteChunk(out, n, at, count, was, start);
        if !ok {
          return;
        }
        at := at + count;
      }
      ok := true;
    }

    /** Write RAM to `out` from its position, region by region and without a
        header, skipping the chunks which are zero. */
    method WriteMemory(out: SparseFile) returns (r: Result<(), MachineError>)
      requires ram.Valid()
      modifies out
      ensures state != Paused ==> r == Err(BadTransition(state)) && out.cells == old(out.cells) && out.at == old(out.at)
      ensures state == Paused ==> r.Ok? || r == Err(Io)
      ensures r.Ok? ==> Overlaid(old(out.cells), out.cells, old(out.at), DenseCells(ram.bytes, ram.regions))
    {
      if state != Paused {
        return Err(BadTransition(state));
      }
      hide LaidOver, DenseCells, Overlaid, WellLaid, Covered;
      ghost var was, image := out.cells, DenseCells(ram.bytes, ram.regions);
      var start := out.at;
      LaidNothing(was, start, image);
      var total := 0;
      var n := 0;
      while n < |ram.regions|
        invariant n <= |ram.regions| && total == Before(ram.regions, n) && out.at == start + total
        invariant LaidOver(was, out.cells, start, out.at, image)
      {
        var ok := WriteRegion(out, n, was, start);
        if !ok {
          return Err(Io);
        }
        AddressesAt(ram.regions, n);
        total := total + ram.regions[n].size;
        n := n + 1;
      }
      assert ram.regions[..n] == ram.regions;
      ghost var cells := out.cells;
      var cut := out.SetLen(start + total);
      if !cut {
        return Err(Io);
      }
      LaidCut(was, cells, out.cells, start, image);
      r := Ok(());
    }

    /** Fill region `n` from where the image which starts at `start` holds it. */
    method ReadRegion(from: File, n: nat, ghost start: nat) returns (r: Result<(), MachineError>)
      requires ram.Valid() && from.Valid() && n < |ram.regions| && from.at == start + Before(ram.regions, n)
      requires Filled(ram.bytes, Addresses(ram.regions), Before(ram.regions, n), from.content[start..])
      modifies ram, from`at
      ensures ram.Valid() && from.Valid() && ram.Tracked(old(ram.bytes), old(ram.marks)) &&
              ram.bytes.Keys == old(ram.bytes.Keys)
      ensures r.Ok? || r == Err(Io) || (r == Err(SnapshotShape) && |from.content| < start + Before(ram.regions, n + 1))
      ensures r.Ok? ==> && from.at == start + Before(ram.regions, n + 1)
                        && Filled(ram.bytes, Addresses(ram.regions), Before(ram.regions, n + 1), from.content[start..])
    {
      hide Tracks, Filled, Dense;
      ghost var bytes := ram.bytes;
      var region := ram.regions[n];
      AddressesAt(ram.regions, n);
      RegionBacked(ram.regions, ram.bytes, n, 0, region.size);
      hide WellLaid, Covered, Addresses;
      var filled := ram.FillAllFrom(region.gpa, from, region.size);
      TracksKeys(bytes, old(ram.marks), ram.bytes, ram.marks);
      if filled.None? {
        return Err(Io);
      }
      if filled.value != region.size {
        return Err(SnapshotShape);
      }
      assert from.content[old(from.at)..from.at] ==
             from.content[start..][Before(ram.regions, n)..Before(ram.regions, n + 1)];
      FilledOn(ram.regions, n, bytes, from.content[start..]);
      r := Ok(());
    }

    /** Read RAM from `from`, region by region. Reads may be short until the
        file ends, and a file ending too early is refused. */
    method ReadMemory(from: File) returns (r: Result<(), MachineError>)
      requires ram.Valid() && from.Valid()
      modifies ram, from`at
      ensures ram.Valid() && from.Valid() && ram.Tracked(old(ram.bytes), old(ram.marks))
      ensures (r.Err? && r.error.BadTransition?) <==> state != Created && state != Paused
      ensures r.Err? && r.error.BadTransition? ==>
                ram.bytes == old(ram.bytes) && ram.marks == old(ram.marks) && from.at == old(from.at)
      ensures r == Err(SnapshotShape) ==> |from.content| < old(from.at) + |Addresses(ram.regions)|
      ensures r.Ok? ==> && from.at == old(from.at) + |Addresses(ram.regions)|
                        && Dense(ram.bytes, Addresses(ram.regions)) == from.content[old(from.at)..from.at]
    {
      TracksSelf(ram.bytes, ram.marks);
      if state != Created && state != Paused {
        return Err(BadTransition(state));
      }
      ghost var start, data := from.at, from.content[from.at..];
      var n := 0;
      while n < |ram.regions|
        invariant n <= |ram.regions| && ram.Valid() && from.Valid() && from.at == start + Before(ram.regions, n)
        invariant ram.Tracked(old(ram.bytes), old(ram.marks)) && ram.bytes.Keys == old(ram.bytes.Keys)
        invariant Filled(ram.bytes, Addresses(ram.regions), Before(ram.regions, n), data)
      {
        hide Tracks, Filled, Dense, WellLaid, Covered, Addresses;
        ghost var bytes, marks := ram.bytes, ram.marks;
        AddressesAt(ram.regions, n);
        r := ReadRegion(from, n, start);
        TracksOn(old(ram.bytes), old(ram.marks), bytes, marks, ram.bytes, ram.marks);
        if r.Err? {
          return;
        }
        n := n + 1;
      }
      assert ram.regions[..n] == ram.regions;
      FilledAll(ram.regions, ram.bytes, data);
      r := Ok(());
    }

    ghost function Now(): Memory
      reads this, ram
    {
      Memory(ram.bytes, ram.marks, log)
    }

    /** A store by the guest itself, which only the hypervisor sees. */
    method GuestStores(gpa: nat, data: seq<Byte>)
      requires ram.Valid()
      modifies ram`bytes, this`log
      ensures ram.Valid() && Now() == After(ram.base, old(Now()), Dirty.GuestStores(gpa, data))
    {
      if Holds(ram.bytes, gpa, |data|) {
        ram.bytes := Store(ram.bytes, gpa, data);
        log := log + Pages(gpa, |data|);
      }
    }

    /** Take the hypervisor's log of region `n`, which empties it. */
    method GetDirtyLog(n: nat) returns (words: Option<seq<nat>>)
      requires ram.Valid() && n < |ram.regions|
      modifies this`log
      ensures words.None? ==> log == old(log)
      ensures words.Some? ==> && words.value == LogWords(old(log), ram.regions[n])
                              && log == old(log) - LoggedIn(old(log), ram.regions[n])
    {
      var failed: bool := *;
      if failed {
        return None;
      }
      words := Some(LogWords(log, ram.regions[n]));
      log := log - LoggedIn(log, ram.regions[n]);
    }

    /** Mark what the hypervisor logged in region `n`. */
    method CollectRegion(n: nat) returns (ok: bool)
      requires ram.Valid() && n < |ram.regions|
      modifies ram`marks, this`log
      ensures ram.Valid() && Now() == if ok then After(ram.base, old(Now()), Collects(ram.regions[n])) else old(Now())
    {
      ghost var region, log0, marks0 := ram.regions[n], log, ram.marks;
      var words := GetDirtyLog(n);
      if words.None? {
        return false;
      }
      ok := ram.Mark(ram.regions[n].gpa, words.value);
      forall p
        ensures p in ram.marks <==> p in marks0 + LoggedIn(log0, region)
      {
        LogWordsExact(log0, region, p);
      }
      assert ram.marks == marks0 + LoggedIn(log0, region);
    }

    /** Mark what the hypervisor logged in every region. A failure part way
        leaves both logs together what they were. */
    method Collect() returns (ok: bool)
      requires ram.Valid()
      modifies ram`marks, this`log
      ensures ram.Valid() && (old(Faithful(ram.base, Now())) ==> Faithful(ram.base, Now()))
      ensures ram.marks + log == old(ram.marks + log) && old(ram.marks) <= ram.marks
      ensures ok ==> forall a :: a in ram.bytes ==> PageOf(a) !in log
    {
      hide Faithful, WellLaid, Covered, PageOf;
      var n := 0;
      ghost var faithful := Faithful(ram.base, Now());
      while n < |ram.regions|
        invariant n <= |ram.regions| && ram.Valid() && (faithful ==> Faithful(ram.base, Now()))
        invariant ram.marks + log == old(ram.marks + log) && old(ram.marks) <= ram.marks
        invariant forall k, p :: 0 <= k < n && ram.regions[k].Covers(p) && p % PAGE == 0 ==> p !in log
      {
        if faithful {
          StepFaithful(ram.base, Now(), Collects(ram.regions[n]));
        }
        ok := CollectRegion(n);
        if !ok {
          return;
        }
        n := n + 1;
      }
      forall a | a in ram.bytes
        ensures PageOf(a) !in log
      {
        PageCovered(ram.regions, log, a);
      }
      ok := true;
    }

    /** Whether a stretch of region `n` holds a marked page. */
    method AnyWritten(n: nat, at: nat, count: nat) returns (r: bool)
      requires ram.Valid() && n < |ram.regions| && at + count <= ram.regions[n].size
      ensures r <==> exists a :: ram.regions[n].gpa + at <= a < ram.regions[n].gpa + at + count &&
                                 PageOf(a) in ram.marks
    {
      var gpa := ram.regions[n].gpa;
      RegionBacked(ram.regions, ram.bytes, n, at, count);
      r := ram.Written(gpa + at, count);
      if !r {
        forall a | gpa + at <= a < gpa + at + count
          ensures PageOf(a) !in ram.marks
        {
          assert Reaches(ram.bytes, gpa + at, a);
        }
      }
    }

    /** Whether the page which starts at `at` in region `n` is marked. */
    method PageWritten(n: nat, at: nat, count: nat) returns (r: bool)
      requires ram.Valid() && n < |ram.regions| && at + count <= ram.regions[n].size && at % PAGE == 0 &&
               0 < count <= PAGE
      ensures r <==> PageOf(ram.regions[n].gpa + at) in ram.marks
      ensures AllMarked(ram.marks, ram.regions[n].gpa + at, count, r)
    {
      r := AnyWritten(n, at, count);
      AlignedDifference(ram.regions[n].gpa, at);
      OnePage(ram.regions[n].gpa + at, count);
    }

    /** Longest run of pages from `at` to before `limit` which are all marked,
        or all unmarked. */
    method FindRun(n: nat, at: nat, limit: nat) returns (marked: bool, run: nat)
      requires ram.Valid() && n < |ram.regions| && at < limit <= ram.regions[n].size && at % PAGE == 0
      ensures 0 < run <= limit - at && ((at + run) % PAGE == 0 || at + run == limit)
      ensures AllMarked(ram.marks, ram.regions[n].gpa + at, run, marked)
      ensures at + run < limit ==> (PageOf(ram.regions[n].gpa + at + run) in ram.marks) != marked
    {
      hide AllMarked, PageOf, WellLaid, Covered;
      var gpa := ram.regions[n].gpa;
      marked := PageWritten(n, at, if PAGE < limit - at then PAGE else limit - at);
      run := 0;
      AllMarkedOn(ram.marks, gpa + at, 0, 0, marked);
      while at + run < limit
        invariant at + run <= limit && ((at + run) % PAGE == 0 || at + run == limit)
        invariant AllMarked(ram.marks, gpa + at, run, marked)
        invariant run == 0 ==> marked == (PageOf(gpa + at) in ram.marks)
      {
        var step := if PAGE < limit - at - run then PAGE else limit - at - run;
        var written := PageWritten(n, at + run, step);
        if written != marked {
          return;
        }
        AllMarkedOn(ram.marks, gpa + at, run, step, marked);
        run := run + step;
      }
    }

    /** One run of a chunk: read and written in one go if marked, else left as
        a hole. */
    method WriteRun(out: SparseFile, n: nat, at: nat, limit: nat, ghost was: seq<Cell>, ghost start: nat)
      returns (ok: bool, run: nat)
      requires ram.Valid() && n < |ram.regions| && at < limit <= ram.regions[n].size && at % PAGE == 0
      requires out.at == start + Before(ram.regions, n) + at
      requires LaidOver(was, out.cells, start, out.at, DirtyCells(ram.bytes, ram.marks, Addresses(ram.regions)))
      modifies out
      ensures 0 < run <= limit - at && ((at + run) % PAGE == 0 || at + run == limit)
      ensures ok ==> && out.at == old(out.at) + run
                     && LaidOver(was, out.cells, start, out.at,
                                 DirtyCells(ram.bytes, ram.marks, Addresses(ram.regions)))
    {
      var marked: bool;
      marked, run := FindRun(n, at, limit);
      var gpa := ram.regions[n].gpa + at;
      ghost var image := DirtyCells(ram.bytes, ram.marks, Addresses(ram.regions));
      RegionBacked(ram.regions, ram.bytes, n, at, run);
      var page := Load(ram.bytes, gpa, run);
      RunIsPiece(ram.bytes, ram.marks, ram.regions, n, at, page, marked);
      hide DirtyCells, Addresses, LaidOver, Load, Covered, WellLaid, Holds, AllMarked, IsPiece;
      ok := out.Lay(page, marked, was, start, image);
    }

    /** One chunk: skipped whole with no mark in it, else walked in runs. */
    method WriteDirtyChunk(out: SparseFile, n: nat, at: nat, chunk: nat, ghost was: seq<Cell>, ghost start: nat)
      returns (ok: bool)
      requires ram.Valid() && n < |ram.regions| && at + chunk <= ram.regions[n].size && at % PAGE == 0
      requires out.at == start + Before(ram.regions, n) + at
      requires LaidOver(was, out.cells, start, out.at, DirtyCells(ram.bytes, ram.marks, Addresses(ram.regions)))
      modifies out
      ensures ok ==> && out.at == old(out.at) + chunk
                     && LaidOver(was, out.cells, start, out.at,
                                 DirtyCells(ram.bytes, ram.marks, Addresses(ram.regions)))
    {
      hide DirtyCells, Addresses, LaidOver, Load, Covered, WellLaid, Holds, IsPiece;
      var any := AnyWritten(n, at, chunk);
      if !any {
        HoleIsPiece(ram.bytes, ram.marks, ram.regions, n, at, chunk);
        LaidHole(was, out.cells, start, out.at, Load(ram.bytes, ram.regions[n].gpa + at, chunk),
                 DirtyCells(ram.bytes, ram.marks, Addresses(ram.regions)));
        ok := out.SeekForward(chunk);
        return;
      }
      var done := 0;
      while done < chunk
        invariant 0 <= done <= chunk && ((at + done) % PAGE == 0 || done == chunk)
        invariant out.at == start + Before(ram.regions, n) + at + done
        invariant LaidOver(was, out.cells, start, out.at, DirtyCells(ram.bytes, ram.marks, Addresses(ram.regions)))
      {
        var run: nat;
        ok, run := WriteRun(out, n, at + done, at + chunk, was, start);
        if !ok {
          return;
        }
        done := done + run;
      }
      ok := true;
    }

    /** Every chunk of region `n`. */
    method WriteDirtyRegion(out: SparseFile, n: nat, ghost was: seq<Cell>, ghost start: nat) returns (ok: bool)
      requires ram.Valid() && n < |ram.regions| && out.at == start + Before(ram.regions, n)
      requires LaidOver(was, out.cells, start, out.at, DirtyCells(ram.bytes, ram.marks, Addresses(ram.regions)))
      modifies out
      ensures ok ==> && out.at == start + Before(ram.regions, n + 1)
                     && LaidOver(was, out.cells, start, out.at,
                                 DirtyCells(ram.bytes, ram.marks, Addresses(ram.regions)))
    {
      AddressesAt(ram.regions, n);
      hide LaidOver, DirtyCells;
      var size := ram.regions[n].size;
      var at := 0;
      while at < size
        invariant 0 <= at <= size && (at % CHUNK == 0 || at == size)
        invariant out.at == start + Before(ram.regions, n) + at
        invariant LaidOver(was, out.cells, start, out.at, DirtyCells(ram.bytes, ram.marks, Addresses(ram.regions)))
      {
        var chunk := if CHUNK < size - at then CHUNK else size - at;
        assert at == at / CHUNK * CHUNK;
        ok := WriteDirtyChunk(out, n, at, chunk, was, start);
        if !ok {
          return;
        }
        at := at + chunk;
      }
      ok := true;
    }

    /** Write the pages written since the guest was assembled, laid out as
        `WriteMemory` lays them, with a hole for each clean page. */
    method WriteDirty(out: SparseFile) returns (r: Result<(), MachineError>)
      requires ram.Valid()
      modifies ram`marks, this`log, out
      ensures ram.Valid() && (old(Faithful(ram.base, Now())) ==> Faithful(ram.base, Now()))
      ensures ram.marks + log == old(ram.marks + log) && old(ram.marks) <= ram.marks
      ensures state != Paused ==>
                && r == Err(BadTransition(state)) && out.cells == old(out.cells) && out.at == old(out.at)
                && Now() == old(Now())
      ensures state == Paused ==> r.Ok? || r == Err(Io) || r == Err(Log)
      ensures r.Ok? && old(Faithful(ram.base, Now())) ==> CleanIsBase(ram.base, ram.bytes, ram.marks)
      ensures r.Ok? ==> Overlaid(old(out.cells), out.cells, old(out.at),
                                 DirtyCells(ram.bytes, ram.marks, Addresses(ram.regions)))
    {
      if state != Paused {
        return Err(BadTransition(state));
      }
      hide LaidOver, DirtyCells, Overlaid, WellLaid, Covered, Faithful, CleanIsBase;
      ghost var was := out.cells;
      var ok := Collect();
      if !ok {
        return Err(Log);
      }
      if Faithful(ram.base, Now()) {
        CollectedIsClean(ram.base, Now());
      }
      ghost var image := DirtyCells(ram.bytes, ram.marks, Addresses(ram.regions));
      var start := out.at;
      LaidNothing(was, start, image);
      var total := 0;
      var n := 0;
      while n < |ram.regions|
        invariant n <= |ram.regions| && total == Before(ram.regions, n) && out.at == start + total
        invariant LaidOver(was, out.cells, start, out.at, image)
        modifies out
      {
        ok := WriteDirtyRegion(out, n, was, start);
        if !ok {
          return Err(Io);
        }
        AddressesAt(ram.regions, n);
        total := total + ram.regions[n].size;
        n := n + 1;
      }
      assert ram.regions[..n] == ram.regions;
      ghost var cells := out.cells;
      var cut := out.SetLen(start + total);
      if !cut {
        return Err(Io);
      }
      LaidCut(was, cells, out.cells, start, image);
      r := Ok(());
    }
  }
}
