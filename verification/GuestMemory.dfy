/** Guest RAM, host memory behind the guest physical address space. Models
    src/lingcore/src/mem/mod.rs. */
module GuestMemory {
  import opened Wrappers
  import opened Bytes
  import opened HostFile
  import opened Bits

  /** Page size, the dirty log keeps one bit per page. */
  const PAGE := 4096

  /** Backed guest addresses with the byte at each. */
  type Ram = map<int, Byte>

  /** Whether `count` bytes from `gpa` are backed. A range crossing a hole
      between regions is not. */
  predicate Holds(ram: Ram, gpa: int, count: nat) {
    forall a :: gpa <= a < gpa + count ==> a in ram
  }

  /** RAM is backed without a gap from `gpa` up to and with `a`. */
  ghost predicate Reaches(ram: Ram, gpa: int, a: int) {
    forall b :: gpa <= b <= a ==> b in ram
  }

  /** How many of `count` bytes from `gpa` are backed without a gap. */
  function Backed(ram: Ram, gpa: int, count: nat): (n: nat)
    ensures n <= count && Holds(ram, gpa, n)
    ensures n == count <==> Holds(ram, gpa, count)
    decreases count
  {
    if count == 0 || gpa !in ram then 0 else 1 + Backed(ram, gpa + 1, count - 1)
  }

  /** `count` bytes from `gpa`. Callers check that they are backed first. */
  function Load(ram: Ram, gpa: int, count: nat): (s: seq<Byte>)
    ensures |s| == count
  {
    seq(count, i requires 0 <= i < count => if gpa + i in ram then ram[gpa + i] else 0)
  }

  /** RAM with `bytes` laid at `gpa`, where it is backed. */
  function Store(ram: Ram, gpa: int, bytes: seq<Byte>): (r: Ram)
    ensures r.Keys == ram.Keys
  {
    map a | a in ram :: if gpa <= a < gpa + |bytes| then bytes[a - gpa] else ram[a]
  }

  /** Address of the page holding `a`. Regions start on a page boundary. */
  function PageOf(a: int): int {
    a - a % PAGE
  }

  /** One region of guest RAM. */
  datatype Region = Region(gpa: nat, size: nat) {
    predicate Covers(a: int) { gpa <= a < gpa + size }
  }

  /** Regions in ascending order without overlap, each from a page boundary. */
  ghost predicate WellLaid(regions: seq<Region>) {
    && (forall i :: 0 <= i < |regions| ==>
                      regions[i].size > 0 && regions[i].gpa % PAGE == 0 &&
                      regions[i].gpa + regions[i].size <= U64_LIMIT)
    && (forall i, j :: 0 <= i < j < |regions| ==> regions[i].gpa + regions[i].size <= regions[j].gpa)
  }

  ghost predicate Covered(regions: seq<Region>, a: int) {
    exists i :: 0 <= i < |regions| && regions[i].Covers(a)
  }

  /** Page `n` of a region was logged, as one bit per page from bit 0 of the
      first word. */
  predicate LoggedPage(words: seq<nat>, n: nat) {
    n / WORD < |words| && Bit(words[n / WORD], n % WORD)
  }

  /** The page at `p` lies in the region and was logged. */
  predicate Logged(region: Region, words: seq<nat>, p: int) {
    region.Covers(p) && p % PAGE == 0 && LoggedPage(words, (p - region.gpa) / PAGE)
  }

  ghost predicate BitsWithin(left: nat, word: nat) {
    forall b: nat :: Bit(left, b) ==> Bit(word, b)
  }

  /** The page's bit was met by a scan which is at word `index` with the bits
      of `left` to come. */
  ghost predicate Scanned(index: nat, left: nat, n: nat) {
    n / WORD < index || (n / WORD == index && !Bit(left, n % WORD))
  }

  /** `marks` has gained the logged pages scanned so far. */
  ghost predicate MarkedSoFar(marks0: set<int>, marks: set<int>, region: Region, words: seq<nat>, index: nat,
                              left: nat) {
    forall p :: p in marks <==>
                p in marks0 || (Logged(region, words, p) && Scanned(index, left, (p - region.gpa) / PAGE))
  }

  lemma WordSplit(n: nat, index: nat, bit: nat)
    requires bit < WORD
    ensures n == index * WORD + bit <==> n / WORD == index && n % WORD == bit
  {
  }

  lemma PageNumber(gpa: nat, p: int, n: nat)
    requires gpa % PAGE == 0 && gpa <= p
    ensures p == gpa + n * PAGE <==> p % PAGE == 0 && (p - gpa) / PAGE == n
  {
  }

  /** Scanning on past `bit` takes in its page and no other. */
  lemma ScanStepAt(region: Region, words: seq<nat>, index: nat, left: nat, rest: nat, bit: nat, p: int)
    requires region.gpa % PAGE == 0 && index < |words| && bit < WORD
    requires Bit(left, bit) && Bit(words[index], bit)
    requires forall b: nat :: Bit(rest, b) <==> Bit(left, b) && b != bit
    ensures var n, page := (p - region.gpa) / PAGE, region.gpa + (index * WORD + bit) * PAGE;
            (Logged(region, words, p) && Scanned(index, rest, n)) <==>
            (Logged(region, words, p) && Scanned(index, left, n)) || (p == page && region.Covers(p))
  {
    hide Bit;
    if region.Covers(p) {
      var n := (p - region.gpa) / PAGE;
      PageNumber(region.gpa, p, index * WORD + bit);
      WordSplit(n, index, bit);
    }
  }

  /** Clearing the lowest bit left and marking its page keeps them in step. */
  lemma ScanStep(marks0: set<int>, marks: set<int>, region: Region, words: seq<nat>, index: nat, left: nat)
    requires MarkedSoFar(marks0, marks, region, words, index, left)
    requires index < |words| && 0 < left && BitsWithin(left, words[index]) && words[index] < Pow2(WORD)
    requires region.gpa % PAGE == 0
    ensures And(left, left - 1) < left && BitsWithin(And(left, left - 1), words[index])
    ensures var at := (index * WORD + TrailingZeros(left)) * PAGE;
            MarkedSoFar(marks0, if at < region.size then marks + {region.gpa + at} else marks,
                        region, words, index, And(left, left - 1))
  {
    hide Bit, And, TrailingZeros, Pow2, LoggedPage, Scanned;
    var bit, rest := TrailingZeros(left), And(left, left - 1);
    AndShrinks(left);
    LowestIsSet(left);
    BitBelow(words[index], bit, WORD);
    forall b: nat
      ensures Bit(rest, b) <==> Bit(left, b) && b != bit
    {
      AndPredecessor(left, b);
    }
    var at := (index * WORD + bit) * PAGE;
    var more := if at < region.size then marks + {region.gpa + at} else marks;
    forall p
      ensures p in more <==> p in marks0 || (Logged(region, words, p) && Scanned(index, rest, (p - region.gpa) / PAGE))
    {
      ScanStepAt(region, words, index, left, rest, bit, p);
      assert p in marks <==> p in marks0 || (Logged(region, words, p) && Scanned(index, left, (p - region.gpa) / PAGE));
    }
    assert MarkedSoFar(marks0, more, region, words, index, rest);
  }

  lemma ScanWordDone(marks0: set<int>, marks: set<int>, region: Region, words: seq<nat>, index: nat)
    requires MarkedSoFar(marks0, marks, region, words, index, 0) && index < |words|
    ensures MarkedSoFar(marks0, marks, region, words, index + 1, if index + 1 < |words| then words[index + 1] else 0)
  {
    forall n: nat | LoggedPage(words, n)
      ensures Scanned(index, 0, n) <==> Scanned(index + 1, if index + 1 < |words| then words[index + 1] else 0, n)
    {
      NoBits(n % WORD);
    }
  }

  lemma ScanDone(marks0: set<int>, marks: set<int>, region: Region, words: seq<nat>)
    requires MarkedSoFar(marks0, marks, region, words, |words|, 0)
    ensures forall p :: p in marks <==> p in marks0 || Logged(region, words, p)
  {
  }

  lemma ScanStart(marks: set<int>, region: Region, words: seq<nat>)
    ensures MarkedSoFar(marks, marks, region, words, 0, if |words| > 0 then words[0] else 0)
  {
  }

  /** RAM with `count` bytes from `gpa` read from `base` again. */
  function Dropped(ram: Ram, base: Ram, gpa: int, count: nat): (r: Ram)
    requires base.Keys == ram.Keys
    ensures r.Keys == ram.Keys
  {
    map a | a in ram :: if gpa <= a < gpa + count then base[a] else ram[a]
  }

  lemma DroppedNothing(ram: Ram, base: Ram, gpa: int)
    requires base.Keys == ram.Keys
    ensures Dropped(ram, base, gpa, 0) == ram
    ensures forall marks: set<int> :: marks - Pages(gpa, 0) == marks
  {
  }

  lemma HoldsRest(ram: Ram, ram': Ram, gpa: int, count: nat, n: nat)
    requires Holds(ram, gpa, count) && ram'.Keys == ram.Keys && n <= count
    ensures Holds(ram', gpa + n, count - n)
  {
  }

  lemma DroppedOn(ram: Ram, base: Ram, marks: set<int>, gpa: int, n: nat, m: nat)
    requires base.Keys == ram.Keys
    ensures Dropped(Dropped(ram, base, gpa, n), base, gpa + n, m) == Dropped(ram, base, gpa, n + m)
    ensures marks - Pages(gpa, n) - Pages(gpa + n, m) == marks - Pages(gpa, n + m)
  {
    assert Pages(gpa, n) + Pages(gpa + n, m) == Pages(gpa, n + m);
  }

  /** RAM which goes on past a region goes on at a page boundary. */
  lemma NextRegionAligned(regions: seq<Region>, i: nat, a: int)
    requires WellLaid(regions) && i < |regions| && a == regions[i].gpa + regions[i].size && Covered(regions, a)
    ensures a % PAGE == 0
  {
    var j :| 0 <= j < |regions| && regions[j].Covers(a);
  }

  /** A range of whole host pages. */
  predicate WholePages(gpa: nat, count: nat, hostPage: nat)
    requires hostPage > 0
  {
    gpa % hostPage == 0 && count % hostPage == 0
  }

  lemma AlignedTo(gpa: nat, count: nat, hostPage: nat)
    requires hostPage > 0 && hostPage % PAGE == 0
    ensures WholePages(gpa, count, hostPage) ==> gpa % PAGE == 0 && count % PAGE == 0
  {
    var m := hostPage / PAGE;
    var q, r := gpa / hostPage, count / hostPage;
    assert gpa % hostPage == 0 ==> gpa == q * m * PAGE;
    assert count % hostPage == 0 ==> count == r * m * PAGE;
  }

  /** Pages touched by `count` bytes from `gpa`. */
  function Pages(gpa: int, count: nat): set<int> {
    set a | gpa <= a < gpa + count :: PageOf(a)
  }

  /** Every byte changed from `bytes0` to `bytes1` has its page among
      `marks1`, and no mark of `marks0` is lost. */
  ghost predicate Tracks(bytes0: Ram, marks0: set<int>, bytes1: Ram, marks1: set<int>) {
    && bytes1.Keys == bytes0.Keys
    && marks0 <= marks1
    && forall a :: a in bytes1 && bytes1[a] != bytes0[a] ==> PageOf(a) in marks1
  }

  /** A page is touched exactly if it overlaps the range. */
  lemma PagesExact(gpa: int, count: nat, p: int)
    ensures p in Pages(gpa, count) <==> p % 4096 == 0 && count > 0 && p < gpa + count && gpa < p + 4096
  {
    if p % 4096 == 0 && count > 0 && p < gpa + count && gpa < p + 4096 {
      var a := if gpa < p then p else gpa;
      OnePage(p, PAGE);
      assert PageOf(a) == p && gpa <= a < gpa + count;
    }
    if p in Pages(gpa, count) {
      var a :| gpa <= a < gpa + count && PageOf(a) == p;
      AlignedDown(a);
    }
  }

  lemma AlignedDown(a: int)
    ensures PageOf(a) % PAGE == 0 && PageOf(a) <= a < PageOf(a) + PAGE
  {
    assert PageOf(a) == a / PAGE * PAGE;
  }

  /** Dropped bytes read as the base, and all others as before. */
  lemma DroppedReads(ram: Ram, base: Ram, gpa: int, count: nat, other: int, n: nat)
    requires base.Keys == ram.Keys && (other + n <= gpa || gpa + count <= other)
    ensures Load(Dropped(ram, base, gpa, count), gpa, count) == Load(base, gpa, count)
    ensures Load(Dropped(ram, base, gpa, count), other, n) == Load(ram, other, n)
  {
  }

  lemma TracksSelf(b: Ram, m: set<int>)
    ensures Tracks(b, m, b, m)
  {
  }

  lemma TracksOn(b0: Ram, m0: set<int>, b1: Ram, m1: set<int>, b2: Ram, m2: set<int>)
    requires Tracks(b0, m0, b1, m1) && Tracks(b1, m1, b2, m2)
    ensures Tracks(b0, m0, b2, m2)
  {
    assert forall a :: a in b2 && b2[a] != b0[a] ==> b1[a] != b0[a] || b2[a] != b1[a];
  }

  lemma TracksKeys(b0: Ram, m0: set<int>, b1: Ram, m1: set<int>)
    requires Tracks(b0, m0, b1, m1)
    ensures b1.Keys == b0.Keys
  {
  }

  lemma StoreNothing(ram: Ram, gpa: int)
    ensures Store(ram, gpa, []) == ram
  {
  }

  /** What was written is read back, and a range apart from it reads as before. */
  lemma LoadStored(ram: Ram, gpa: int, data: seq<Byte>, other: int, count: nat)
    requires Holds(ram, gpa, |data|) && (other + count <= gpa || gpa + |data| <= other)
    ensures Load(Store(ram, gpa, data), gpa, |data|) == data
    ensures Load(Store(ram, gpa, data), other, count) == Load(ram, other, count)
    ensures Holds(Store(ram, gpa, data), other, count) <==> Holds(ram, other, count)
  {
  }

  /** Two fields written one after the other both read back. */
  lemma TwoFields(ram: Ram, at: int, a: seq<Byte>, to: int, b: seq<Byte>, count: nat)
    requires Holds(ram, at, count) && at + |a| <= to && to + |b| <= at + count
    ensures var laid := Store(Store(ram, at, a), to, b);
            Load(laid, at, |a|) == a && Load(laid, to, |b|) == b && Holds(laid, at, count)
  {
    LoadStored(ram, at, a, to, |b|);
    LoadStored(Store(ram, at, a), to, b, at, |a|);
  }

  lemma SliceOn(s: seq<Byte>, i: nat, j: nat, k: nat)
    requires i <= j <= k <= |s|
    ensures s[i..j] + s[j..k] == s[i..k]
  {
  }

  lemma StoreOn(ram: Ram, gpa: int, a: seq<Byte>, b: seq<Byte>)
    ensures Store(Store(ram, gpa, a), gpa + |a|, b) == Store(ram, gpa, a + b)
  {
  }

  lemma AlignedDifference(a: int, b: int)
    requires a % PAGE == 0 && b % PAGE == 0
    ensures (a - b) % PAGE == 0 && (a + b) % PAGE == 0
  {
    var p, q := a / PAGE, b / PAGE;
    assert a == PAGE * p && b == PAGE * q;
    assert a - b == PAGE * (p - q) && a + b == PAGE * (p + q);
  }

  /** The bytes of one page have its address as theirs. */
  lemma OnePage(page: int, count: nat)
    requires page % PAGE == 0 && count <= PAGE
    ensures forall a :: page <= a < page + count ==> PageOf(a) == page
  {
  }

  lemma PageStart(gpa: int, at: int)
    requires gpa % PAGE == 0 && gpa <= at
    ensures var page := (at - gpa) / PAGE * PAGE;
            (gpa + page) % PAGE == 0 && 0 <= page && gpa + page <= at < gpa + page + PAGE
  {
    var page := (at - gpa) / PAGE * PAGE;
    assert page % PAGE == 0;
    AlignedDifference(gpa, page);
  }

  class GuestRam {
    const regions: seq<Region>
    /** What an untouched page reads as: the template, or zero. */
    const base: Ram
    const hostPage: nat
    /** Content of the backed addresses. */
    var bytes: Ram
    /** Addresses of the marked pages. A write from the host marks its page. */
    var marks: set<int>

    /** Writes since `bytes0` and `marks0` have marked their pages. */
    ghost predicate Tracked(bytes0: Ram, marks0: set<int>)
      reads this
    {
      Tracks(bytes0, marks0, bytes, marks)
    }

    ghost predicate Valid()
      reads this
    {
      && WellLaid(regions) && base.Keys == bytes.Keys
      && hostPage > 0 && hostPage % PAGE == 0
      && forall a :: a in bytes <==> Covered(regions, a)
    }

    /** RAM mapped over `base`, none of it written yet. */
    constructor (regions: seq<Region>, base: Ram, hostPage: nat)
      requires WellLaid(regions) && hostPage > 0 && hostPage % PAGE == 0
      requires forall a :: a in base <==> Covered(regions, a)
      ensures Valid() && this.regions == regions && this.base == base && this.hostPage == hostPage
      ensures bytes == base && marks == {}
    {
      this.regions, this.base, this.hostPage := regions, base, hostPage;
      bytes, marks := base, {};
    }

    /** Index of the region covering `a`. */
    method FindRegion(a: int) returns (r: Option<nat>)
      requires Valid()
      ensures r.Some? <==> a in bytes
      ensures r.Some? ==> r.value < |regions| && regions[r.value].Covers(a)
    {
      for i := 0 to |regions|
        invariant forall k :: 0 <= k < i ==> !regions[k].Covers(a)
      {
        if regions[i].Covers(a) {
          return Some(i);
        }
      }
      r := None;
    }

    /** Mark the pages logged in the region at `gpa`, one set bit after
        another. */
    method Mark(gpa: nat, words: seq<nat>) returns (ok: bool)
      requires Valid() && forall i :: 0 <= i < |words| ==> words[i] < Pow2(WORD)
      modifies this`marks
      ensures ok <==> exists i :: 0 <= i < |regions| && regions[i].gpa == gpa
      ensures !ok ==> marks == old(marks)
      ensures forall i :: ok && 0 <= i < |regions| && regions[i].gpa == gpa ==>
                            forall p :: p in marks <==> p in old(marks) || Logged(regions[i], words, p)
    {
      var found := FindRegion(gpa);
      if found.None? || regions[found.value].gpa != gpa {
        return false;
      }
      var region := regions[found.value];
      var index := 0;
      ScanStart(marks, region, words);
      while index < |words|
        invariant 0 <= index <= |words|
        invariant MarkedSoFar(old(marks), marks, region, words, index, if index < |words| then words[index] else 0)
      {
        hide MarkedSoFar;
        var left := words[index];
        while left != 0
          invariant MarkedSoFar(old(marks), marks, region, words, index, left)
          invariant BitsWithin(left, words[index])
          decreases left
        {
          var bit := TrailingZeros(left);
          ScanStep(old(marks), marks, region, words, index, left);
          left := And(left, left - 1);
          var at := (index * WORD + bit) * PAGE;
          if at < region.size {
            marks := marks + {region.gpa + at};
          }
        }
        ScanWordDone(old(marks), marks, region, words, index);
        index := index + 1;
      }
      ScanDone(old(marks), marks, region, words);
      ok := true;
    }

    /** Whether any page in `count` bytes from `gpa` is marked, as far as they
        are backed without a gap. */
    method Written(gpa: nat, count: nat) returns (r: bool)
      requires Valid()
      ensures r <==> exists a :: gpa <= a < gpa + count && Reaches(bytes, gpa, a) && PageOf(a) in marks
    {
      var end := gpa + count;
      var at := gpa;
      while at < end
        invariant gpa <= at <= end && Holds(bytes, gpa, at - gpa)
        invariant forall a :: gpa <= a < at ==> PageOf(a) !in marks
      {
        var found := FindRegion(at);
        if found.None? {
          assert forall a :: Reaches(bytes, gpa, a) ==> a < at;
          return false;
        }
        var region := regions[found.value];
        var stop := if end < region.gpa + region.size then end else region.gpa + region.size;
        var hit := AnyMarked(region, at, stop);
        assert forall a :: at <= a < stop ==> a in bytes by {
          assert forall a :: at <= a < stop ==> region.Covers(a);
        }
        if hit {
          var a :| at <= a < stop && PageOf(a) in marks;
          assert Reaches(bytes, gpa, a);
          return true;
        }
        at := stop;
      }
      r := false;
    }

    /** The pages of one region from that of `at` to before `stop`. */
    method AnyMarked(region: Region, at: nat, stop: nat) returns (r: bool)
      requires region.gpa % PAGE == 0 && region.Covers(at) && at < stop <= region.gpa + region.size
      ensures r <==> exists a :: at <= a < stop && PageOf(a) in marks
    {
      var page := (at - region.gpa) / PAGE * PAGE;
      PageStart(region.gpa, at);
      while region.gpa + page < stop
        invariant (region.gpa + page) % PAGE == 0 && at < region.gpa + page + PAGE
        invariant forall a :: at <= a < stop && a < region.gpa + page ==> PageOf(a) !in marks
      {
        hide PageOf;
        ghost var first := if at < region.gpa + page then region.gpa + page else at;
        OnePage(region.gpa + page, PAGE);
        assert PageOf(first) == region.gpa + page && at <= first < stop;
        if region.gpa + page in marks {
          return true;
        }
        AlignedDifference(region.gpa + page, PAGE);
        page := page + PAGE;
      }
      r := false;
    }

    /** Drop the pages from `at` on within its region, at most to `end`. */
    method DropInRegion(at: nat, end: nat) returns (dropped: bool, stop: nat)
      requires Valid() && at < end && at % PAGE == 0 && end % PAGE == 0 && Holds(bytes, at, end - at)
      modifies this
      ensures Valid() && at < stop <= end && stop % PAGE == 0
      ensures dropped ==> bytes == Dropped(old(bytes), base, at, stop - at) &&
                          marks == old(marks) - Pages(at, stop - at)
      ensures !dropped ==> bytes == old(bytes) && marks == old(marks)
    {
      hide Dropped, Pages;
      var found := FindRegion(at);
      var region := regions[found.value];
      stop := if end < region.gpa + region.size then end else region.gpa + region.size;
      if stop < end {
        assert Covered(regions, stop);
        NextRegionAligned(regions, found.value, stop);
      }
      dropped := *;
      if dropped {
        bytes := Dropped(bytes, base, at, stop - at);
        marks := marks - Pages(at, stop - at);
      }
    }

    /** Drop the host pages behind a range of whole ones, which then read as
        the base, and clear their marks with them. A page which could not be
        dropped ends it, with the first `done` bytes dropped. */
    method Discard(gpa: nat, count: nat) returns (ok: bool, ghost done: nat)
      requires Valid()
      modifies this
      ensures Valid()
      ensures done <= count && done % PAGE == 0 && (done > 0 ==> gpa % PAGE == 0)
      ensures ok ==> done == count && Holds(old(bytes), gpa, count) && WholePages(gpa, count, hostPage)
      ensures !Holds(old(bytes), gpa, count) || !WholePages(gpa, count, hostPage) ==> done == 0
      ensures bytes == Dropped(old(bytes), base, gpa, done)
      ensures marks == old(marks) - Pages(gpa, done)
    {
      done := 0;
      DroppedNothing(bytes, base, gpa);
      AlignedTo(gpa, count, hostPage);
      hide Dropped, Pages, WholePages, Covered, WellLaid, Holds;
      if !WholePages(gpa, count, hostPage) || !Holds(bytes, gpa, count) {
        return false, 0;
      }
      var end := gpa + count;
      AlignedDifference(gpa, count);
      var at := gpa;
      while at < end
        invariant gpa <= at <= end && at % PAGE == 0 && done % PAGE == 0 && done == at - gpa && Valid()
        invariant bytes == Dropped(old(bytes), base, gpa, done)
        invariant marks == old(marks) - Pages(gpa, done)
      {
        HoldsRest(old(bytes), bytes, gpa, count, done);
        var dropped, stop := DropInRegion(at, end);
        if !dropped {
          return false, done;
        }
        DroppedOn(old(bytes), base, old(marks), gpa, done, stop - at);
        AlignedDifference(stop, gpa);
        at := stop;
        done := at - gpa;
      }
      ok := true;
    }

    /** The bytes there. A range crossing a gap is refused. */
    method Read(gpa: nat, count: nat) returns (r: Option<seq<Byte>>)
      ensures r == if Holds(bytes, gpa, count) then Some(Load(bytes, gpa, count)) else None
    {
      r := if Holds(bytes, gpa, count) then Some(Load(bytes, gpa, count)) else None;
    }

    /** Write `data`. A range crossing a gap is refused once the bytes before the
        gap are written. */
    method Write(gpa: nat, data: seq<Byte>) returns (ok: bool)
      modifies this
      ensures ok == Holds(old(bytes), gpa, |data|)
      ensures ok ==> bytes == Store(old(bytes), gpa, data)
      ensures bytes == Store(old(bytes), gpa, data[..Backed(old(bytes), gpa, |data|)])
      ensures marks == old(marks) + Pages(gpa, Backed(old(bytes), gpa, |data|))
      ensures Tracked(old(bytes), old(marks))
    {
      var n := Backed(bytes, gpa, |data|);
      ok := n == |data|;
      assert ok ==> data[..n] == data;
      bytes := Store(bytes, gpa, data[..n]);
      marks := marks + Pages(gpa, n);
    }

    /** Read up to `count` bytes from `source` into RAM at `gpa`. One call may
        take fewer, and takes none only if none are left or asked for. A failure
        may come after some of them. */
    method FillFrom(gpa: nat, source: File, count: nat) returns (r: Option<nat>, ghost piece: seq<Byte>)
      requires source.Valid()
      modifies this, source`at
      ensures source.Valid() && |piece| <= count && source.at == old(source.at) + |piece|
      ensures piece == source.content[old(source.at)..source.at] && Holds(old(bytes), gpa, |piece|)
      ensures bytes == Store(old(bytes), gpa, piece) && Tracked(old(bytes), old(marks))
      ensures r.Some? ==> r.value == |piece|
      ensures r == Some(0) ==> count == 0 || source.at == |source.content|
      ensures count > 0 && gpa !in old(bytes) ==> r.None?
    {
      StoreNothing(bytes, gpa);
      TracksSelf(bytes, marks);
      hide Store, Tracks;
      piece := [];
      var room := Backed(bytes, gpa, count);
      if room == 0 && count > 0 {
        return None, piece;
      }
      var some := source.Read(room);
      if some.None? {
        return None, piece;
      }
      piece := some.value;
      var wrote := Write(gpa, some.value);
      assert wrote;
      var failed: bool := *;
      r := if failed then None else Some(|some.value|);
    }

    /** One more read of those which fill RAM at `gpa`, after `filled` bytes. */
    method FillMore(gpa: nat, source: File, filled: nat, count: nat, ghost bytes0: Ram, ghost marks0: set<int>,
                    ghost start: nat)
      returns (r: Option<nat>)
      requires Valid() && source.Valid() && filled < count && source.at == start + filled
      requires Tracks(bytes0, marks0, bytes, marks)
      requires bytes == Store(bytes0, gpa, source.content[start..source.at])
      modifies this, source`at
      ensures Valid() && source.Valid() && Tracks(bytes0, marks0, bytes, marks)
      ensures r.Some? ==> && filled + r.value <= count && source.at == start + filled + r.value
                          && bytes == Store(bytes0, gpa, source.content[start..source.at])
                          && (r.value == 0 ==> source.at == |source.content|)
    {
      hide Tracks, Store, WellLaid, Covered;
      ghost var more;
      r, more := FillFrom(gpa + filled, source, count - filled);
      TracksOn(bytes0, marks0, old(bytes), old(marks), bytes, marks);
      TracksKeys(old(bytes), old(marks), bytes, marks);
      StoreOn(bytes0, gpa, source.content[start..old(source.at)], more);
      SliceOn(source.content, start, old(source.at), source.at);
    }

    /** Read `count` bytes from `source` into RAM at `gpa`, in as many reads
        as it takes. The count returned is only short once the source has run
        dry. */
    method FillAllFrom(gpa: nat, source: File, count: nat) returns (r: Option<nat>)
      requires Valid() && source.Valid()
      modifies this, source`at
      ensures Valid() && source.Valid() && Tracked(old(bytes), old(marks))
      ensures r.Some? ==> && r.value <= count && source.at == old(source.at) + r.value
                          && bytes == Store(old(bytes), gpa, source.content[old(source.at)..source.at])
                          && (r.value < count ==> source.at == |source.content|)
    {
      var filled := 0;
      TracksSelf(bytes, marks);
      StoreNothing(bytes, gpa);
      assert source.content[source.at..source.at] == [];
      hide Tracks, Store, WellLaid, Covered;
      while filled < count
        invariant filled <= count && Valid() && source.Valid() && source.at == old(source.at) + filled
        invariant Tracks(old(bytes), old(marks), bytes, marks)
        invariant bytes == Store(old(bytes), gpa, source.content[old(source.at)..source.at])
        decreases count - filled
      {
        var taken := FillMore(gpa, source, filled, count, old(bytes), old(marks), old(source.at));
        if taken.None? {
          return None;
        }
        if taken.value == 0 {
          break;
        }
        filled := filled + taken.value;
      }
      r := Some(filled);
    }

    /** Write `count` bytes of RAM at `gpa` to `sink`, or fail with the first
        `done` of them written, none of them past a gap. */
    method DrainTo(gpa: nat, sink: File, count: nat) returns (ok: bool, ghost done: nat)
      requires sink.at + count <= |sink.content|
      modifies sink
      ensures done <= count && sink.at == old(sink.at) + done && (ok ==> done == count) && Holds(bytes, gpa, done)
      ensures sink.content == Spliced(old(sink.content), old(sink.at), Load(bytes, gpa, count)[..done])
    {
      var n := Backed(bytes, gpa, count);
      ok, done := sink.WriteAll(Load(bytes, gpa, count)[..n]);
      assert Load(bytes, gpa, count)[..n][..done] == Load(bytes, gpa, count)[..done];
      ok := ok && n == count;
    }
  }
}

/** A host file of fixed length with its position, as a disk is used. */
module HostFile {
  import opened Wrappers
  import opened Bytes

  /** `s` with `data` laid over it at `at`. */
  function Spliced(s: seq<Byte>, at: nat, data: seq<Byte>): (r: seq<Byte>)
    requires at + |data| <= |s|
    ensures |r| == |s|
  {
    s[..at] + data + s[at + |data|..]
  }

  lemma SplicedNothing(s: seq<Byte>, at: nat)
    requires at <= |s|
    ensures Spliced(s, at, []) == s
  {
  }

  lemma SplicedOn(s: seq<Byte>, at: nat, a: seq<Byte>, b: seq<Byte>)
    requires at + |a| + |b| <= |s|
    ensures Spliced(Spliced(s, at, a), at + |a|, b) == Spliced(s, at, a + b)
  {
  }

  class File {
    var content: seq<Byte>
    var at: nat

    ghost predicate Valid()
      reads this
    {
      at <= |content|
    }

    method SeekTo(to: nat) returns (ok: bool)
      requires Valid() && to <= |content|
      modifies this`at
      ensures Valid() && at == if ok then to else old(at)
    {
      ok := *;
      if ok {
        at := to;
      }
    }

    /** One read: a failure, or up to `count` of the bytes left. */
    method Read(count: nat) returns (r: Option<seq<Byte>>)
      requires Valid()
      modifies this`at
      ensures Valid()
      ensures r.None? ==> at == old(at)
      ensures r.Some? ==> && |r.value| <= count && at == old(at) + |r.value|
                          && r.value == content[old(at)..at]
                          && (r.value == [] ==> count == 0 || at == |content|)
    {
      var left := |content| - at;
      var most := if count <= left then count else left;
      var failed: bool := *;
      if failed {
        return None;
      }
      var taken: nat :| taken <= most && (taken == 0 ==> most == 0);
      r := Some(content[at..at + taken]);
      at := at + taken;
    }

    /** Write all of `data` over the bytes at the position, or fail with the
        first `done` of it written. */
    method WriteAll(data: seq<Byte>) returns (ok: bool, ghost done: nat)
      requires at + |data| <= |content|
      modifies this
      ensures done <= |data| && at == old(at) + done && (ok <==> done == |data|)
      ensures content == Spliced(old(content), old(at), data[..done])
    {
      var wrote: nat :| wrote <= |data|;
      content := content[..at] + data[..wrote] + content[at + wrote..];
      at := at + wrote;
      ok := wrote == |data|;
      done := wrote;
    }

    method SyncData() returns (ok: bool)
    {
      ok := *;
    }
  }
}
