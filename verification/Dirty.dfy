/** The two logs of written pages: the marks of host writes kept with guest
    RAM, and the pages the hypervisor logged for the guest's own stores. Shows
    that together they never miss a page which differs from its base. Models
    the steps src/lingcore/src/mem/mod.rs and src/lingcore/src/machine/mod.rs
    take on them. */
module Dirty {
  import opened Bytes
  import opened Bits
  import opened GuestMemory

  datatype Memory = Memory(bytes: Ram, marks: set<int>, log: set<int>)

  datatype Event =
    | HostWrites(gpa: nat, data: seq<Byte>)
    | GuestStores(gpa: nat, data: seq<Byte>)
    | Discards(gpa: nat, count: nat)
    | Collects(region: Region)

  /** Pages of `region` which are in `log`. */
  function LoggedIn(log: set<int>, region: Region): set<int> {
    set p | p in log && region.Covers(p) && p % PAGE == 0
  }

  /** One step. A host write goes as far as RAM is backed. A store of the guest
      which is not backed, and a discard of parts of pages, change nothing. */
  function After(base: Ram, m: Memory, e: Event): Memory
    requires m.bytes.Keys == base.Keys
  {
    match e
    case HostWrites(gpa, data) =>
      var n := Backed(m.bytes, gpa, |data|);
      m.(bytes := Store(m.bytes, gpa, data[..n]), marks := m.marks + Pages(gpa, n))
    case GuestStores(gpa, data) =>
      if Holds(m.bytes, gpa, |data|)
      then m.(bytes := Store(m.bytes, gpa, data), log := m.log + Pages(gpa, |data|)) else m
    case Discards(gpa, count) =>
      if gpa % PAGE == 0 && count % PAGE == 0 && Holds(m.bytes, gpa, count)
      then m.(bytes := Dropped(m.bytes, base, gpa, count), marks := m.marks - Pages(gpa, count)) else m
    case Collects(region) =>
      m.(marks := m.marks + LoggedIn(m.log, region), log := m.log - LoggedIn(m.log, region))
  }

  /** A backed store of either side is read back, and marks or logs exactly the
      pages it touches. */
  lemma StoresLand(base: Ram, m: Memory, gpa: nat, data: seq<Byte>)
    requires m.bytes.Keys == base.Keys && Holds(m.bytes, gpa, |data|)
    ensures var host, guest := After(base, m, HostWrites(gpa, data)), After(base, m, GuestStores(gpa, data));
            && Load(host.bytes, gpa, |data|) == data && Load(guest.bytes, gpa, |data|) == data
            && host.log == m.log && guest.marks == m.marks
            && (forall p :: p in host.marks <==> p in m.marks || p in Pages(gpa, |data|))
            && (forall p :: p in guest.log <==> p in m.log || p in Pages(gpa, |data|))
  {
    hide Pages, Load, Store, Holds;
    LoadStored(m.bytes, gpa, data, gpa + |data|, 0);
    assert data[..|data|] == data;
  }

  /** Every byte which differs from the base has its page in one of the logs. */
  ghost predicate Faithful(base: Ram, m: Memory) {
    && m.bytes.Keys == base.Keys
    && forall a :: a in m.bytes && m.bytes[a] != base[a] ==> PageOf(a) in m.marks || PageOf(a) in m.log
  }

  /** Whole pages: a byte's page is among those of the range only if the byte
      is in it. */
  lemma WholePageOf(gpa: int, count: nat, a: int)
    requires gpa % PAGE == 0 && count % PAGE == 0 && PageOf(a) in Pages(gpa, count)
    ensures gpa <= a < gpa + count
  {
    var b :| gpa <= b < gpa + count && PageOf(b) == PageOf(a);
    assert gpa == gpa / PAGE * PAGE && gpa + count == (gpa + count) / PAGE * PAGE;
    assert a / PAGE == b / PAGE;
  }

  lemma StepFaithful(base: Ram, m: Memory, e: Event)
    requires Faithful(base, m)
    ensures Faithful(base, After(base, m, e))
  {
    var m' := After(base, m, e);
    if e.Discards? {
      forall a | a in m'.bytes && m'.bytes[a] != base[a]
        ensures PageOf(a) in m'.marks || PageOf(a) in m'.log
      {
        if PageOf(a) in Pages(e.gpa, e.count) && m' != m {
          WholePageOf(e.gpa, e.count, a);
        }
      }
    }
    hide PageOf, Holds;
  }

  function Run(base: Ram, m: Memory, events: seq<Event>): (r: Memory)
    requires m.bytes.Keys == base.Keys
    ensures r.bytes.Keys == base.Keys
  {
    if events == [] then m else After(base, Run(base, m, events[..|events| - 1]), events[|events| - 1])
  }

  /** Over every run from a guest assembled on `base`. */
  lemma {:induction false} RunFaithful(base: Ram, events: seq<Event>)
    ensures Faithful(base, Run(base, Memory(base, {}, {}), events))
  {
    if events != [] {
      var front := events[..|events| - 1];
      RunFaithful(base, front);
      StepFaithful(base, Run(base, Memory(base, {}, {}), front), events[|events| - 1]);
    }
  }

  /** Host writes made through any device keep it. */
  lemma TracksFaithful(base: Ram, m: Memory, m': Memory)
    requires Faithful(base, m) && Tracks(m.bytes, m.marks, m'.bytes, m'.marks) && m'.log == m.log
    ensures Faithful(base, m')
  {
    assert forall a :: a in m'.bytes && m'.bytes[a] != base[a] ==> m'.bytes[a] != m.bytes[a] || m.bytes[a] != base[a];
  }

  /** The log of each region taken in turn, as a dirty image does first. */
  function CollectAll(regions: seq<Region>): (events: seq<Event>)
    ensures |events| == |regions|
  {
    seq(|regions|, i requires 0 <= i < |regions| => Collects(regions[i]))
  }

  lemma {:induction false} CollectRun(base: Ram, m: Memory, regions: seq<Region>)
    requires m.bytes.Keys == base.Keys
    ensures var r := Run(base, m, CollectAll(regions));
            && r.bytes == m.bytes && r.log <= m.log
            && forall k, p :: 0 <= k < |regions| && regions[k].Covers(p) && p % PAGE == 0 ==> p !in r.log
    decreases |regions|
  {
    if regions != [] {
      var front := regions[..|regions| - 1];
      CollectRun(base, m, front);
      assert CollectAll(regions)[..|regions| - 1] == CollectAll(front);
    }
  }

  lemma {:induction false} RunOn(base: Ram, m: Memory, a: seq<Event>, b: seq<Event>)
    requires m.bytes.Keys == base.Keys
    ensures Run(base, m, a + b) == Run(base, Run(base, m, a), b)
    decreases |b|
  {
    hide After;
    if b == [] {
      assert a + b == a;
    } else {
      var n := |a + b| - 1;
      RunOn(base, m, a, b[..|b| - 1]);
      assert (a + b)[..n] == a + b[..|b| - 1] && (a + b)[n] == b[|b| - 1];
    }
  }

  /** A region holds the whole beginning of each page it holds a byte of. */
  lemma PageCovered(regions: seq<Region>, log: set<int>, a: int)
    requires WellLaid(regions) && Covered(regions, a)
    requires forall k, p :: 0 <= k < |regions| && regions[k].Covers(p) && p % PAGE == 0 ==> p !in log
    ensures PageOf(a) !in log
  {
    var k :| 0 <= k < |regions| && regions[k].Covers(a);
    assert regions[k].Covers(PageOf(a)) && PageOf(a) % PAGE == 0;
  }

  /** With none of its pages in the log, a byte off a marked page is the
      base's. */
  lemma CollectedByte(base: Ram, m: Memory, regions: seq<Region>, a: int)
    requires Faithful(base, m) && WellLaid(regions) && Covered(regions, a) && a in base
    requires forall k, p :: 0 <= k < |regions| && regions[k].Covers(p) && p % PAGE == 0 ==> p !in m.log
    ensures PageOf(a) !in m.marks ==> m.bytes[a] == base[a]
  {
    PageCovered(regions, m.log, a);
  }

  /** After any run and one more take of every log, each byte off a marked
      page is the base's. */
  lemma CaptureIsClean(base: Ram, events: seq<Event>, regions: seq<Region>, a: int)
    requires WellLaid(regions) && Covered(regions, a) && a in base
    ensures var m := Run(base, Memory(base, {}, {}), events);
            var r := Run(base, m, CollectAll(regions));
            r.bytes == m.bytes && (PageOf(a) !in r.marks ==> r.bytes[a] == base[a])
  {
    hide Run, After, CollectAll, WellLaid, Covered, Faithful, PageOf;
    var start := Memory(base, {}, {});
    CollectRun(base, Run(base, start, events), regions);
    RunOn(base, start, events, CollectAll(regions));
    RunFaithful(base, events + CollectAll(regions));
    CollectedByte(base, Run(base, start, events + CollectAll(regions)), regions, a);
  }

  // ---- The hypervisor's log as words ----

  /** Bits for `n` pages from `page`, the first page in bit 0. */
  function LogWord(log: set<int>, page: int, n: nat): (w: nat)
    ensures w < Pow2(n)
    decreases n
  {
    if n == 0 then 0 else (if page in log then 1 else 0) + 2 * LogWord(log, page + PAGE, n - 1)
  }

  lemma {:induction false} LogWordBit(log: set<int>, page: int, n: nat, b: nat)
    requires b < n
    ensures Bit(LogWord(log, page, n), b) <==> page + b * PAGE in log
    decreases n
  {
    if b > 0 {
      LogWordBit(log, page + PAGE, n - 1, b - 1);
    }
  }

  /** Page of bit 0 of word `i` in the log of a region at `gpa`. */
  function WordPage(gpa: int, i: nat): int {
    gpa + i * (WORD * PAGE)
  }

  /** Log of the pages of `region`, one bit per page. */
  function LogWords(log: set<int>, region: Region): (words: seq<nat>)
    ensures forall i :: 0 <= i < |words| ==> words[i] < Pow2(WORD)
  {
    seq(region.size / (PAGE * WORD) + 1, i requires i >= 0 => LogWord(log, WordPage(region.gpa, i), WORD))
  }

  lemma WordOf(gpa: int, n: nat, size: nat)
    requires n * PAGE < size
    ensures n / WORD < size / (PAGE * WORD) + 1
    ensures WordPage(gpa, n / WORD) + n % WORD * PAGE == gpa + n * PAGE
  {
  }

  lemma LogWordsBit(log: set<int>, region: Region, n: nat)
    requires n * PAGE < region.size
    ensures LoggedPage(LogWords(log, region), n) <==> region.gpa + n * PAGE in log
  {
    WordOf(region.gpa, n, region.size);
    LogWordBit(log, WordPage(region.gpa, n / WORD), WORD, n % WORD);
    hide Bit, LogWord, Pow2, WordPage;
  }

  lemma LogWordsExact(log: set<int>, region: Region, p: int)
    requires region.gpa % PAGE == 0
    ensures Logged(region, LogWords(log, region), p) <==> p in LoggedIn(log, region)
  {
    if region.Covers(p) && p % PAGE == 0 {
      var n := (p - region.gpa) / PAGE;
      PageNumber(region.gpa, p, n);
      LogWordsBit(log, region, n);
      hide LogWords, LoggedPage;
    }
  }
}
