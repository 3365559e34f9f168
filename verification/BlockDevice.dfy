/** Throttled virtio block device of section 5.2 of virtio 1.2. Models
    src/lingcore/src/devices/virtio/block.rs. */
module BlockDevice {
  import opened Wrappers
  import opened Bytes
  import opened GuestMemory
  import opened HostFile
  import opened ChainWalk
  import opened Virtqueue
  import opened Throttle
  import opened Scatter
  import opened Driver
  import Protocol = ExactlyOnce

  const SECTOR := 512
  const HEADER_SIZE := 16

  const REQUEST_IN := 0
  const REQUEST_OUT := 1
  const REQUEST_FLUSH := 4

  const OK: Byte := 0
  const IOERR: Byte := 1
  const UNSUPPORTED: Byte := 2

  /** Host clock, which never runs back. */
  class Clock {
    var now: real

    method Read() returns (t: real)
      modifies this
      ensures t == now && now >= old(now)
    {
      var passed: real :| passed >= 0.0;
      now := now + passed;
      t := now;
    }
  }

  datatype Header = Header(kind: nat, sector: nat)

  /** Buffers between header and status. */
  function DataOf(chain: Chain): seq<Descriptor>
    requires |chain.descriptors| >= 2
  {
    chain.descriptors[1..|chain.descriptors| - 1]
  }

  /** Address of the status byte, in the writable and non-empty last of at
      least two descriptors. */
  function AnswerIn(chain: Chain): Option<nat> {
    var n := |chain.descriptors|;
    if n < 2 || !chain.descriptors[n - 1].Writable() || chain.descriptors[n - 1].len == 0 then None
    else Some(chain.descriptors[n - 1].addr)
  }

  function HeaderOf(chain: Chain, ram: Ram): Option<Header>
    requires |chain.descriptors| >= 1
  {
    var first := chain.descriptors[0];
    if first.Writable() || first.len < HEADER_SIZE || !Holds(ram, first.addr, HEADER_SIZE) then None
    else Some(Header(FromLittleEndian(Load(ram, first.addr, 4)), FromLittleEndian(Load(ram, first.addr + 8, 8))))
  }

  /** A chain as a driver lays it: a header, the data, and one byte or more for
      the status. */
  lemma ChainParts(head: nat, first: Descriptor, data: seq<Descriptor>, last: Descriptor)
    ensures var chain := Chain(head, [first] + data + [last]);
            && DataOf(chain) == data
            && (AnswerIn(chain) == Some(last.addr) <==> last.Writable() && last.len > 0)
            && (AnswerIn(chain).None? <==> !last.Writable() || last.len == 0)
  {
    var chain := Chain(head, [first] + data + [last]);
    assert chain.descriptors[|chain.descriptors| - 1] == last;
  }

  /** A header as a driver lays it, type and sector in little endian with four
      bytes between, is read as such, from a readable descriptor of 16 bytes or
      more and from no other. */
  lemma HeaderLayout(chain: Chain, ram: Ram, kind: nat, sector: nat)
    requires |chain.descriptors| >= 1 && kind < U32_LIMIT && sector < U64_LIMIT
    requires Holds(ram, chain.descriptors[0].addr, 16)
    ensures var first := chain.descriptors[0];
            var laid := Store(Store(ram, first.addr, LittleEndian(kind, 4)), first.addr + 8, LittleEndian(sector, 8));
            HeaderOf(chain, laid) == if first.Writable() || first.len < 16 then None else Some(Header(kind, sector))
  {
    hide Load, Store, Holds, LittleEndian, FromLittleEndian, Pow256;
    Widths();
    LittleEndianRoundTrip(kind, 4);
    LittleEndianRoundTrip(sector, 8);
    var at := chain.descriptors[0].addr;
    TwoFields(ram, at, LittleEndian(kind, 4), at + 8, LittleEndian(sector, 8), 16);
  }

  /** A buffer of the request is writable where it should be readable, or
      the other way round. */
  predicate WrongWay(data: seq<Descriptor>, intoGuest: bool) {
    exists i :: 0 <= i < |data| && data[i].Writable() != intoGuest
  }

  /** Whether a request of this shape may move data between sectors of a
      disk of `sectors` and the guest, and the status if not. */
  function Refusal(sectors: nat, sector: nat, data: seq<Descriptor>, intoGuest: bool): Option<Byte> {
    if WrongWay(data, intoGuest) then Some(UNSUPPORTED)
    else if Total(data) % SECTOR != 0 then Some(UNSUPPORTED)
    else if sector + Total(data) / SECTOR > sectors then Some(IOERR)
    else None
  }

  /** In bytes: a request moves data exactly if every buffer goes its way, they
      hold whole sectors, and these end within the disk. The first two are
      unsupported, the last an error. */
  lemma RefusalExact(sectors: nat, sector: nat, data: seq<Descriptor>, intoGuest: bool)
    ensures var refused := Refusal(sectors, sector, data, intoGuest);
            var sound := (forall i :: 0 <= i < |data| ==> (data[i].Writable() <==> intoGuest)) &&
                         Total(data) % 512 == 0;
            && (refused == None <==> sound && sector * 512 + Total(data) <= sectors * 512)
            && (refused == Some(2) <==> !sound)
            && (refused == Some(1) <==> sound && sector * 512 + Total(data) > sectors * 512)
  {
    hide Total;
    var length := Total(data);
    assert length % 512 == 0 ==> length == length / 512 * 512;
  }

  /** `s'` is `s` with some of `data`, from its start, laid over it at `at`. */
  ghost predicate LaidOn(s: seq<Byte>, at: nat, data: seq<Byte>, s': seq<Byte>)
    requires at + |data| <= |s|
  {
    exists n :: 0 <= n <= |data| && s' == Spliced(s, at, data[..n])
  }

  /** What serving one request has done to RAM and disk. A request is a read,
      a write unless the disk is read-only, or a flush; any other fails. */
  ghost predicate RequestDone(sectors: nat, writable: bool, header: Option<Header>, data: seq<Descriptor>,
                              ram: Ram, disk: seq<Byte>, ram': Ram, disk': seq<Byte>, status: Byte, written: nat)
  {
    match header
    case None => status == UNSUPPORTED && written == 0 && ram' == ram && disk' == disk
    case Some(h) =>
      if h.kind == REQUEST_IN then
        && disk' == disk && OnlyInto(ram, ram', data)
        && match Refusal(sectors, h.sector, data, true)
           case Some(refused) => status == refused && written == 0 && ram' == ram
           case None =>
             if status == OK then ReadDone(h.sector, data, ram, disk, ram', written)
             else status == IOERR && ReadBroken(h.sector, data, ram, disk, ram', written)
      else if h.kind == REQUEST_OUT && writable then
        && ram' == ram && written == 0
        && match Refusal(sectors, h.sector, data, false)
           case Some(refused) => status == refused && disk' == disk
           case None => WriteDone(h.sector, data, ram, disk, disk', status)
      else
        && ram' == ram && disk' == disk && written == 0
        && (if h.kind == REQUEST_OUT then status == IOERR
            else if h.kind == REQUEST_FLUSH then status == OK || status == IOERR
            else status == UNSUPPORTED)
  }

  /** An accepted read laid the slice of the disk across the buffers. */
  ghost predicate ReadDone(sector: nat, data: seq<Descriptor>, ram: Ram, disk: seq<Byte>, ram': Ram, written: nat) {
    var at := sector * SECTOR;
    && at + Total(data) <= |disk|
    && ram' == Scattered(ram, data, disk[at..at + Total(data)])
    && written == Total(data) % U32_LIMIT
  }

  /** A read which failed laid the start of the slice: across the first `n`
      buffers, which are counted, and over the start of the next. */
  ghost predicate ReadBroken(sector: nat, data: seq<Descriptor>, ram: Ram, disk: seq<Byte>, ram': Ram, written: nat) {
    exists n: nat, m: nat :: BrokenAt(sector * SECTOR, data, ram, disk, ram', written, n, m)
  }

  ghost predicate BrokenAt(at: nat, data: seq<Descriptor>, ram: Ram, disk: seq<Byte>, ram': Ram, written: nat,
                           n: nat, m: nat) {
    && n <= |data| && m <= (if n < |data| then data[n].len else 0) && at + Total(data[..n]) + m <= |disk|
    && var whole, end := Scattered(ram, data[..n], disk[at..at + Total(data[..n])]), at + Total(data[..n]);
    && ram' == (if n < |data| then Store(whole, data[n].addr, disk[end..end + m]) else whole)
    && written == Total(data[..n]) % U32_LIMIT
  }

  /** An accepted write changed exactly that slice to what the buffers hold,
      or to the start of it if the disk failed. */
  ghost predicate WriteDone(sector: nat, data: seq<Descriptor>, ram: Ram, disk: seq<Byte>, disk': seq<Byte>,
                            status: Byte) {
    var at := sector * SECTOR;
    && at + Total(data) <= |disk|
    && LaidOn(disk, at, Gathered(ram, data), disk')
    && (status == IOERR || (status == OK && disk' == Spliced(disk, at, Gathered(ram, data))))
  }

  /** Queue, RAM and disk between two chains. */
  datatype Moment = Moment(queue: QueueState, ram: Ram, disk: seq<Byte>)

  /** `chain`, taken from the queue of `m`, was served, its status byte written
      and the chain reported as used, which came out as `r`. */
  ghost predicate Answered(sectors: nat, writable: bool, chain: Chain, m: Moment, m': Moment,
                           r: Result<(), Error>, len: nat) {
    && AnswerIn(chain).Some?
    && exists ram: Ram, status: Byte, written: nat ::
         && RequestDone(sectors, writable, HeaderOf(chain, m.ram), DataOf(chain), m.ram, m.disk, ram, m'.disk,
                        status, written)
         && Reported(m.queue, Store(ram, AnswerIn(chain).value, [status]), chain.head, written, m', r, len)
  }

  ghost predicate Reported(q: QueueState, ram: Ram, head: nat, written: nat, m: Moment, r: Result<(), Error>,
                           len: nat) {
    && q.rings.size > 0 && len == (written + 1) % U32_LIMIT
    && AfterUsed(q, ram, head, len) == Added(m.queue, m.ram, r)
  }

  /** A chain decided between `m` and `m'` was the one popped next. Served it was
      answered, and refused it is malformed or has no status byte, and nothing
      but the cursor moved. */
  ghost predicate Handled(sectors: nat, writable: bool, m: Moment, m': Moment, fate: Protocol.Fate) {
    && m.queue.rings.size > 0
    && var popped := AfterPop(m.queue, m.ram);
    match fate
    case Served(len) =>
      && popped.outcome.Ok? && popped.outcome.value.Some?
      && Answered(sectors, writable, popped.outcome.value.value, m.(queue := popped.queue), m', Ok(()), len)
    case Refused =>
      && m' == m.(queue := popped.queue)
      && (popped.outcome.Ok? ==> popped.outcome.value.Some? && AnswerIn(popped.outcome.value.value).None?)
  }

  /** One pass of the device over rings of any content: the ring is empty, the
      chain is malformed or has no status byte, it is held for later, or it is
      answered. Only the last may change RAM or disk. */
  ghost predicate Passed(sectors: nat, writable: bool, m: Moment, m': Moment, r: Result<(), Error>, more: bool,
                         held: bool, len: nat) {
    && m.queue.rings.size > 0
    && var popped := AfterPop(m.queue, m.ram);
    match popped.outcome
    case Err(e) => r == Err(e) && !more && !held && m' == m.(queue := popped.queue)
    case Ok(None) => r == Ok(()) && !more && !held && m' == m
    case Ok(Some(chain)) =>
      if AnswerIn(chain).None? then r == Err(Request) && !more && !held && m' == m.(queue := popped.queue)
      else if held then r == Ok(()) && !more && m' == m
      else more == r.Ok? && Answered(sectors, writable, chain, m.(queue := popped.queue), m', r, len)
  }

  // ---- What the limiter is asked ----

  /** The chain popped next is a request with a place for its status. */
  ghost predicate AsksFor(m: Moment) {
    && m.queue.rings.size > 0
    && var outcome := AfterPop(m.queue, m.ram).outcome;
    outcome.Ok? && outcome.value.Some? && AnswerIn(outcome.value.value).Some?
  }

  /** Bytes it moves. */
  ghost function Payload(m: Moment): nat {
    if AsksFor(m) then Total(DataOf(AfterPop(m.queue, m.ram).outcome.value.value)) else 0
  }

  /** State of the limiter, `None` for a disk without one, and of the clock. */
  datatype Meter = Meter(limits: Option<Limits>, now: real)

  /** Only a request is put to the limiter, with all its bytes, and is held
      exactly if the limiter refuses it, until the wait returned is over. */
  ghost predicate Weighed(m: Moment, before: Meter, after: Meter, ask: Ask, due: Option<real>) {
    && before.now <= after.now
    && if !AsksFor(m) || before.limits.None? then after.limits == before.limits && due == None
       else
         && GoodLimits(before.limits.value)
         && before.now <= ask.t <= ask.u <= after.now && ask.bytes == Payload(m)
         && var asked := AfterAsk(before.limits.value, ask);
         && after.limits == Some(asked.limits)
         && due == if asked.wait.Some? then Some(after.now + asked.wait.value) else None
  }

  /** Chains served among those decided after the first `n`. */
  ghost function ServedIn(decided: seq<Protocol.Fate>, n: nat): nat {
    if |decided| <= n then 0
    else
      var last := |decided| - 1;
      ServedIn(decided[..last], n) + if decided[last].Served? then 1 else 0
  }

  /** Bytes they move, each from the moment it was taken at. */
  ghost function BytesIn(moments: seq<Moment>, decided: seq<Protocol.Fate>, n: nat): nat {
    if |decided| <= n || |moments| < |decided| - n then 0
    else
      var last := |decided| - 1;
      BytesIn(moments, decided[..last], n) + if decided[last].Served? then Payload(moments[last - n]) else 0
  }

  /** The limiter has gone by `asks`, and what it let through is what was served. */
  ghost predicate Metered(first: Meter, last: Meter, asks: seq<Ask>, moments: seq<Moment>,
                          fates: seq<Protocol.Fate>, decided: seq<Protocol.Fate>) {
    && (first.limits.None? <==> last.limits.None?)
    && (first.limits.Some? && FilledBy(first.limits.value, first.now) ==>
          && InTime(first.limits.value, asks) && last.limits.value == AfterAsks(first.limits.value, asks)
          && FilledBy(last.limits.value, last.now)
          && LetBytes(first.limits.value, asks) == BytesIn(moments, decided, |fates|)
          && LetRequests(first.limits.value, asks) == ServedIn(decided, |fates|))
  }

  lemma MeteredNone(first: Meter, m: Moment, fates: seq<Protocol.Fate>)
    requires first.limits.Some? ==> GoodLimits(first.limits.value)
    ensures Metered(first, first, [], [m], fates, fates)
  {
  }

  lemma {:induction false} BytesInMore(moments: seq<Moment>, m: Moment, decided: seq<Protocol.Fate>, n: nat)
    requires |decided| <= n + |moments|
    ensures BytesIn(moments + [m], decided, n) == BytesIn(moments, decided, n)
    decreases |decided|
  {
    hide Payload;
    if n < |decided| {
      BytesInMore(moments, m, decided[..|decided| - 1], n);
    }
  }

  /** A chain decided counts exactly if it was served. */
  lemma DecidedMore(moments: seq<Moment>, m: Moment, fates: seq<Protocol.Fate>, was: seq<Protocol.Fate>,
                    fate: Protocol.Fate)
    requires |fates| <= |was| && |moments| == |was| - |fates| + 1
    ensures var served := fate.Served?;
            && ServedIn(was + [fate], |fates|) == ServedIn(was, |fates|) + (if served then 1 else 0)
            && BytesIn(moments + [m], was + [fate], |fates|) ==
               BytesIn(moments, was, |fates|) + (if served then Payload(moments[|moments| - 1]) else 0)
  {
    hide Payload;
    assert (was + [fate])[..|was|] == was;
    BytesInMore(moments, m, was, |fates|);
    assert (moments + [m])[|was| - |fates|] == moments[|moments| - 1];
  }

  /** Over one pass the chain is decided as served exactly if it was asked for
      and let through. */
  ghost predicate Counts(m: Moment, held: bool, was: seq<Protocol.Fate>, decided: seq<Protocol.Fate>) {
    if decided == was then AsksFor(m) ==> held
    else
      && |decided| == |was| + 1 && was <= decided && !held
      && (decided[|was|].Served? <==> AsksFor(m))
  }

  /** So what the disk moves on a notify is within the rate of its limiter. */
  lemma MovedWithinRate(first: Meter, last: Meter, asks: seq<Ask>, moments: seq<Moment>, fates: seq<Protocol.Fate>,
                        decided: seq<Protocol.Fate>, most: nat)
    requires Metered(first, last, asks, moments, fates, decided)
    requires first.limits.Some? && FilledBy(first.limits.value, first.now)
    requires forall i :: 0 <= i < |asks| ==> asks[i].bytes <= most
    requires var b := first.limits.value.bytes; b.Some? ==> Floor(b.value.rate, most) <= b.value.held
    requires var b := first.limits.value.requests; b.Some? ==> 0.0 <= b.value.held
    ensures first.limits.value.bytes.Some? ==>
              var b, after := first.limits.value.bytes.value, last.limits.value.bytes;
              var oversize := if most > b.rate then (most - b.rate) as real else 0.0;
              && after.Some?
              && BytesIn(moments, decided, |fates|) as real <=
                 b.rate as real + Earned(b.rate, after.value.filled - b.filled) + oversize
    ensures first.limits.value.requests.Some? ==>
              var b, after := first.limits.value.requests.value, last.limits.value.requests;
              && after.Some?
              && ServedIn(decided, |fates|) as real <= b.rate as real + Earned(b.rate, after.value.filled - b.filled)
  {
    hide InTime, AfterAsks, LetBytes, LetRequests, BytesIn, ServedIn, Earned;
    if first.limits.value.bytes.Some? {
      DiskBytesBound(first.limits.value, asks, most);
    }
    if first.limits.value.requests.Some? {
      DiskRequestsBound(first.limits.value, asks);
    }
  }

  lemma HeldByLimiter(m: Moment, before: Meter, after: Meter, ask: Ask, due: Option<real>)
    requires Weighed(m, before, after, ask, due)
    ensures before.limits.None? ==> due == None
  {
  }

  lemma MeteredMore(first: Meter, last: Meter, next: Meter, ask: Ask, due: Option<real>, asks: seq<Ask>,
                    moments: seq<Moment>, m: Moment, fates: seq<Protocol.Fate>, was: seq<Protocol.Fate>,
                    decided: seq<Protocol.Fate>) returns (more: seq<Ask>)
    requires Metered(first, last, asks, moments, fates, was)
    requires |fates| <= |was| && |moments| == |was| - |fates| + 1
    requires Weighed(moments[|moments| - 1], last, next, ask, due)
    requires Counts(moments[|moments| - 1], due.Some?, was, decided)
    ensures Metered(first, next, more, if decided == was then moments else moments + [m], fates, decided)
  {
    hide AsksFor, Payload, InTime, AfterAsks, LetBytes, LetRequests, AfterAsk, BytesIn, ServedIn, GoodLimits;
    var now := moments[|moments| - 1];
    if decided != was {
      DecidedMore(moments, m, fates, was, decided[|was|]);
      assert decided == was + [decided[|was|]];
    }
    more := asks;
    if AsksFor(now) && last.limits.Some? {
      more := asks + [ask];
      if FilledBy(first.limits.value, first.now) {
        AskOn(first.limits.value, asks, ask);
      }
    }
  }

  /** A request stores only into the buffers of its data. */
  lemma RequestInto(sectors: nat, writable: bool, header: Option<Header>, data: seq<Descriptor>, ram: Ram,
                    disk: seq<Byte>, ram': Ram, disk': seq<Byte>, status: Byte, written: nat)
    requires RequestDone(sectors, writable, header, data, ram, disk, ram', disk', status, written)
    ensures OnlyInto(ram, ram', data)
  {
    hide ReadDone, ReadBroken, WriteDone, Refusal;
    IntoNothing(ram, data);
    hide OnlyInto;
  }

  /** Answering the chain in hand can not fail, and decides it as served. */
  lemma AnswerServes(sectors: nat, writable: bool, chain: Chain, m: Moment, m': Moment, r: Result<(), Error>, len: nat,
                     published: seq<nat>, fates: seq<Protocol.Fate>)
    requires Held(m.queue, m.ram, published, fates, chain)
    requires Answered(sectors, writable, chain, m, m', r, len)
    ensures r == Ok(()) && Serving(m'.queue, m'.ram, published, fates + [Protocol.Served(len)])
  {
    hide Held, Serving, RequestDone, OnlyInto, AfterUsed, HeaderOf, Store;
    var ram: Ram, status: Byte, written: nat :|
      && RequestDone(sectors, writable, HeaderOf(chain, m.ram), DataOf(chain), m.ram, m.disk, ram, m'.disk,
                     status, written)
      && Reported(m.queue, Store(ram, AnswerIn(chain).value, [status]), chain.head, written, m', r, len);
    RequestInto(sectors, writable, HeaderOf(chain, m.ram), DataOf(chain), m.ram, m.disk, ram, m'.disk, status, written);
    IntoAll(m.ram, ram, chain);
    IntoMore(m.ram, ram, chain.descriptors, |chain.descriptors| - 1, [status]);
    FillHolds(m.queue, m.ram, Store(ram, AnswerIn(chain).value, [status]), published, fates, chain);
    FinishServes(m.queue, Store(ram, AnswerIn(chain).value, [status]), published, fates, chain, len);
  }

  /** What one pass does to the chains of a driver which keeps to the rules. */
  ghost predicate Decides(sectors: nat, writable: bool, m: Moment, m': Moment, r: Result<(), Error>, more: bool,
                          held: bool, published: seq<nat>, fates: seq<Protocol.Fate>, decided: seq<Protocol.Fate>) {
    && (decided == fates || (|decided| == |fates| + 1 && fates <= decided)) && |decided| <= |published|
    && (|fates| < |decided| ==> Handled(sectors, writable, m, m', decided[|fates|]))
    && (more ==> r.Ok? && !held && |fates| < |decided| && decided[|fates|].Served?)
    && (r.Err? ==> !more && |fates| < |decided| && decided[|fates|].Refused?)
    && (r.Ok? && !more ==> decided == fates && m' == m && (held <==> |fates| < |published|))
    && Counts(m, held, fates, decided)
  }

  /** Under the driver's rules a pass keeps the protocol's invariant, and decides
      the next chain unless there is none or it is held. */
  lemma PassServes(sectors: nat, writable: bool, m: Moment, m': Moment, r: Result<(), Error>, more: bool, held: bool,
                   len: nat, published: seq<nat>, fates: seq<Protocol.Fate>)
    returns (decided: seq<Protocol.Fate>)
    requires Serving(m.queue, m.ram, published, fates)
    requires Passed(sectors, writable, m, m', r, more, held, len)
    ensures Serving(m'.queue, m'.ram, published, decided)
    ensures Decides(sectors, writable, m, m', r, more, held, published, fates, decided)
  {
    hide Held, Serving, AfterPop, Answered;
    PopServes(m.queue, m.ram, published, fates);
    var popped := AfterPop(m.queue, m.ram);
    decided := fates;
    match popped.outcome {
      case Err(_) =>
        decided := fates + [Protocol.Refused];
      case Ok(None) =>
      case Ok(Some(chain)) =>
        if AnswerIn(chain).None? {
          RefuseServes(popped.queue, m.ram, published, fates, chain);
          decided := fates + [Protocol.Refused];
        } else if !held {
          AnswerServes(sectors, writable, chain, m.(queue := popped.queue), m', r, len, published, fates);
          decided := fates + [Protocol.Served(len)];
        }
    }
    ServingCursor(m'.queue, m'.ram, published, decided);
  }

  /** From `first` to `last` one chain after another was handled, each on from
      where the one before left off, and decided in turn. */
  ghost predicate HandledSince(sectors: nat, writable: bool, moments: seq<Moment>, first: Moment, last: Moment,
                               fates: seq<Protocol.Fate>, decided: seq<Protocol.Fate>)
  {
    && fates <= decided && |moments| == |decided| - |fates| + 1
    && moments[0] == first && moments[|moments| - 1] == last
    && forall k :: |fates| <= k < |decided| ==>
                     Handled(sectors, writable, moments[k - |fates|], moments[k - |fates| + 1], decided[k])
  }

  lemma HandledNone(sectors: nat, writable: bool, m: Moment, fates: seq<Protocol.Fate>)
    ensures HandledSince(sectors, writable, [m], m, m, fates, fates)
  {
  }

  lemma HandledMore(sectors: nat, writable: bool, moments: seq<Moment>, first: Moment, last: Moment, m: Moment,
                    fates: seq<Protocol.Fate>, decided: seq<Protocol.Fate>, more: seq<Protocol.Fate>)
    requires HandledSince(sectors, writable, moments, first, last, fates, decided)
    requires decided <= more && |more| == |decided| + 1 && Handled(sectors, writable, last, m, more[|decided|])
    ensures HandledSince(sectors, writable, moments + [m], first, m, fates, more)
  {
    hide Handled;
    var longer := moments + [m];
    forall k | |fates| <= k < |more|
      ensures Handled(sectors, writable, longer[k - |fates|], longer[k - |fates| + 1], more[k])
    {
      if k < |decided| {
        assert longer[k - |fates|] == moments[k - |fates|] && longer[k - |fates| + 1] == moments[k - |fates| + 1];
      }
    }
  }

  /** Requests by their number: 0 reads and leaves the disk, 1 writes and leaves the
      guest, refused by a read-only disk, 4 flushes and changes nothing, and any
      other is unsupported. */
  lemma RequestKinds(sectors: nat, writable: bool, h: Header, data: seq<Descriptor>, ram: Ram, disk: seq<Byte>,
                     ram': Ram, disk': seq<Byte>, status: Byte, written: nat)
    requires RequestDone(sectors, writable, Some(h), data, ram, disk, ram', disk', status, written)
    ensures h.kind != 0 ==> ram' == ram && written == 0
    ensures h.kind != 1 || !writable ==> disk' == disk
    ensures h.kind == 1 && !writable ==> status == 1
    ensures h.kind == 4 ==> status == 0 || status == 1
    ensures h.kind != 0 && h.kind != 1 && h.kind != 4 ==> status == 2
    ensures h.kind == 0 && status == 0 ==> ReadDone(h.sector, data, ram, disk, ram', written)
    ensures h.kind == 1 && status == 0 ==> WriteDone(h.sector, data, ram, disk, disk', status)
  {
    hide ReadDone, ReadBroken, WriteDone, OnlyInto;
    RefusalExact(sectors, h.sector, data, true);
    RefusalExact(sectors, h.sector, data, false);
    hide Refusal, Total;
  }

  /** What was written is what a later read of the same sectors returns,
      however the buffers of either are split. */
  lemma WriteThenRead(sector: nat, out: seq<Descriptor>, into: seq<Descriptor>, ram: Ram, disk: seq<Byte>,
                      disk': seq<Byte>, ram1: Ram, ram2: Ram, written: nat)
    requires WriteDone(sector, out, ram, disk, disk', OK)
    requires ReadDone(sector, into, ram1, disk', ram2, written)
    requires Total(into) == Total(out) && PairwiseApart(into) && AllBacked(ram1, into)
    ensures Gathered(ram2, into) == Gathered(ram, out)
  {
    var at := sector * SECTOR;
    ScatterGather(ram1, into, disk'[at..at + Total(into)]);
    assert disk'[at..at + Total(out)] == Gathered(ram, out);
  }

  /** The first `n` buffers hold the start of the slice from `start`, and the
      disk is read on at `at`. */
  ghost predicate FilledTo(start: nat, data: seq<Descriptor>, n: nat, ram: Ram, disk: seq<Byte>, at: nat, ram': Ram) {
    && n <= |data| && at == start + Total(data[..n]) <= |disk|
    && ram' == Scattered(ram, data[..n], disk[start..at])
  }

  lemma FilledNone(start: nat, data: seq<Descriptor>, ram: Ram, disk: seq<Byte>)
    requires start <= |disk|
    ensures FilledTo(start, data, 0, ram, disk, start, ram) && Total(data[..0]) == 0
  {
    assert data[..0] == [] && disk[start..start] == [];
  }

  lemma FilledMore(start: nat, data: seq<Descriptor>, n: nat, ram: Ram, disk: seq<Byte>, at: nat, ram': Ram,
                   piece: seq<Byte>)
    requires n < |data| && FilledTo(start, data, n, ram, disk, at, ram')
    requires |piece| == data[n].len && at + |piece| <= |disk| && piece == disk[at..at + |piece|]
    ensures FilledTo(start, data, n + 1, ram, disk, at + |piece|, Store(ram', data[n].addr, piece))
  {
    hide Scattered, Total, Store;
    ScatteredNext(ram, data, n, disk[start..at], piece);
    SliceOn(disk, start, at, at + |piece|);
  }

  lemma BrokenHere(start: nat, data: seq<Descriptor>, n: nat, ram: Ram, disk: seq<Byte>, at: nat, ram': Ram,
                   piece: seq<Byte>)
    requires n < |data| && FilledTo(start, data, n, ram, disk, at, ram')
    requires |piece| <= data[n].len && at + |piece| <= |disk| && piece == disk[at..at + |piece|]
    ensures BrokenAt(start, data, ram, disk, Store(ram', data[n].addr, piece), Total(data[..n]) % U32_LIMIT, n, |piece|)
  {
    hide Scattered, Total, Store;
  }

  lemma FilledAll(sector: nat, data: seq<Descriptor>, ram: Ram, disk: seq<Byte>, at: nat, ram': Ram)
    requires FilledTo(sector * SECTOR, data, |data|, ram, disk, at, ram')
    ensures Total(data[..|data|]) == Total(data)
    ensures ReadDone(sector, data, ram, disk, ram', Total(data) % U32_LIMIT)
  {
    hide Scattered, Total;
    assert data[..|data|] == data;
  }

  lemma CountNext(data: seq<Descriptor>, i: nat)
    requires i < |data|
    ensures (Total(data[..i]) % U32_LIMIT + data[i].len) % U32_LIMIT == Total(data[..i + 1]) % U32_LIMIT
  {
    GatheredNext(map[], data, i);
    WrappedSum(Total(data[..i]), data[i].len);
    hide Total;
  }

  lemma NothingRead(sector: nat, data: seq<Descriptor>, ram: Ram, disk: seq<Byte>)
    requires sector * SECTOR <= |disk|
    ensures ReadBroken(sector, data, ram, disk, ram, 0)
  {
    var at := sector * SECTOR;
    assert data[..0] == [] && disk[at..at] == [];
    if data != [] {
      StoreNothing(ram, data[0].addr);
    }
    hide Store;
    assert BrokenAt(at, data, ram, disk, ram, 0, 0, 0);
  }

  lemma NothingWritten(sector: nat, data: seq<Descriptor>, ram: Ram, disk: seq<Byte>)
    requires sector * SECTOR + Total(data) <= |disk|
    ensures WriteDone(sector, data, ram, disk, disk, IOERR)
  {
    SplicedNothing(disk, sector * SECTOR);
    assert Gathered(ram, data)[..0] == [];
  }

  lemma IntoNothing(ram: Ram, data: seq<Descriptor>)
    ensures OnlyInto(ram, ram, data)
  {
  }

  lemma IntoAll(ram: Ram, ram': Ram, chain: Chain)
    requires |chain.descriptors| >= 2 && OnlyInto(ram, ram', DataOf(chain))
    ensures OnlyInto(ram, ram', chain.descriptors)
  {
    forall a | a in ram && ram'[a] != ram[a]
      ensures exists i :: 0 <= i < |chain.descriptors| && chain.descriptors[i].Writable() &&
                          InBuffer(chain.descriptors[i], a)
    {
      var i :| 0 <= i < |DataOf(chain)| && DataOf(chain)[i].Writable() && InBuffer(DataOf(chain)[i], a);
      assert chain.descriptors[i + 1] == DataOf(chain)[i];
    }
  }

  /** What a pop returns: an empty ring leaves the queue, and every buffer of a
      chain is backed. */
  lemma PoppedIs(q: QueueState, ram: Ram)
    requires q.rings.size > 0
    ensures var popped := AfterPop(q, ram);
            match popped.outcome
            case Err(_) => true
            case Ok(None) => popped.queue == q
            case Ok(Some(chain)) => AllBacked(ram, chain.descriptors)
  {
    hide WalkTable, ReadU16, Offset, AllBacked;
    if AfterPop(q, ram).outcome.Ok? && AfterPop(q, ram).outcome.value.Some? {
      WalkIsBacked(ram, q.rings, AfterPop(q, ram).outcome.value.value.head);
    }
  }

  /** The status byte of a chain whose buffers are backed can be written. */
  lemma StatusFits(ram: Ram, ram': Ram, chain: Chain, answer: nat)
    requires AnswerIn(chain) == Some(answer) && ram'.Keys == ram.Keys
    ensures AllBacked(ram, chain.descriptors) ==> Holds(ram', answer, 1)
  {
    if AllBacked(ram, chain.descriptors) {
      var last := |chain.descriptors| - 1;
      assert Holds(ram, chain.descriptors[last].addr, chain.descriptors[last].len);
    }
  }

  class Block {
    const disk: File
    const sectors: nat
    const writable: bool
    const limiter: Limiter?
    /** Time a held request is served next. */
    var due: Option<real>
    var deferred: nat

    ghost predicate Valid()
      reads this, disk, limiter, if limiter == null then {} else {limiter.bytes, limiter.requests}
    {
      && disk.Valid() && sectors * SECTOR <= |disk.content| && sectors * SECTOR < U64_LIMIT
      && (limiter != null ==> limiter.Valid())
    }

    /** The capacity is read once, a file which grows later is not read
        beyond it. */
    constructor (disk: File, writable: bool, limiter: Limiter?)
      requires disk.Valid() && |disk.content| < U64_LIMIT
      requires limiter != null ==> limiter.Valid()
      ensures Valid() && this.disk == disk && this.writable == writable && this.limiter == limiter
      ensures sectors == |disk.content| / SECTOR && due == None
    {
      this.disk, this.writable, this.limiter := disk, writable, limiter;
      sectors := |disk.content| / SECTOR;
      due, deferred := None, 0;
    }

    /** Move `data` between the disk and guest RAM from `sector` on. */
    method Transfer(sector: nat, data: seq<Descriptor>, ram: GuestRam, intoGuest: bool)
      returns (status: Byte, written: nat)
      requires disk.Valid() && sectors * SECTOR <= |disk.content|
      modifies disk, ram
      ensures disk.Valid() && |disk.content| == old(|disk.content|)
      // A request of the wrong shape or past the disk moves nothing, a read
      // moves no byte of the disk and a write none of the guest.
      ensures match Refusal(sectors, sector, data, intoGuest)
              case Some(refused) =>
                status == refused && written == 0 && ram.bytes == old(ram.bytes) && disk.content == old(disk.content)
              case None =>
                if intoGuest then
                  if status == OK then ReadDone(sector, data, old(ram.bytes), disk.content, ram.bytes, written)
                  else status == IOERR && ReadBroken(sector, data, old(ram.bytes), disk.content, ram.bytes, written)
                else WriteDone(sector, data, ram.bytes, old(disk.content), disk.content, status)
      ensures intoGuest ==> disk.content == old(disk.content) && OnlyInto(old(ram.bytes), ram.bytes, data)
      ensures !intoGuest ==> ram.bytes == old(ram.bytes) && written == 0
      ensures written < U32_LIMIT
      ensures ram.Tracked(old(ram.bytes), old(ram.marks))
    {
      IntoNothing(ram.bytes, data);
      TracksSelf(ram.bytes, ram.marks);
      assert intoGuest && !WrongWay(data, true) ==> forall i :: 0 <= i < |data| ==> data[i].Writable();
      hide Scattered, Total, Gathered, Tracks, OnlyInto, LaidOn, Spliced, WrongWay;
      if WrongWay(data, intoGuest) {
        return UNSUPPORTED, 0;
      }
      var length := Total(data);
      if length % SECTOR != 0 {
        return UNSUPPORTED, 0;
      }
      var end := sector + length / SECTOR;
      if end > sectors {
        return IOERR, 0;
      }
      var sought := disk.SeekTo(sector * SECTOR);
      if !sought {
        NothingRead(sector, data, ram.bytes, disk.content);
        NothingWritten(sector, data, ram.bytes, disk.content);
        return IOERR, 0;
      }
      if intoGuest {
        status, written := ReadInto(sector, data, ram);
      } else {
        status := WriteFrom(sector * SECTOR, data, ram);
        written := 0;
      }
    }

    /** Fill buffer `i` from the disk, after those before it. */
    method FillOne(start: nat, data: seq<Descriptor>, i: nat, ram: GuestRam, ghost bytes0: Ram, ghost marks0: set<int>)
      returns (filled: bool, ghost m: nat)
      requires disk.Valid() && i < |data| && data[i].Writable() && start + Total(data) <= |disk.content|
      requires OnlyInto(bytes0, ram.bytes, data) && Tracks(bytes0, marks0, ram.bytes, ram.marks)
      requires FilledTo(start, data, i, bytes0, disk.content, disk.at, ram.bytes)
      modifies disk`at, ram
      ensures disk.Valid()
      ensures OnlyInto(bytes0, ram.bytes, data) && Tracks(bytes0, marks0, ram.bytes, ram.marks)
      ensures filled ==> FilledTo(start, data, i + 1, bytes0, disk.content, disk.at, ram.bytes)
      ensures !filled ==>
                BrokenAt(start, data, bytes0, disk.content, ram.bytes, Total(data[..i]) % U32_LIMIT, i, m)
    {
      hide OnlyInto, Tracks, Store, Scattered, Total, BrokenAt;
      ghost var at, whole := disk.at, ram.bytes;
      var taken;
      ghost var piece;
      taken, piece := ram.FillFrom(data[i].addr, disk, data[i].len);
      TracksOn(bytes0, marks0, old(ram.bytes), old(ram.marks), ram.bytes, ram.marks);
      IntoMore(bytes0, old(ram.bytes), data, i, piece);
      filled := taken == Some(data[i].len);
      m := |piece|;
      if filled {
        FilledMore(start, data, i, bytes0, disk.content, at, whole, piece);
      } else {
        BrokenHere(start, data, i, bytes0, disk.content, at, whole, piece);
      }
    }

    /** The loop of a read. A short read ends it. */
    method ReadInto(sector: nat, data: seq<Descriptor>, ram: GuestRam) returns (status: Byte, moved: nat)
      requires disk.Valid() && disk.at == sector * SECTOR && sector * SECTOR + Total(data) <= |disk.content|
      requires forall i :: 0 <= i < |data| ==> data[i].Writable()
      modifies disk`at, ram
      ensures disk.Valid() && moved < U32_LIMIT && (status == OK || status == IOERR)
      ensures OnlyInto(old(ram.bytes), ram.bytes, data)
      ensures status == OK ==> ReadDone(sector, data, old(ram.bytes), disk.content, ram.bytes, moved)
      ensures status == IOERR ==> ReadBroken(sector, data, old(ram.bytes), disk.content, ram.bytes, moved)
      ensures ram.Tracked(old(ram.bytes), old(ram.marks))
    {
      hide OnlyInto, Tracks, Total, FilledTo, BrokenAt, ReadDone;
      var start := sector * SECTOR;
      moved := 0;
      var i := 0;
      FilledNone(start, data, ram.bytes, disk.content);
      IntoNothing(ram.bytes, data);
      TracksSelf(ram.bytes, ram.marks);
      while i < |data|
        invariant 0 <= i <= |data| && disk.Valid() && moved == Total(data[..i]) % U32_LIMIT
        invariant FilledTo(start, data, i, old(ram.bytes), disk.content, disk.at, ram.bytes)
        invariant OnlyInto(old(ram.bytes), ram.bytes, data) &&
                  Tracks(old(ram.bytes), old(ram.marks), ram.bytes, ram.marks)
      {
        var filled, m := FillOne(start, data, i, ram, old(ram.bytes), old(ram.marks));
        if !filled {
          return IOERR, moved;
        }
        CountNext(data, i);
        moved := (moved + data[i].len) % U32_LIMIT;
        i := i + 1;
      }
      FilledAll(sector, data, old(ram.bytes), disk.content, disk.at, ram.bytes);
      status := OK;
    }

    /** Write buffer `i` to the disk, or fail with the first `done` bytes of it
        written. */
    method DrainOne(start: nat, data: seq<Descriptor>, i: nat, ram: GuestRam, ghost was: seq<Byte>)
      returns (ok: bool, ghost done: nat)
      requires i < |data| && |disk.content| == |was| && start + Total(data) <= |was|
      requires Total(data[..i]) <= Total(data) && disk.at == start + Total(data[..i])
      requires disk.content == Spliced(was, start, Gathered(ram.bytes, data)[..Total(data[..i])])
      modifies disk
      ensures Total(data[..i + 1]) == Total(data[..i]) + data[i].len <= Total(data)
      ensures done <= data[i].len && (ok ==> done == data[i].len) && disk.at == start + Total(data[..i]) + done
      ensures disk.content == Spliced(was, start, Gathered(ram.bytes, data)[..Total(data[..i]) + done])
    {
      hide Gathered, Total, Spliced, Load;
      GatheredNext(ram.bytes, data, i);
      ghost var all, n, piece := Gathered(ram.bytes, data), Total(data[..i]),
                                 Load(ram.bytes, data[i].addr, data[i].len);
      ok, done := ram.DrainTo(data[i].addr, disk, data[i].len);
      SplicedOn(was, start, all[..n], piece[..done]);
      assert all[..n] + piece[..done] == all[..n + done];
    }

    /** The loop of a write. */
    method WriteFrom(start: nat, data: seq<Descriptor>, ram: GuestRam) returns (status: Byte)
      requires disk.at == start && start + Total(data) <= |disk.content|
      modifies disk
      ensures disk.Valid() && |disk.content| == old(|disk.content|) && (status == OK || status == IOERR)
      ensures LaidOn(old(disk.content), start, Gathered(ram.bytes, data), disk.content)
      ensures status == OK ==> disk.content == Spliced(old(disk.content), start, Gathered(ram.bytes, data))
    {
      var i := 0;
      ghost var all := Gathered(ram.bytes, data);
      assert data[..0] == [] && all[..0] == [];
      SplicedNothing(disk.content, start);
      hide Gathered, Spliced;
      while i < |data|
        invariant 0 <= i <= |data|
        invariant Total(data[..i]) <= Total(data) && disk.at == start + Total(data[..i])
        invariant disk.content == Spliced(old(disk.content), start, all[..Total(data[..i])])
      {
        hide Total;
        var ok, done := DrainOne(start, data, i, ram, old(disk.content));
        if !ok {
          return IOERR;
        }
        i := i + 1;
      }
      assert data[..i] == data;
      assert all[..|all|] == all;
      status := OK;
    }

    /** Serve one request. Returns the status byte and the bytes written into
        guest RAM. */
    method Serve(chain: Chain, ram: GuestRam) returns (status: Byte, written: nat)
      requires disk.Valid() && sectors * SECTOR <= |disk.content| && |chain.descriptors| >= 2
      modifies disk, ram
      ensures disk.Valid() && |disk.content| == old(|disk.content|) && written < U32_LIMIT
      ensures RequestDone(sectors, writable, HeaderOf(chain, old(ram.bytes)), DataOf(chain),
                          old(ram.bytes), old(disk.content), ram.bytes, disk.content, status, written)
      ensures OnlyInto(old(ram.bytes), ram.bytes, DataOf(chain))
      ensures !writable ==> disk.content == old(disk.content)
      ensures ram.Tracked(old(ram.bytes), old(ram.marks))
    {
      hide ReadDone, WriteDone, Refusal, Tracks, HeaderOf;
      IntoNothing(ram.bytes, DataOf(chain));
      TracksSelf(ram.bytes, ram.marks);
      hide OnlyInto;
      var header := HeaderOf(chain, ram.bytes);
      if header.None? {
        return UNSUPPORTED, 0;
      }
      var data := DataOf(chain);
      if header.value.kind == REQUEST_IN {
        status, written := Transfer(header.value.sector, data, ram, true);
      } else if header.value.kind == REQUEST_OUT {
        if !writable {
          return IOERR, 0;
        }
        status, written := Transfer(header.value.sector, data, ram, false);
      } else if header.value.kind == REQUEST_FLUSH {
        var synced := disk.SyncData();
        return if synced then OK else IOERR, 0;
      } else {
        return UNSUPPORTED, 0;
      }
    }

    /** Take the cost of `chain` from the limiter, or set the time it is
        served at. */
    method Admit(chain: Chain, clock: Clock) returns (admitted: bool, ghost t: real, ghost u: real)
      requires Valid() && |chain.descriptors| >= 2
      modifies this, clock
      modifies if limiter == null then {} else {limiter.bytes, limiter.requests}
      ensures Valid()
      ensures old(clock.now) <= clock.now
      ensures limiter == null ==> admitted
      ensures limiter != null ==>
                && old(clock.now) <= t <= u <= clock.now
                && var taken := Throttle.Admit(old(limiter.View()), Total(DataOf(chain)), t, u);
                && limiter.View() == taken.limits && (admitted <==> taken.wait.None?)
                && (!admitted ==> due == Some(clock.now + taken.wait.value))
      ensures admitted ==> due == old(due) && deferred == old(deferred)
      ensures !admitted ==> due.Some? && deferred == old(deferred) + 1
    {
      t, u := 0.0, 0.0;
      if limiter == null {
        return true, t, u;
      }
      var first := clock.Read();
      var second := clock.Read();
      t, u := first, second;
      var wait := limiter.Take(Total(DataOf(chain)), first, second);
      admitted := wait.None?;
      if wait.Some? {
        var now := clock.Read();
        due := Some(now + wait.value);
        deferred := deferred + 1;
      }
    }

    ghost function Now(queue: Queue, ram: GuestRam): Moment
      reads queue, ram, disk
    {
      Moment(queue.View(), ram.bytes, disk.content)
    }

    /** Serve a chain, write its status byte and report it as used. */
    method Answer(chain: Chain, answer: nat, queue: Queue, ram: GuestRam) returns (r: Result<(), Error>, ghost len: nat)
      requires Valid() && queue.Valid() && AnswerIn(chain) == Some(answer)
      modifies queue, ram, disk
      ensures Valid() && queue.Valid()
      ensures AllBacked(old(ram.bytes), chain.descriptors) ==>
                Answered(sectors, writable, chain, old(Now(queue, ram)), Now(queue, ram), r, len)
      ensures |disk.content| == old(|disk.content|) && (!writable ==> disk.content == old(disk.content))
      ensures ram.Tracked(old(ram.bytes), old(ram.marks))
    {
      hide Tracks, RequestDone, AfterUsed, HeaderOf, Store;
      var status, written := Serve(chain, ram);
      ghost var bytes, marks, served := ram.bytes, ram.marks, ram.bytes;
      var wrote := ram.Write(answer, [status]);
      TracksOn(old(ram.bytes), old(ram.marks), bytes, marks, ram.bytes, ram.marks);
      StatusFits(old(ram.bytes), bytes, chain, answer);
      if !wrote {
        return Err(Ring(answer)), 0;
      }
      len := (written + 1) % U32_LIMIT;
      bytes, marks := ram.bytes, ram.marks;
      r := queue.AddUsed(ram, chain.head, (written + 1) % U32_LIMIT);
      assert Reported(old(queue.View()), Store(served, answer, [status]), chain.head, written, Now(queue, ram), r, len);
      TracksOn(old(ram.bytes), old(ram.marks), bytes, marks, ram.bytes, ram.marks);
    }

    ghost function MeterOf(clock: Clock): Meter
      reads this, clock, limiter, if limiter == null then {} else {limiter.bytes, limiter.requests}
    {
      Meter(if limiter == null then None else Some(limiter.View()), clock.now)
    }

    /** Take the next chain and serve it, whatever the guest wrote in its rings.
        `more` is whether to go on. */
    method NotifyOne(queue: Queue, ram: GuestRam, clock: Clock)
      returns (r: Result<(), Error>, more: bool, ghost len: nat, ghost ask: Ask)
      requires Valid() && queue.Valid() && due.None?
      modifies this, queue, ram, disk, clock
      modifies if limiter == null then {} else {limiter.bytes, limiter.requests}
      ensures Valid() && queue.Valid()
      ensures Passed(sectors, writable, old(Now(queue, ram)), Now(queue, ram), r, more, due.Some?, len)
      ensures Weighed(old(Now(queue, ram)), old(MeterOf(clock)), MeterOf(clock), ask, due)
      ensures |disk.content| == old(|disk.content|) && (!writable ==> disk.content == old(disk.content))
      ensures ram.Tracked(old(ram.bytes), old(ram.marks))
    {
      hide Tracks, AfterPop, AfterUndo, Answered;
      TracksSelf(ram.bytes, ram.marks);
      len, ask := 0, Ask(0, 0.0, 0.0);
      ghost var q := queue.View();
      PoppedIs(q, ram.bytes);
      var popped := queue.Pop(ram);
      if popped.Err? {
        return Err(popped.error), false, len, ask;
      }
      if popped.value.None? {
        return Ok(()), false, len, ask;
      }
      var chain := popped.value.value;
      var answer := AnswerIn(chain);
      if answer.None? {
        return Err(Request), false, len, ask;
      }
      var admitted, t, u := Admit(chain, clock);
      ask := Ask(Total(DataOf(chain)), t, u);
      ghost var m := old(Now(queue, ram));
      assert AsksFor(m) && Payload(m) == ask.bytes;
      assert Weighed(m, old(MeterOf(clock)), MeterOf(clock), ask, due);
      if !admitted {
        UndoIsInverse(q, ram.bytes);
        queue.UndoPop();
        return Ok(()), false, len, ask;
      }
      r, len := Answer(chain, answer.value, queue, ram);
      more := r.Ok?;
    }

    /** Serve each request in the queue, until it is empty, a request is past
        the rate or a chain is malformed. */
    method Notify(queue: Queue, ram: GuestRam, clock: Clock, ghost published: seq<nat>, ghost fates: seq<Protocol.Fate>)
      returns (r: Result<(), Error>, ghost decided: seq<Protocol.Fate>, ghost moments: seq<Moment>,
               ghost asks: seq<Ask>)
      requires Valid() && queue.Valid() && Serving(queue.View(), ram.bytes, published, fates)
      modifies this, queue, ram, disk, clock
      modifies if limiter == null then {} else {limiter.bytes, limiter.requests}
      ensures Valid() && queue.Valid() && Serving(queue.View(), ram.bytes, published, decided)
      ensures fates <= decided
      ensures |disk.content| == old(|disk.content|) && (!writable ==> disk.content == old(disk.content))
      ensures HandledSince(sectors, writable, moments, old(Now(queue, ram)), Now(queue, ram), fates, decided)
      // Every chain decided was served, but for a last one refused.
      ensures r.Ok? ==> forall n :: |fates| <= n < |decided| ==> decided[n].Served?
      ensures r.Err? ==> |fates| < |decided| && decided[|decided| - 1].Refused? &&
                         forall n :: |fates| <= n < |decided| - 1 ==> decided[n].Served?
      // The ring was emptied, unless a request is held for later, which only a
      // limiter brings about.
      ensures r.Ok? ==> (due.None? <==> |decided| == |published|)
      ensures limiter == null ==> due == None
      ensures Metered(old(MeterOf(clock)), MeterOf(clock), asks, moments, fates, decided)
      ensures ram.Tracked(old(ram.bytes), old(ram.marks))
    {
      hide Tracks, Serving, GoodQueue, Handled, HandledSince, Passed, Metered, Weighed, Counts;
      TracksSelf(ram.bytes, ram.marks);
      due := None;
      decided, moments, asks := fates, [Now(queue, ram)], [];
      MeteredNone(MeterOf(clock), Now(queue, ram), fates);
      HandledNone(sectors, writable, Now(queue, ram), fates);
      while true
        invariant Valid() && queue.Valid() && Serving(queue.View(), ram.bytes, published, decided)
        invariant fates <= decided && due.None?
        invariant |disk.content| == old(|disk.content|) && (!writable ==> disk.content == old(disk.content))
        invariant HandledSince(sectors, writable, moments, old(Now(queue, ram)), Now(queue, ram), fates, decided)
        invariant |moments| == |decided| - |fates| + 1 && moments[|moments| - 1] == Now(queue, ram)
        invariant Metered(old(MeterOf(clock)), MeterOf(clock), asks, moments, fates, decided)
        invariant forall n :: |fates| <= n < |decided| ==> decided[n].Served?
        invariant Tracks(old(ram.bytes), old(ram.marks), ram.bytes, ram.marks)
        decreases |published| - |decided|
      {
        ghost var bytes, marks, was, m := ram.bytes, ram.marks, decided, Now(queue, ram);
        var more;
        ghost var len, ask, meter := 0, Ask(0, 0.0, 0.0), MeterOf(clock);
        r, more, len, ask := NotifyOne(queue, ram, clock);
        decided := PassServes(sectors, writable, m, Now(queue, ram), r, more, due.Some?, len, published, was);
        TracksOn(old(ram.bytes), old(ram.marks), bytes, marks, ram.bytes, ram.marks);
        asks := MeteredMore(old(MeterOf(clock)), meter, MeterOf(clock), ask, due, asks, moments, Now(queue, ram),
                            fates, was, decided);
        HeldByLimiter(m, meter, MeterOf(clock), ask, due);
        if |was| < |decided| {
          HandledMore(sectors, writable, moments, old(Now(queue, ram)), m, Now(queue, ram), fates, was, decided);
          moments := moments + [Now(queue, ram)];
        }
        if !more {
          return;
        }
      }
    }
  }
}
