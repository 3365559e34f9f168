/** The control connection of a sandbox: requests, the acceptor which replaces
    the live connection, the readers of each connection and `stop`, as a state
    machine whose steps are the lock sections. Models
    src/lingcage/src/sandbox/demux.rs. */
module Demux {
  import opened Wrappers
  import opened Bytes

  /** Who holds the lock of the link over more than one step: a request which
      drew its id, and one which is registered and being written. */
  datatype Holder = Nobody | Drawn(id: nat) | Sent(id: nat)

  /** Thread which installs connections. The first one runs with generation 1
      before the accept loop starts. */
  datatype Acceptor =
    | Idle
    | Accepting                           // saw no stop, blocked in accept
    | Passed                              // accepted, saw no stop again
    | Adopting(generation: nat)           // generation read, in the handshake
    | Spawned(generation: nat, reader: nat)
    | Failing(gone: nat)                  // link replaced, requests of the old one still pending
    | Dropping(gone: nat)                 // those are closed, link yet to be checked
    | Gone

  /** `Closing` is between the two lock sections of `fail`. */
  datatype ReadPhase = Reading | Closing | Ended

  datatype Reader = Reader(generation: nat, phase: ReadPhase)

  datatype Stopper = Serving | Flagged | Joined | Cut | Returned

  /** Frame given to a request, with the generation it was made on and that of
      the reader. */
  datatype Delivery = Delivery(id: nat, madeOn: nat, from: nat)

  datatype System = System(
    link: Option<nat>, pending: map<nat, nat>, nextId: nat, holder: Holder,
    acceptor: Acceptor, readers: seq<Reader>, latest: Option<nat>, stopper: Stopper, delivered: seq<Delivery>)

  datatype Event =
    | DrawId
    | RequestLocks
    | RequestInserts
    | RequestEnds(ok: bool)
    | Complete(id: nat)
    | AcceptorLoops
    | AcceptorAccepts
    | AcceptorNumbers
    | AcceptorRefuses
    | AcceptorSpawns
    | AcceptorReplaces
    | AcceptorCloses
    | AcceptorDrops
    | Routes(reader: nat, id: nat)
    | ReaderCloses(reader: nat)
    | ReaderDrops(reader: nat)
    | StopFlags
    | StopJoins
    | StopCuts
    | StopClears

  /** Requests other than those made on `generation`. */
  function Without(pending: map<nat, nat>, generation: nat): map<nat, nat> {
    map id | id in pending && pending[id] != generation :: pending[id]
  }

  /** The link, dropped if it is of `generation`. */
  function LinkWithout(link: Option<nat>, generation: nat): Option<nat> {
    if link == Some(generation) then None else link
  }

  function NextId(id: nat): nat { (id + 2) % U32_LIMIT }

  function Generation(link: Option<nat>): nat {
    if link.Some? then link.value + 1 else 1
  }

  predicate ReaderIs(s: System, r: nat, phase: ReadPhase) {
    r < |s.readers| && s.readers[r].phase == phase
  }

  predicate ReaderOf(s: System, r: nat, generation: nat) {
    r < |s.readers| && s.readers[r].generation == generation
  }

  predicate Enabled(s: System, e: Event) {
    match e
    case DrawId => true
    case RequestLocks => s.holder.Nobody? && s.link.Some?
    case RequestInserts => s.holder.Drawn? && s.link.Some?
    case RequestEnds(_) => s.holder.Sent?
    case Complete(_) => true
    case AcceptorLoops => s.acceptor.Idle?
    case AcceptorAccepts => s.acceptor.Accepting?
    case AcceptorNumbers => s.acceptor.Passed? && s.holder.Nobody?
    case AcceptorRefuses => s.acceptor.Adopting?
    case AcceptorSpawns => s.acceptor.Adopting?
    case AcceptorReplaces => s.acceptor.Spawned? && s.holder.Nobody?
    case AcceptorCloses => s.acceptor.Failing?
    case AcceptorDrops => s.acceptor.Dropping? && s.holder.Nobody?
    case Routes(r, _) => ReaderIs(s, r, Reading)
    case ReaderCloses(r) => ReaderIs(s, r, Reading)
    case ReaderDrops(r) => ReaderIs(s, r, Closing) && s.holder.Nobody?
    case StopFlags => s.stopper.Serving?
    case StopJoins => s.stopper.Flagged? && s.acceptor.Gone?
    case StopCuts => s.stopper.Joined? && s.holder.Nobody?
    case StopClears => s.stopper.Cut? && (s.latest.Some? ==> ReaderIs(s, s.latest.value, Ended))
  }

  function After(s: System, e: Event): System
    requires Enabled(s, e)
  {
    match e
    case DrawId => s.(nextId := NextId(s.nextId))
    case RequestLocks => s.(holder := Drawn(s.nextId), nextId := NextId(s.nextId))
    case RequestInserts => s.(pending := s.pending[s.holder.id := s.link.value], holder := Sent(s.holder.id))
    case RequestEnds(ok) => s.(pending := if ok then s.pending else s.pending - {s.holder.id}, holder := Nobody)
    case Complete(id) => s.(pending := s.pending - {id})
    case AcceptorLoops => s.(acceptor := if s.stopper.Serving? then Accepting else Gone)
    case AcceptorAccepts => s.(acceptor := if s.stopper.Serving? then Passed else Gone)
    case AcceptorNumbers => s.(acceptor := Adopting(Generation(s.link)))
    case AcceptorRefuses => s.(acceptor := Idle)
    case AcceptorSpawns =>
      s.(acceptor := Spawned(s.acceptor.generation, |s.readers|),
      readers := s.readers + [Reader(s.acceptor.generation, Reading)])
    case AcceptorReplaces =>
      s.(link := Some(s.acceptor.generation), latest := Some(s.acceptor.reader),
      acceptor := if s.link.Some? then Failing(s.link.value) else Idle)
    case AcceptorCloses => s.(pending := Without(s.pending, s.acceptor.gone), acceptor := Dropping(s.acceptor.gone))
    case AcceptorDrops => s.(link := LinkWithout(s.link, s.acceptor.gone), acceptor := Idle)
    case Routes(r, id) =>
      var from := s.readers[r].generation;
      if id in s.pending && s.pending[id] == from
      then s.(delivered := s.delivered + [Delivery(id, s.pending[id], from)]) else s
    case ReaderCloses(r) =>
      s.(pending := Without(s.pending, s.readers[r].generation),
      readers := s.readers[r := s.readers[r].(phase := Closing)])
    case ReaderDrops(r) =>
      s.(link := LinkWithout(s.link, s.readers[r].generation), readers := s.readers[r := s.readers[r].(phase := Ended)])
    case StopFlags => s.(stopper := Flagged)
    case StopJoins => s.(stopper := Joined)
    case StopCuts => s.(link := None, stopper := Cut)
    case StopClears => s.(pending := map[], stopper := Returned)
  }

  /** Before the first connection, which is generation 1. */
  const INITIAL: System := System(None, map[], 1, Nobody, Adopting(1), [], None, Serving, [])

  ghost predicate CanRun(s: System, events: seq<Event>)
    decreases |events|
  {
    events == [] || (Enabled(s, events[0]) && CanRun(After(s, events[0]), events[1..]))
  }

  ghost function RunAll(s: System, events: seq<Event>): System
    requires CanRun(s, events)
    decreases |events|
  {
    if events == [] then s else RunAll(After(s, events[0]), events[1..])
  }

  ghost predicate Reached(s: System) {
    exists events: seq<Event> :: CanRun(INITIAL, events) && s == RunAll(INITIAL, events)
  }

  // ---- Invariant ----

  /** No request made on `generation` is pending. */
  ghost predicate NoneOn(s: System, generation: nat) {
    forall id :: id in s.pending ==> s.pending[id] != generation
  }

  /** A connection being installed follows the live one, if there is one. */
  ghost predicate InOrder(s: System) {
    && (s.acceptor.Adopting? || s.acceptor.Spawned? ==> s.link.None? || s.link.value + 1 == s.acceptor.generation)
    && (s.acceptor.Failing? || s.acceptor.Dropping? ==> s.link.None? || s.link.value == s.acceptor.gone + 1)
    && (s.acceptor.Dropping? ==> NoneOn(s, s.acceptor.gone))
    && (!s.holder.Nobody? ==> s.link.Some?)
  }

  ghost predicate StopsInOrder(s: System) {
    && (s.stopper.Joined? || s.stopper.Cut? || s.stopper.Returned? ==> s.acceptor.Gone?)
    && (s.stopper.Cut? || s.stopper.Returned? ==> s.link.None?)
    && (s.stopper.Returned? ==> s.pending == map[])
  }

  /** The thread spawned for a connection reads that connection. */
  ghost predicate ReadersInOrder(s: System) {
    && (s.acceptor.Spawned? ==> ReaderOf(s, s.acceptor.reader, s.acceptor.generation))
    && (s.latest.Some? ==> s.latest.value < |s.readers|)
    && (s.link.Some? ==> s.latest.Some? && ReaderOf(s, s.latest.value, s.link.value))
  }

  ghost predicate Matched(s: System) {
    forall k :: 0 <= k < |s.delivered| ==> s.delivered[k].madeOn == s.delivered[k].from
  }

  ghost predicate Inv(s: System) {
    InOrder(s) && StopsInOrder(s) && ReadersInOrder(s) && Matched(s)
  }

  lemma StepInOrder(s: System, e: Event)
    requires InOrder(s) && Enabled(s, e)
    ensures InOrder(After(s, e))
  {
  }

  lemma StepStopsInOrder(s: System, e: Event)
    requires InOrder(s) && StopsInOrder(s) && Enabled(s, e)
    ensures StopsInOrder(After(s, e))
  {
  }

  lemma StepReadersInOrder(s: System, e: Event)
    requires InOrder(s) && ReadersInOrder(s) && Enabled(s, e)
    ensures ReadersInOrder(After(s, e))
  {
  }

  lemma StepMatched(s: System, e: Event)
    requires Matched(s) && Enabled(s, e)
    ensures Matched(After(s, e))
  {
  }

  lemma StepKeeps(s: System, e: Event)
    requires Inv(s) && Enabled(s, e)
    ensures Inv(After(s, e))
  {
    hide After, InOrder, StopsInOrder, ReadersInOrder, Matched;
    StepInOrder(s, e);
    StepStopsInOrder(s, e);
    StepReadersInOrder(s, e);
    StepMatched(s, e);
  }

  lemma {:induction false} RunKeeps(s: System, events: seq<Event>)
    requires Inv(s) && CanRun(s, events)
    ensures Inv(RunAll(s, events))
    decreases |events|
  {
    if events != [] {
      StepKeeps(s, events[0]);
      RunKeeps(After(s, events[0]), events[1..]);
    }
  }

  lemma ReachedKeeps(s: System)
    requires Reached(s)
    ensures Inv(s)
  {
    var events: seq<Event> :| CanRun(INITIAL, events) && s == RunAll(INITIAL, events);
    RunKeeps(INITIAL, events);
  }

  // ---- Reconnect isolation ----

  /** When `install` returns after replacing a live connection, that one was
      of the generation before, and no request made on it is pending. */
  lemma InstallIsolates(s: System)
    requires Reached(s) && s.acceptor.Dropping? && Enabled(s, AcceptorDrops)
    ensures var r := After(s, AcceptorDrops);
            && NoneOn(r, s.acceptor.gone) && r.link == s.link
            && (r.link.None? || r.link == Some(s.acceptor.gone + 1))
  {
    ReachedKeeps(s);
  }

  /** There is a live connection all along the run. */
  ghost predicate Lives(s: System, events: seq<Event>)
    requires CanRun(s, events)
    decreases |events|
  {
    s.link.Some? && (events != [] ==> Lives(After(s, events[0]), events[1..]))
  }

  /** Requests and frames of `generation` are over. */
  ghost predicate Isolated(s: System, generation: nat) {
    NoneOn(s, generation) && s.link.Some? && generation < s.link.value
  }

  lemma StepIsolated(s: System, e: Event, generation: nat)
    requires Inv(s) && Isolated(s, generation) && Enabled(s, e) && After(s, e).link.Some?
    ensures Isolated(After(s, e), generation)
    ensures s.delivered <= After(s, e).delivered
    ensures forall k :: |s.delivered| <= k < |After(s, e).delivered| ==> After(s, e).delivered[k].from != generation
  {
  }

  /** For as long as a connection lives, through any further reconnects, no
      request is added on a replaced generation, and no frame its old reader
      still reads is given to any request. */
  lemma {:induction false} IsolationLasts(s: System, events: seq<Event>, generation: nat)
    requires Inv(s) && Isolated(s, generation) && CanRun(s, events) && Lives(s, events)
    ensures var r := RunAll(s, events);
            && Isolated(r, generation) && s.delivered <= r.delivered
            && forall k :: |s.delivered| <= k < |r.delivered| ==> r.delivered[k].from != generation
    decreases |events|
  {
    if events != [] {
      var next := After(s, events[0]);
      StepKeeps(s, events[0]);
      assert next.link.Some? by {
        assert Lives(next, events[1..]);
      }
      StepIsolated(s, events[0], generation);
      IsolationLasts(next, events[1..], generation);
    }
  }

  /** From the return of `install` on, while connections live. */
  lemma ReconnectIsolates(s: System, events: seq<Event>)
    requires Reached(s) && s.acceptor.Dropping? && Enabled(s, AcceptorDrops)
    requires CanRun(After(s, AcceptorDrops), events) && Lives(After(s, AcceptorDrops), events)
    ensures var r := RunAll(After(s, AcceptorDrops), events);
            && NoneOn(r, s.acceptor.gone) && r.link.Some? && s.acceptor.gone < r.link.value
            && forall k :: |s.delivered| <= k < |r.delivered| ==> r.delivered[k].from != s.acceptor.gone
  {
    ReachedKeeps(s);
    StepKeeps(s, AcceptorDrops);
    InstallIsolates(s);
    IsolationLasts(After(s, AcceptorDrops), events, s.acceptor.gone);
  }

  /** A step of a reader's `fail`, in either of its lock sections. */
  predicate Fails(s: System, e: Event, generation: nat) {
    (e.ReaderCloses? || e.ReaderDrops?) && e.reader < |s.readers| && s.readers[e.reader].generation == generation
  }

  /** However late in such a run, and whatever came between its two sections,
      a `fail` by a reader of the replaced generation leaves the live connection
      and every request made on it. */
  lemma LateFailIsHarmless(s: System, events: seq<Event>, generation: nat, e: Event)
    requires Inv(s) && Isolated(s, generation) && CanRun(s, events) && Lives(s, events)
    requires Enabled(RunAll(s, events), e) && Fails(RunAll(s, events), e, generation)
    ensures var t := RunAll(s, events);
            && After(t, e).link == t.link
            && forall id :: id in t.pending && t.link == Some(t.pending[id]) ==>
                              id in After(t, e).pending && After(t, e).pending[id] == t.pending[id]
  {
    IsolationLasts(s, events, generation);
  }

  /** Once `stop` has returned nothing comes back. */
  lemma {:induction false} StopIsFinal(s: System, events: seq<Event>)
    requires Inv(s) && s.stopper.Returned? && CanRun(s, events)
    ensures RunAll(s, events).link == None && RunAll(s, events).pending == map[]
    decreases |events|
  {
    if events != [] {
      StepKeeps(s, events[0]);
      StopIsFinal(After(s, events[0]), events[1..]);
    }
  }

  // ---- Connections nobody reads ----

  /** The live connection, if any, has a reader which has not ended. */
  ghost predicate IsRead(s: System) {
    s.link.Some? ==> s.latest.Some? && s.latest.value < |s.readers| && !s.readers[s.latest.value].phase.Ended?
  }

  /** A connection is installed whose reader has ended already. */
  predicate InstallsUnread(s: System, e: Event) {
    e.AcceptorReplaces? && s.acceptor.Spawned? && ReaderIs(s, s.acceptor.reader, Ended)
  }

  /** A reader ends its connection with itself, so only the install of one which
      came too late leaves a connection nobody reads. */
  lemma StepIsRead(s: System, e: Event)
    requires Inv(s) && IsRead(s) && Enabled(s, e)
    ensures IsRead(After(s, e)) <==> !InstallsUnread(s, e)
  {
    assert s.latest.Some? ==> s.latest.value < |s.readers|;
  }

  /** No such install comes along the run. */
  ghost predicate NoneUnread(s: System, events: seq<Event>)
    requires CanRun(s, events)
    decreases |events|
  {
    events == [] || (!InstallsUnread(s, events[0]) && NoneUnread(After(s, events[0]), events[1..]))
  }

  /** So over every run without one, a live connection is always read. */
  lemma {:induction false} RunIsRead(s: System, events: seq<Event>)
    requires Inv(s) && IsRead(s) && CanRun(s, events) && NoneUnread(s, events)
    ensures IsRead(RunAll(s, events))
    decreases |events|
  {
    if events != [] {
      StepKeeps(s, events[0]);
      StepIsRead(s, events[0]);
      hide After, Enabled, Inv, IsRead;
      RunIsRead(After(s, events[0]), events[1..]);
    }
  }

  // ---- Stranded requests ----

  /** The live connection has a reader between the two sections of `fail`. */
  predicate HalfFailed(s: System) {
    exists r :: 0 <= r < |s.readers| && s.link == Some(s.readers[r].generation) && s.readers[r].phase.Closing?
  }

  /** A request is registered on a connection which is half failed. */
  predicate InsertsLate(s: System, e: Event) {
    e.RequestInserts? && HalfFailed(s)
  }

  /** The request made on `generation` is on the live connection and a reader
      goes on reading it, which closes the request when it ends; or it is to be
      closed by the acceptor or by `stop`. */
  ghost predicate WillClose(s: System, generation: nat) {
    || (s.link == Some(generation) && s.latest.Some? && ReaderIs(s, s.latest.value, Reading))
    || s.acceptor == Failing(generation)
    || s.stopper.Cut?
  }

  ghost predicate Settled(s: System) {
    forall id :: id in s.pending ==> WillClose(s, s.pending[id])
  }

  /** A half failed connection has no request, so dropping it strands none. */
  ghost predicate ClosedFirst(s: System) {
    forall r :: 0 <= r < |s.readers| && s.readers[r].phase.Closing? && s.link == Some(s.readers[r].generation) ==>
                  NoneOn(s, s.readers[r].generation)
  }

  lemma StepSettled(s: System, e: Event)
    requires Inv(s) && IsRead(s) && Settled(s) && ClosedFirst(s) && Enabled(s, e) && !InsertsLate(s, e)
    ensures Settled(After(s, e))
  {
    if e.RequestInserts? {
      assert s.readers[s.latest.value].phase.Reading?;
    }
  }

  lemma StepClosedFirst(s: System, e: Event)
    requires Inv(s) && Settled(s) && ClosedFirst(s) && Enabled(s, e) && !InsertsLate(s, e)
    ensures ClosedFirst(After(s, e))
  {
  }

  /** No request is registered on a half failed connection along the run. */
  ghost predicate NoneLate(s: System, events: seq<Event>)
    requires CanRun(s, events)
    decreases |events|
  {
    events == [] || (!InsertsLate(s, events[0]) && NoneLate(After(s, events[0]), events[1..]))
  }

  lemma {:induction false} RunSettled(s: System, events: seq<Event>)
    requires Inv(s) && IsRead(s) && Settled(s) && ClosedFirst(s) && CanRun(s, events)
    requires NoneUnread(s, events) && NoneLate(s, events)
    ensures Settled(RunAll(s, events))
    decreases |events|
  {
    if events != [] {
      StepKeeps(s, events[0]);
      StepIsRead(s, events[0]);
      StepSettled(s, events[0]);
      StepClosedFirst(s, events[0]);
      hide After, Enabled, Inv, IsRead, Settled, ClosedFirst;
      RunSettled(After(s, events[0]), events[1..]);
    }
  }

  /** From the start, over every run in which no connection is installed after
      its reader ended and no request registered on a half failed one, every
      request is closed in time. */
  lemma NoneStranded(events: seq<Event>)
    requires CanRun(INITIAL, events) && NoneUnread(INITIAL, events) && NoneLate(INITIAL, events)
    ensures Settled(RunAll(INITIAL, events))
  {
    RunSettled(INITIAL, events);
  }

  /** A request registered on a half failed connection can be stranded: the
      reader then drops the link, and nobody is left to close it. */
  lemma LateRequestStrands(s: System)
    requires Inv(s) && Enabled(s, RequestInserts) && HalfFailed(s)
    ensures exists r :: var events := [RequestInserts, RequestEnds(true), ReaderDrops(r)];
                        CanRun(s, events) && !Settled(RunAll(s, events))
  {
    var r :| 0 <= r < |s.readers| && s.link == Some(s.readers[r].generation) && s.readers[r].phase.Closing?;
    var events := [RequestInserts, RequestEnds(true), ReaderDrops(r)];
    var s1 := After(s, events[0]);
    var s2 := After(s1, events[1]);
    var s3 := After(s2, events[2]);
    RunThree(s, events[0], events[1], events[2]);
    assert s.holder.id in s3.pending && s3.link.None?;
  }

  /** So can the first one on a connection installed after its reader ended. */
  lemma UnreadRequestStrands(s: System)
    requires Inv(s) && Enabled(s, AcceptorReplaces) && InstallsUnread(s, AcceptorReplaces)
    ensures var events := [AcceptorReplaces, RequestLocks, RequestInserts];
            CanRun(s, events) && !Settled(RunAll(s, events))
  {
    var s1 := After(s, AcceptorReplaces);
    var s2 := After(s1, RequestLocks);
    var s3 := After(s2, RequestInserts);
    RunThree(s, AcceptorReplaces, RequestLocks, RequestInserts);
    assert s2.holder.id in s3.pending && s3.pending[s2.holder.id] == s.acceptor.generation;
  }

  lemma RunThree(s: System, a: Event, b: Event, c: Event)
    requires Enabled(s, a) && Enabled(After(s, a), b) && Enabled(After(After(s, a), b), c)
    ensures CanRun(s, [a, b, c]) && RunAll(s, [a, b, c]) == After(After(After(s, a), b), c)
  {
    hide After, Enabled;
    assert [] + [a] == [a] && [a] + [b] == [a, b] && [a, b] + [c] == [a, b, c];
    RunOn(s, [], a);
    RunOn(s, [a], b);
    RunOn(s, [a, b], c);
  }

  lemma {:induction false} RunOn(s: System, events: seq<Event>, e: Event)
    requires CanRun(s, events) && Enabled(RunAll(s, events), e)
    ensures CanRun(s, events + [e]) && RunAll(s, events + [e]) == After(RunAll(s, events), e)
    decreases |events|
  {
    hide After, Enabled;
    if events == [] {
      assert events + [e] == [e] && [e][1..] == [];
    } else {
      RunOn(After(s, events[0]), events[1..], e);
      assert (events + [e])[0] == events[0] && (events + [e])[1..] == events[1..] + [e];
    }
  }

  lemma ReachedTo(s: System, e: Event, s': System)
    requires Reached(s) && Enabled(s, e) && s' == After(s, e)
    ensures Reached(s')
  {
    var events: seq<Event> :| CanRun(INITIAL, events) && s == RunAll(INITIAL, events);
    RunOn(INITIAL, events, e);
  }

  /** A request can meet a connection which is half failed. */
  lemma LateRequestIsReached()
    ensures exists s :: Reached(s) && Enabled(s, RequestInserts) && HalfFailed(s)
  {
    hide Reached;
    FirstIsReached();
    var drawn := First(Reading).(holder := Drawn(1), nextId := 3);
    var closing := drawn.(readers := [Reader(1, Closing)]);
    ReachedTo(First(Reading), RequestLocks, drawn);
    ReachedTo(drawn, ReaderCloses(0), closing);
    assert closing.readers[0] == Reader(1, Closing);
    assert HalfFailed(closing);
  }

  /** The first connection with its reader in `phase`. */
  function First(phase: ReadPhase): System {
    INITIAL.(acceptor := Idle, link := Some(1), readers := [Reader(1, phase)], latest := Some(0))
  }

  lemma StartIsReached()
    ensures Reached(INITIAL)
  {
    assert CanRun(INITIAL, []) && RunAll(INITIAL, []) == INITIAL;
  }

  /** The reader starts before its connection is installed, so it can be gone
      by then: a live connection which nobody reads. */
  lemma LinkWithoutReader()
    ensures Reached(First(Ended)) && !IsRead(First(Ended))
  {
    hide Reached;
    StartIsReached();
    var s1 := INITIAL.(acceptor := Spawned(1, 0), readers := [Reader(1, Reading)]);
    var s2 := s1.(readers := [Reader(1, Closing)]);
    var s3 := s2.(readers := [Reader(1, Ended)]);
    ReachedTo(INITIAL, AcceptorSpawns, s1);
    ReachedTo(s1, ReaderCloses(0), s2);
    ReachedTo(s2, ReaderDrops(0), s3);
    ReachedTo(s3, AcceptorReplaces, First(Ended));
  }

  // ---- Generations used again ----

  /** No reader but its own still goes by the generation of the live link. */
  ghost predicate Alone(s: System) {
    forall r :: 0 <= r < |s.readers| && s.link == Some(s.readers[r].generation) && !s.readers[r].phase.Ended? ==>
                  s.latest == Some(r)
  }

  /** A connection is installed under a generation which an old reader still
      goes by. */
  predicate InstallsTwin(s: System, e: Event) {
    && e.AcceptorReplaces? && s.acceptor.Spawned?
    && exists r :: 0 <= r < |s.readers| && r != s.acceptor.reader && s.readers[r].generation == s.acceptor.generation &&
                   !s.readers[r].phase.Ended?
  }

  lemma StepAlone(s: System, e: Event)
    requires Inv(s) && Alone(s) && Enabled(s, e)
    ensures Alone(After(s, e)) <==> !InstallsTwin(s, e)
  {
    if e.AcceptorReplaces? {
      assert After(s, e).readers == s.readers;
    }
  }

  /** No such install comes along the run. */
  ghost predicate NoTwins(s: System, events: seq<Event>)
    requires CanRun(s, events)
    decreases |events|
  {
    events == [] || (!InstallsTwin(s, events[0]) && NoTwins(After(s, events[0]), events[1..]))
  }

  lemma {:induction false} RunAlone(s: System, events: seq<Event>)
    requires Inv(s) && Alone(s) && CanRun(s, events) && NoTwins(s, events)
    ensures Inv(RunAll(s, events)) && Alone(RunAll(s, events))
    decreases |events|
  {
    if events != [] {
      StepKeeps(s, events[0]);
      StepAlone(s, events[0]);
      hide After, Enabled, Inv, Alone;
      RunAlone(After(s, events[0]), events[1..]);
    }
  }

  /** The live link and every request made on it stay. */
  ghost predicate LiveKept(s: System, t: System) {
    && t.link == s.link
    && forall id :: id in s.pending && s.link == Some(s.pending[id]) ==>
                      id in t.pending && t.pending[id] == s.pending[id]
  }

  /** Over every run from the start without such an install, even through times
      without a connection, a `fail` by any reader but that of the live link
      leaves the link and its requests. */
  lemma OnlyOwnReaderFails(events: seq<Event>, e: Event)
    requires CanRun(INITIAL, events) && NoTwins(INITIAL, events) && Enabled(RunAll(INITIAL, events), e)
    requires (e.ReaderCloses? || e.ReaderDrops?) && RunAll(INITIAL, events).latest != Some(e.reader)
    ensures LiveKept(RunAll(INITIAL, events), After(RunAll(INITIAL, events), e))
  {
    RunAlone(INITIAL, events);
  }

  /** After such an install the old reader's `fail` drops the new link. */
  lemma TwinFails(s: System, r: nat)
    requires Inv(s) && s.holder.Nobody? && r < |s.readers| && s.latest != Some(r)
    requires s.link == Some(s.readers[r].generation) && s.readers[r].phase.Reading?
    ensures var events := [ReaderCloses(r), ReaderDrops(r)];
            CanRun(s, events) && RunAll(s, events).link == None && NoneOn(RunAll(s, events), s.link.value)
  {
    RunTwo(s, ReaderCloses(r), ReaderDrops(r));
  }

  lemma RunTwo(s: System, a: Event, b: Event)
    requires Enabled(s, a) && Enabled(After(s, a), b)
    ensures CanRun(s, [a, b]) && RunAll(s, [a, b]) == After(After(s, a), b)
  {
    hide After, Enabled;
    assert [] + [a] == [a] && [a] + [b] == [a, b];
    RunOn(s, [], a);
    RunOn(s, [a], b);
  }

  /** The second connection, installed while the reader of the first goes on. */
  function SecondLive(): System {
    First(Reading).(link := Some(2), readers := [Reader(1, Reading), Reader(2, Reading)], latest := Some(1))
  }

  /** The second connection has ended. */
  function SecondEnded(): System {
    SecondLive().(link := None, readers := [Reader(1, Reading), Reader(2, Ended)])
  }

  lemma FirstIsReached()
    ensures Reached(First(Reading))
  {
    hide Reached;
    StartIsReached();
    var s1 := INITIAL.(acceptor := Spawned(1, 0), readers := [Reader(1, Reading)]);
    ReachedTo(INITIAL, AcceptorSpawns, s1);
    ReachedTo(s1, AcceptorReplaces, First(Reading));
  }

  /** The acceptor takes the next connection up to the start of its reader. */
  lemma NextIsReached(s: System)
    requires Reached(s) && s.acceptor.Idle? && s.stopper.Serving? && s.holder.Nobody?
    ensures Reached(s.(acceptor := Spawned(Generation(s.link), |s.readers|),
                    readers := s.readers + [Reader(Generation(s.link), Reading)]))
  {
    hide Reached;
    ReachedTo(s, AcceptorLoops, s.(acceptor := Accepting));
    ReachedTo(s.(acceptor := Accepting), AcceptorAccepts, s.(acceptor := Passed));
    ReachedTo(s.(acceptor := Passed), AcceptorNumbers, s.(acceptor := Adopting(Generation(s.link))));
    ReachedTo(s.(acceptor := Adopting(Generation(s.link))), AcceptorSpawns,
              s.(acceptor := Spawned(Generation(s.link), |s.readers|),
              readers := s.readers + [Reader(Generation(s.link), Reading)]));
  }

  lemma SecondIsReached()
    ensures Reached(SecondLive())
  {
    hide Reached;
    FirstIsReached();
    NextIsReached(First(Reading));
    var two := [Reader(1, Reading), Reader(2, Reading)];
    assert First(Reading).readers + [Reader(2, Reading)] == two;
    var spawned := First(Reading).(acceptor := Spawned(2, 1), readers := two);
    var failing := First(Reading).(acceptor := Failing(1), readers := two, link := Some(2), latest := Some(1));
    ReachedTo(spawned, AcceptorReplaces, failing);
    ReachedTo(failing, AcceptorCloses, failing.(acceptor := Dropping(1)));
    ReachedTo(failing.(acceptor := Dropping(1)), AcceptorDrops, failing.(acceptor := Idle));
  }

  lemma SecondEndedIsReached()
    ensures Reached(SecondEnded())
  {
    hide Reached;
    SecondIsReached();
    var closing := SecondLive().(readers := [Reader(1, Reading), Reader(2, Closing)]);
    ReachedTo(SecondLive(), ReaderCloses(1), closing);
    ReachedTo(closing, ReaderDrops(1), SecondEnded());
  }

  /** With no link the count of generations starts over, so the third connection
      is generation 1 again, and the reader of the first fails it. */
  lemma TwinIsReached()
    ensures exists s :: Reached(s) && s.holder.Nobody? && s.link == Some(1) && s.latest == Some(2) &&
                        |s.readers| == 3 && s.readers[0] == Reader(1, Reading)
  {
    hide Reached;
    SecondEndedIsReached();
    NextIsReached(SecondEnded());
    var three := [Reader(1, Reading), Reader(2, Ended), Reader(1, Reading)];
    assert SecondEnded().readers + [Reader(1, Reading)] == three;
    var spawned := SecondEnded().(acceptor := Spawned(1, 2), readers := three);
    ReachedTo(spawned, AcceptorReplaces, spawned.(acceptor := Idle, link := Some(1), latest := Some(2)));
  }

  // ---- Request ids ----

  /** Id of the `k`th draw. */
  function DrawnId(k: nat): nat {
    if k == 0 then 1 else NextId(DrawnId(k - 1))
  }

  const HALF := 0x8000_0000

  lemma {:induction false} DrawnIdIs(k: nat)
    ensures DrawnId(k) == 1 + 2 * (k % HALF)
  {
    if k > 0 {
      DrawnIdIs(k - 1);
      hide DrawnId;
      RemainderNext(k - 1);
      assert NextId(1 + 2 * ((k - 1) % HALF)) == 1 + 2 * (k % HALF);
    }
  }

  lemma RemainderNext(k: nat)
    ensures (k + 1) % HALF == if k % HALF + 1 < HALF then k % HALF + 1 else 0
  {
  }

  /** Two draws give the same id only if a multiple of 2^31 draws apart. */
  lemma IdsRepeat(i: nat, j: nat)
    requires i <= j
    ensures DrawnId(i) == DrawnId(j) <==> (j - i) % HALF == 0
  {
    DrawnIdIs(i);
    DrawnIdIs(j);
    hide DrawnId;
    HalvesEqual(i, j);
  }

  lemma HalvesEqual(i: nat, j: nat)
    requires i <= j
    ensures i % HALF == j % HALF <==> (j - i) % HALF == 0
  {
  }

  /** Ids drawn along a run, by requests and by frames which want no answer. */
  function Draws(events: seq<Event>): nat {
    if events == [] then 0 else (if events[0].DrawId? || events[0].RequestLocks? then 1 else 0) + Draws(events[1..])
  }

  lemma {:induction false} DrawsInOrder(s: System, events: seq<Event>, k: nat)
    requires CanRun(s, events) && s.nextId == DrawnId(k)
    ensures RunAll(s, events).nextId == DrawnId(k + Draws(events))
    decreases |events|
  {
    if events != [] {
      var drawn := if events[0].DrawId? || events[0].RequestLocks? then k + 1 else k;
      assert After(s, events[0]).nextId == DrawnId(drawn);
      hide After, Enabled, DrawnId;
      DrawsInOrder(After(s, events[0]), events[1..], drawn);
    }
  }

  /** Each request registers under the next id drawn, odd and new but for a wrap,
      with the generation of the connection it goes out on. */
  lemma RequestIsRegistered(events: seq<Event>)
    requires CanRun(INITIAL, events) && Enabled(RunAll(INITIAL, events), RequestLocks)
    ensures var s := RunAll(INITIAL, events);
            var id, locked := DrawnId(Draws(events)), After(s, RequestLocks);
            && locked.holder == Drawn(id) && Enabled(locked, RequestInserts) && s.link.Some?
            && After(locked, RequestInserts) ==
               locked.(pending := s.pending[id := s.link.value], holder := Sent(id))
  {
    DrawsInOrder(INITIAL, events, 0);
  }

  // ---- Requests and answers ----

  /** The event closes the request of this id, made on this generation. */
  predicate Closes(s: System, e: Event, id: nat, generation: nat) {
    || e == Complete(id)
    || (e == RequestEnds(false) && s.holder == Sent(id))
    || (e.AcceptorCloses? && s.acceptor == Failing(generation))
    || (e.ReaderCloses? && ReaderOf(s, e.reader, generation))
    || e.StopClears?
  }

  /** A request is pending from when it is registered until an event closes it,
      and no other event adds or closes one. */
  lemma StepPending(s: System, e: Event, id: nat)
    requires Enabled(s, e)
    ensures var t, made := After(s, e), e.RequestInserts? && s.holder == Drawn(id);
            && (id in t.pending <==> made || (id in s.pending && !Closes(s, e, id, s.pending[id])))
            && (id in t.pending ==> t.pending[id] == if made then s.link.value else s.pending[id])
  {
  }

  /** A connection comes to live exactly by being installed, and goes exactly when
      it is replaced, when a reader of its generation drops it, or at `stop`. */
  lemma StepLink(s: System, e: Event)
    requires Inv(s) && Enabled(s, e)
    ensures After(s, e).link ==
            if e.AcceptorReplaces? then Some(s.acceptor.generation)
            else if e.StopCuts? || (e.ReaderDrops? && s.link == Some(s.readers[e.reader].generation)) then None
            else s.link
  {
  }

  /** A frame is for a pending request made on the connection it was read on. */
  predicate Answers(s: System, e: Event) {
    e.Routes? && e.reader < |s.readers| && e.id in s.pending && ReaderOf(s, e.reader, s.pending[e.id])
  }

  /** What the event gives to a request. */
  function Gives(s: System, e: Event): seq<Delivery> {
    if Answers(s, e) then [Delivery(e.id, s.pending[e.id], s.pending[e.id])] else []
  }

  lemma StepGives(s: System, e: Event)
    requires Enabled(s, e)
    ensures After(s, e).delivered == s.delivered + Gives(s, e)
  {
    assert s.delivered + [] == s.delivered;
  }

  /** Frames which find their request along a run, in order. */
  ghost function AnsweredAlong(s: System, events: seq<Event>): seq<Delivery>
    requires CanRun(s, events)
    decreases |events|
  {
    if events == [] then [] else Gives(s, events[0]) + AnsweredAlong(After(s, events[0]), events[1..])
  }

  /** Every such frame is given to its request, once, and nothing else is. */
  lemma {:induction false} AnswersArrive(s: System, events: seq<Event>)
    requires CanRun(s, events)
    ensures RunAll(s, events).delivered == s.delivered + AnsweredAlong(s, events)
    decreases |events|
  {
    hide After, Enabled, Gives;
    if events != [] {
      var next := After(s, events[0]);
      StepGives(s, events[0]);
      AnswersArrive(next, events[1..]);
      var now, rest := Gives(s, events[0]), AnsweredAlong(next, events[1..]);
      assert (s.delivered + now) + rest == s.delivered + (now + rest);
    }
  }

  /** So an answer read on the live connection reaches the request made on it. */
  lemma LiveAnswerArrives(s: System, id: nat)
    requires Inv(s) && s.link.Some? && s.latest.Some? && ReaderIs(s, s.latest.value, Reading)
    requires id in s.pending && s.link == Some(s.pending[id])
    ensures var e := Routes(s.latest.value, id);
            Enabled(s, e) && After(s, e).delivered == s.delivered + [Delivery(id, s.link.value, s.link.value)]
  {
  }

  // ---- Stopping ----

  /** Steps the acceptor is from its end once the stop flag is set. */
  function AcceptsLeft(a: Acceptor): nat {
    match a
    case Passed => 7
    case Adopting(_) => 6
    case Spawned(_, _) => 5
    case Failing(_) => 4
    case Dropping(_) => 3
    case Idle => 2
    case Accepting => 1
    case Gone => 0
  }

  predicate StepOfAcceptor(e: Event) {
    || e.AcceptorLoops? || e.AcceptorAccepts? || e.AcceptorNumbers? || e.AcceptorRefuses?
    || e.AcceptorSpawns? || e.AcceptorReplaces? || e.AcceptorCloses? || e.AcceptorDrops?
  }

  /** Once stopping, each step of the acceptor takes it nearer to its end, and it
      installs at most the connection it has in hand. */
  lemma AcceptorStops(s: System, e: Event)
    requires Enabled(s, e) && !s.stopper.Serving?
    ensures !After(s, e).stopper.Serving?
    ensures AcceptsLeft(After(s, e).acceptor) + (if StepOfAcceptor(e) then 1 else 0) <= AcceptsLeft(s.acceptor)
    ensures e.AcceptorReplaces? ==> 4 < AcceptsLeft(s.acceptor) && AcceptsLeft(After(s, e).acceptor) <= 4
    ensures e.AcceptorLoops? || e.AcceptorAccepts? ==> After(s, e).acceptor == Gone
  {
  }

  /** Until then it goes on: it ends only for a stop, and takes every connection it
      accepts up to the handshake. */
  lemma AcceptorGoesOn(s: System, e: Event)
    requires Enabled(s, e) && s.stopper.Serving? && !s.acceptor.Gone?
    ensures !After(s, e).acceptor.Gone?
    ensures e.AcceptorLoops? ==> After(s, e).acceptor == Accepting
    ensures e.AcceptorAccepts? ==> After(s, e).acceptor == Passed
    ensures e.AcceptorNumbers? ==>
              After(s, e).acceptor == Adopting(if s.link.Some? then s.link.value + 1 else 1)
  {
  }

  function AcceptorSteps(events: seq<Event>): nat {
    if events == [] then 0 else (if StepOfAcceptor(events[0]) then 1 else 0) + AcceptorSteps(events[1..])
  }

  /** So within seven of its steps it is gone, and `stop` can join it. */
  lemma {:induction false} AcceptorEnds(s: System, events: seq<Event>)
    requires CanRun(s, events) && !s.stopper.Serving?
    ensures AcceptsLeft(RunAll(s, events).acceptor) + AcceptorSteps(events) <= AcceptsLeft(s.acceptor) <= 7
    ensures AcceptorSteps(events) >= 7 ==> RunAll(s, events).acceptor == Gone
    decreases |events|
  {
    if events != [] {
      AcceptorStops(s, events[0]);
      hide After, Enabled, StepOfAcceptor;
      AcceptorEnds(After(s, events[0]), events[1..]);
    }
  }
}
