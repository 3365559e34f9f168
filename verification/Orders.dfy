/** The hold, run and stop orders which vCPU and device threads obey, with the
    threads waiting on them, as a state machine whose steps are the critical
    sections. Models `Orders`, the thread loops and the waits of
    src/lingcore/src/machine/mod.rs. */
module Orders {
  datatype Order = Run | Hold | Stop

  /** Where a vCPU or device thread is in its loop. */
  datatype Worker =
    | Free     // about to start the next round
    | Guest    // inside `run`, or serving devices
    | Out      // out of the round, yet to read the order
    | SawHold  // read a hold, yet to park on it
    | Asleep   // parked, on the condition variable
    | Awake    // parked, woken, yet to check the order again
    | Ending   // left the loop, yet to set the stop order
    | Gone

  /** Outcome of a wait. */
  datatype Still = Held | Stopped | Waiting

  datatype Phase = Sleeping | Checking | Ended(still: Still)

  /** A thread waiting for the workers to park, or for the stop order. */
  datatype Waiter =
    | UntilStill(count: nat, phase: Phase)
    | UntilStop(timed: bool, phase: Phase)

  /** `owed` counts the tellers which have set the order and not yet woken up
      the sleepers. `locked` are the vCPUs whose lock is held. */
  datatype System = System(
    order: Order, parked: nat, owed: nat, vcpus: nat, locked: set<nat>, workers: seq<Worker>, waiters: seq<Waiter>)

  datatype Event =
    | Enter(w: nat)
    | Leave(w: nat, interrupted: bool)
    | Read(w: nat)
    | Park(w: nat)
    | Wake(w: nat)
    | Check(w: nat)
    | Signal(w: nat)
    | Tell(order: Order)
    | Notify
    | Arrive(waiter: Waiter)
    | WaiterWakes(i: nat)
    | WaiterChecks(i: nat, expired: bool)

  /** The thread is inside `wait_out_a_hold`, past the count. */
  predicate Inside(w: Worker) { w.Asleep? || w.Awake? }

  function Insiders(workers: seq<Worker>): (n: nat)
    ensures n <= |workers|
  {
    if workers == [] then 0
    else Insiders(workers[..|workers| - 1]) + if Inside(workers[|workers| - 1]) then 1 else 0
  }

  function WokenWorkers(workers: seq<Worker>): (r: seq<Worker>)
    ensures |r| == |workers|
  {
    seq(|workers|, w requires 0 <= w < |workers| => if workers[w].Asleep? then Awake else workers[w])
  }

  function WokenWaiters(waiters: seq<Waiter>): (r: seq<Waiter>)
    ensures |r| == |waiters|
  {
    seq(|waiters|, i requires 0 <= i < |waiters| =>
      if waiters[i].phase.Sleeping? then waiters[i].(phase := Checking) else waiters[i])
  }

  /** `notify_all` */
  function Woken(s: System): System {
    s.(workers := WokenWorkers(s.workers), waiters := WokenWaiters(s.waiters))
  }

  function Put(s: System, w: nat, worker: Worker): System
    requires w < |s.workers|
  {
    s.(workers := s.workers[w := worker])
  }

  // ---- Steps ----

  predicate Enabled(s: System, e: Event) {
    match e
    case Enter(w) => w < |s.workers| && s.workers[w] == Free
    case Leave(w, _) => w < |s.workers| && s.workers[w] == Guest
    case Read(w) => w < |s.workers| && s.workers[w] == Out
    case Park(w) => w < |s.workers| && s.workers[w] == SawHold
    case Wake(w) => w < |s.workers| && s.workers[w] == Asleep
    case Check(w) => w < |s.workers| && s.workers[w] == Awake && s.parked > 0
    case Signal(w) => w < |s.workers| && s.workers[w] == Ending
    case Tell(_) => true
    case Notify => s.owed > 0
    case Arrive(waiter) => waiter.phase == Checking
    case WaiterWakes(i) => i < |s.waiters| && s.waiters[i].phase == Sleeping
    case WaiterChecks(i, expired) =>
      && i < |s.waiters| && s.waiters[i].phase == Checking
      && (expired ==> s.waiters[i].UntilStill? || s.waiters[i].timed)
  }

  /** What a waiter which holds the lock does next. */
  function Checked(s: System, waiter: Waiter, expired: bool): Phase {
    match waiter
    case UntilStill(count, _) =>
      if s.parked >= count then Ended(Held)
      else if s.order != Hold then Ended(Stopped)
      else if expired then Ended(Waiting)
      else Sleeping
    case UntilStop(_, _) =>
      if s.order == Stop then Ended(Stopped)
      else if expired then Ended(Waiting)
      else Sleeping
  }

  function After(s: System, e: Event): System
    requires Enabled(s, e)
  {
    match e
    case Enter(w) =>
      Put(s, w, Guest).(locked := if w < s.vcpus then s.locked + {w} else s.locked)
    case Leave(w, interrupted) =>
      Put(s, w, if interrupted then Out else Ending).(locked := s.locked - {w})
    case Read(w) =>
      Put(s, w, match s.order case Run => Free case Hold => SawHold case Stop => Ending)
    case Park(w) =>
      if s.order == Hold then Put(Woken(s), w, Asleep).(parked := s.parked + 1) else Put(s, w, Free)
    case Wake(w) =>
      Put(s, w, Awake)
    case Check(w) =>
      if s.order == Hold then Put(s, w, Asleep) else Put(s, w, Free).(parked := s.parked - 1)
    case Signal(w) =>
      Put(s, w, Gone).(order := Stop, owed := s.owed + 1)
    case Tell(order) =>
      s.(order := order, owed := s.owed + 1)
    case Notify =>
      Woken(s).(owed := s.owed - 1)
    case Arrive(waiter) =>
      s.(waiters := s.waiters + [waiter])
    case WaiterWakes(i) =>
      s.(waiters := s.waiters[i := s.waiters[i].(phase := Checking)])
    case WaiterChecks(i, expired) =>
      s.(waiters := s.waiters[i := s.waiters[i].(phase := Checked(s, s.waiters[i], expired))])
  }

  /** The order changes, or is set again. */
  predicate Tells(e: Event) { e.Tell? || e.Signal? }

  ghost predicate CanRun(s: System, events: seq<Event>)
    decreases |events|
  {
    events == [] || (Enabled(s, events[0]) && CanRun(After(s, events[0]), events[1..]))
  }

  ghost function RunAll(s: System, events: seq<Event>): System
    requires CanRun(s, events)
    decreases |events|
  {
    if events == [] then s else RunAll(After(s, events[0]), events[1..])
  }

  /** A guest starting, with its threads about to enter their loops. */
  function Started(vcpus: nat, devices: nat): System {
    System(Run, 0, 0, vcpus, {}, seq(vcpus + devices, _ => Free), [])
  }

  // ---- Invariant ----

  /** The wait of a sleeping worker is over. */
  predicate Overslept(s: System, w: Worker) { w.Asleep? && s.order != Hold }

  /** The wait of a sleeping waiter is over. */
  predicate WaitIsOver(s: System, waiter: Waiter) {
    waiter.phase.Sleeping? &&
    (if waiter.UntilStill? then s.parked >= waiter.count || s.order != Hold else s.order == Stop)
  }

  ghost predicate Counted(s: System) {
    s.parked == Insiders(s.workers)
  }

  ghost predicate LocksKept(s: System) {
    forall w: nat :: w in s.locked <==> w < s.vcpus && w < |s.workers| && s.workers[w].Guest?
  }

  /** A thread asleep whose condition has gone has a `notify_all` to come. */
  ghost predicate NoneLost(s: System) {
    && (forall w :: 0 <= w < |s.workers| && Overslept(s, s.workers[w]) ==> s.owed > 0)
    && (forall i :: 0 <= i < |s.waiters| && WaitIsOver(s, s.waiters[i]) ==> s.owed > 0)
    && (forall i :: 0 <= i < |s.waiters| && s.waiters[i].UntilStill? && s.waiters[i].phase.Sleeping? ==>
                      s.parked < s.waiters[i].count)
  }

  ghost predicate Inv(s: System) {
    Counted(s) && LocksKept(s) && NoneLost(s)
  }

  lemma {:induction false} InsidersPut(workers: seq<Worker>, w: nat, worker: Worker)
    requires w < |workers|
    ensures Insiders(workers[w := worker]) + (if Inside(workers[w]) then 1 else 0) ==
            Insiders(workers) + (if Inside(worker) then 1 else 0)
    decreases |workers|
  {
    var n := |workers| - 1;
    if w < n {
      InsidersPut(workers[..n], w, worker);
      assert workers[w := worker][..n] == workers[..n][w := worker];
    } else {
      assert workers[w := worker][..n] == workers[..n];
    }
  }

  lemma {:induction false} InsidersWoken(workers: seq<Worker>)
    ensures Insiders(WokenWorkers(workers)) == Insiders(workers)
    decreases |workers|
  {
    if workers != [] {
      var n := |workers| - 1;
      InsidersWoken(workers[..n]);
      assert WokenWorkers(workers)[..n] == WokenWorkers(workers[..n]);
    }
  }

  /** The count reaches the number of threads only when each is inside. */
  lemma {:induction false} AllInside(workers: seq<Worker>)
    ensures Insiders(workers) == |workers| <==> forall w :: 0 <= w < |workers| ==> Inside(workers[w])
    decreases |workers|
  {
    if workers != [] {
      var n := |workers| - 1;
      AllInside(workers[..n]);
      assert forall w :: 0 <= w < n ==> workers[..n][w] == workers[w];
    }
  }

  lemma {:induction false} NoneInside(workers: seq<Worker>)
    requires forall w :: 0 <= w < |workers| ==> !Inside(workers[w])
    ensures Insiders(workers) == 0
    decreases |workers|
  {
    if workers != [] {
      NoneInside(workers[..|workers| - 1]);
    }
  }

  lemma StepCounted(s: System, e: Event)
    requires Counted(s) && Enabled(s, e)
    ensures Counted(After(s, e))
  {
    hide Insiders;
    InsidersWoken(s.workers);
    match e
    case Enter(w) => InsidersPut(s.workers, w, Guest);
    case Leave(w, interrupted) => InsidersPut(s.workers, w, if interrupted then Out else Ending);
    case Read(w) => InsidersPut(s.workers, w, After(s, e).workers[w]);
    case Park(w) =>
      InsidersPut(s.workers, w, Free);
      InsidersPut(WokenWorkers(s.workers), w, Asleep);
    case Wake(w) => InsidersPut(s.workers, w, Awake);
    case Check(w) => InsidersPut(s.workers, w, After(s, e).workers[w]);
    case Signal(w) => InsidersPut(s.workers, w, Gone);
    case _ =>
  }

  lemma StepLocks(s: System, e: Event)
    requires LocksKept(s) && Enabled(s, e)
    ensures LocksKept(After(s, e))
  {
  }

  lemma StepNoneLost(s: System, e: Event)
    requires NoneLost(s) && Enabled(s, e)
    ensures NoneLost(After(s, e))
  {
  }

  lemma StepKeeps(s: System, e: Event)
    requires Inv(s) && Enabled(s, e)
    ensures Inv(After(s, e))
  {
    StepCounted(s, e);
    StepLocks(s, e);
    StepNoneLost(s, e);
  }

  lemma {:induction false} RunKeeps(s: System, events: seq<Event>)
    requires Inv(s) && CanRun(s, events)
    ensures Inv(RunAll(s, events))
    decreases |events|
  {
    if events != [] {
      StepKeeps(s, events[0]);
      RunKeeps(After(s, events[0]), events[1..]);
    }
  }

  lemma StartedKeeps(vcpus: nat, devices: nat)
    ensures Inv(Started(vcpus, devices))
  {
    NoneInside(Started(vcpus, devices).workers);
  }

  // ---- What a hold is worth ----

  ghost predicate Reached(s: System) {
    exists vcpus: nat, devices: nat, events: seq<Event> ::
      CanRun(Started(vcpus, devices), events) && s == RunAll(Started(vcpus, devices), events)
  }

  lemma ReachedKeeps(s: System)
    requires Reached(s)
    ensures Inv(s)
  {
    var vcpus: nat, devices: nat, events: seq<Event> :|
      CanRun(Started(vcpus, devices), events) && s == RunAll(Started(vcpus, devices), events);
    StartedKeeps(vcpus, devices);
    RunKeeps(Started(vcpus, devices), events);
  }

  /** Each thread is parked, and no vCPU is locked. */
  ghost predicate AllStill(s: System) {
    s.locked == {} && forall w :: 0 <= w < |s.workers| ==> Inside(s.workers[w])
  }

  /** A wait for all the threads which returns `Held` finds each inside. */
  lemma HeldFindsAllStill(s: System, i: nat, expired: bool)
    requires Reached(s) && Enabled(s, WaiterChecks(i, expired))
    requires s.waiters[i].UntilStill? && s.waiters[i].count == |s.workers|
    ensures After(s, WaiterChecks(i, expired)).waiters[i].phase == Ended(Held) <==> AllStill(s)
  {
    ReachedKeeps(s);
    AllInside(s.workers);
    assert s.parked == |s.workers| ==> forall w: nat :: w !in s.locked;
    assert s.parked == |s.workers| <==> AllStill(s);
  }

  /** While the order is `Hold` no thread leaves. One woken by a resume which
      a new pause overtook goes back to sleep without being uncounted. */
  lemma StillStep(s: System, e: Event)
    requires s.order == Hold && AllStill(s) && Enabled(s, e) && !Tells(e)
    ensures After(s, e).order == Hold && AllStill(After(s, e))
  {
  }

  lemma {:induction false} StillRun(s: System, events: seq<Event>)
    requires s.order == Hold && AllStill(s) && CanRun(s, events)
    requires forall k :: 0 <= k < |events| ==> !Tells(events[k])
    ensures AllStill(RunAll(s, events))
    decreases |events|
  {
    if events != [] {
      StillStep(s, events[0]);
      StillRun(After(s, events[0]), events[1..]);
    }
  }

  /** No run without a new order gets a thread out. */
  ghost predicate HoldsUntilTold(s: System) {
    forall events :: CanRun(s, events) && (forall k :: 0 <= k < |events| ==> !Tells(events[k])) ==>
                       AllStill(RunAll(s, events))
  }

  /** A thread told anything but to hold can leave with no further order. */
  lemma LeavesUnheld(s: System)
    requires Inv(s) && AllStill(s) && |s.workers| > 0 && s.order != Hold
    ensures !HoldsUntilTold(s)
  {
    var last := [Check(0)];
    AllInside(s.workers);
    var woken := if s.workers[0].Asleep? then After(s, Wake(0)) else s;
    var out := After(woken, Check(0));
    assert !Inside(out.workers[0]);
    RunOne(woken, Check(0));
    if s.workers[0].Asleep? {
      var events := [Wake(0), Check(0)];
      assert events[1..] == last;
      assert CanRun(s, events) && RunAll(s, events) == out;
      assert forall k :: 0 <= k < |events| ==> !Tells(events[k]);
    } else {
      assert CanRun(s, last) && RunAll(s, last) == out;
    }
  }

  lemma RunOne(s: System, e: Event)
    requires Enabled(s, e)
    ensures CanRun(s, [e]) && RunAll(s, [e]) == After(s, e)
  {
    assert [e][1..] == [];
  }

  /** A hold is a real one exactly if the order still is `Hold` when each
      thread is seen parked. */
  lemma HoldIsReal(s: System)
    requires Reached(s) && AllStill(s) && |s.workers| > 0
    ensures HoldsUntilTold(s) <==> s.order == Hold
  {
    ReachedKeeps(s);
    if s.order == Hold {
      forall events | CanRun(s, events) && forall k :: 0 <= k < |events| ==> !Tells(events[k])
        ensures AllStill(RunAll(s, events))
      {
        StillRun(s, events);
      }
    } else {
      LeavesUnheld(s);
    }
  }

  /** One vCPU parks, the guest is told to stop before `pause` looks, and the
      count is checked before the order: `Held` under a stop order, after
      which the vCPU leaves with nobody telling it anything. */
  lemma HeldUnderStop()
    ensures exists s :: Reached(s) && s.order == Stop && s.waiters == [UntilStill(1, Ended(Held))] && !HoldsUntilTold(s)
  {
    ParkedIsReached();
    var parked := System(Hold, 1, 1, 1, {}, [Asleep], [UntilStill(1, Checking)]);
    var told := System(Stop, 1, 2, 1, {}, [Asleep], [UntilStill(1, Checking)]);
    var s := System(Stop, 1, 2, 1, {}, [Asleep], [UntilStill(1, Ended(Held))]);
    hide Reached;
    ReachedTo(parked, Tell(Stop), told);
    ReachedTo(told, WaiterChecks(0, false), s);
    HoldIsReal(s);
  }

  /** The vCPU goes in and is told to hold. */
  lemma ToldIsReached()
    ensures Reached(System(Hold, 0, 1, 1, {0}, [Guest], [UntilStill(1, Checking)]))
  {
    var free := System(Run, 0, 0, 1, {}, [Free], []);
    ReachedStart(1, 0);
    assert free == Started(1, 0);
    hide Reached;
    ReachedTo(free, Enter(0), System(Run, 0, 0, 1, {0}, [Guest], []));
    ReachedTo(System(Run, 0, 0, 1, {0}, [Guest], []), Tell(Hold), System(Hold, 0, 1, 1, {0}, [Guest], []));
    ReachedTo(System(Hold, 0, 1, 1, {0}, [Guest], []), Arrive(UntilStill(1, Checking)),
              System(Hold, 0, 1, 1, {0}, [Guest], [UntilStill(1, Checking)]));
  }

  /** It comes out and parks. */
  lemma ParkedIsReached()
    ensures Reached(System(Hold, 1, 1, 1, {}, [Asleep], [UntilStill(1, Checking)]))
  {
    var waiting := [UntilStill(1, Checking)];
    ToldIsReached();
    hide Reached;
    ReachedTo(System(Hold, 0, 1, 1, {0}, [Guest], waiting), Leave(0, true), System(Hold, 0, 1, 1, {}, [Out], waiting));
    ReachedTo(System(Hold, 0, 1, 1, {}, [Out], waiting), Read(0), System(Hold, 0, 1, 1, {}, [SawHold], waiting));
    ReachedTo(System(Hold, 0, 1, 1, {}, [SawHold], waiting), Park(0), System(Hold, 1, 1, 1, {}, [Asleep], waiting));
  }

  lemma ReachedTo(s: System, e: Event, s': System)
    requires Reached(s) && Enabled(s, e) && s' == After(s, e)
    ensures Reached(s')
  {
    ReachedStep(s, e);
  }

  lemma ReachedStart(vcpus: nat, devices: nat)
    ensures Reached(Started(vcpus, devices))
  {
    assert CanRun(Started(vcpus, devices), []) && RunAll(Started(vcpus, devices), []) == Started(vcpus, devices);
  }

  lemma {:induction false} RunOn(s: System, events: seq<Event>, e: Event)
    requires CanRun(s, events) && Enabled(RunAll(s, events), e)
    ensures CanRun(s, events + [e]) && RunAll(s, events + [e]) == After(RunAll(s, events), e)
    decreases |events|
  {
    if events == [] {
      assert events + [e] == [e];
      RunOne(s, e);
    } else {
      RunOn(After(s, events[0]), events[1..], e);
      assert (events + [e])[0] == events[0] && (events + [e])[1..] == events[1..] + [e];
    }
  }

  lemma ReachedStep(s: System, e: Event)
    requires Reached(s) && Enabled(s, e)
    ensures Reached(After(s, e))
  {
    var vcpus: nat, devices: nat, events: seq<Event> :|
      CanRun(Started(vcpus, devices), events) && s == RunAll(Started(vcpus, devices), events);
    RunOn(Started(vcpus, devices), events, e);
  }

  // ---- No lost wake-up ----

  /** In every interleaving, a worker asleep through a change of the order is
      woken by a `notify_all` still to come, and then leaves. */
  lemma WorkerIsWoken(s: System, w: nat)
    requires Reached(s) && w < |s.workers| && Overslept(s, s.workers[w])
    ensures Enabled(s, Notify) && Enabled(After(s, Notify), Check(w))
    ensures After(After(s, Notify), Check(w)).workers[w] == Free
  {
    ReachedKeeps(s);
    StepKeeps(s, Notify);
    var woken := After(s, Notify);
    AnInsider(woken.workers, w);
  }

  lemma {:induction false} AnInsider(workers: seq<Worker>, w: nat)
    requires w < |workers| && Inside(workers[w])
    ensures Insiders(workers) > 0
    decreases |workers|
  {
    var n := |workers| - 1;
    if w < n {
      AnInsider(workers[..n], w);
    }
  }

  /** As is a waiter, timed or not, and its wait then ends. */
  lemma WaiterIsWoken(s: System, i: nat)
    requires Reached(s) && i < |s.waiters| && WaitIsOver(s, s.waiters[i])
    ensures Enabled(s, Notify) && Enabled(After(s, Notify), WaiterChecks(i, false))
    ensures After(After(s, Notify), WaiterChecks(i, false)).waiters[i].phase.Ended?
  {
    ReachedKeeps(s);
  }

  /** The count is that of the threads inside, in every reachable state. */
  lemma ParkedIsExact(s: System)
    requires Reached(s)
    ensures s.parked == Insiders(s.workers)
    ensures forall w :: 0 <= w < s.vcpus && w < |s.workers| && Inside(s.workers[w]) ==> w !in s.locked
  {
    ReachedKeeps(s);
  }

  // ---- Threads obey ----

  /** The event is a step of worker `w`. */
  predicate StepOf(e: Event, w: nat) {
    && (e.Enter? || e.Leave? || e.Read? || e.Park? || e.Wake? || e.Check? || e.Signal?)
    && e.w == w
  }

  /** Some order other than `order` is given. */
  predicate TellsElse(e: Event, order: Order) {
    (e.Tell? && e.order != order) || (e.Signal? && order != Stop)
  }

  /** Steps a worker told to stop is from its end. */
  function StopsLeft(w: Worker): nat {
    match w
    case Asleep => 6
    case Awake => 5
    case SawHold => 5
    case Free => 4
    case Guest => 3
    case Out => 2
    case Ending => 1
    case Gone => 0
  }

  /** Entries into the guest left to a worker told to stop. */
  function EntriesLeft(w: Worker): nat {
    if w.Asleep? || w.Awake? || w.SawHold? || w.Free? then 1 else 0
  }

  /** Under a stop order each step of a worker takes it nearer to its end, and no
      step of another takes it away. */
  lemma StopStep(s: System, e: Event, w: nat)
    requires Inv(s) && s.order == Stop && Enabled(s, e) && !TellsElse(e, Stop) && w < |s.workers|
    ensures var t := After(s, e);
            && t.order == Stop && |t.workers| == |s.workers|
            && StopsLeft(t.workers[w]) + (if StepOf(e, w) then 1 else 0) <= StopsLeft(s.workers[w])
            && EntriesLeft(t.workers[w]) + (if e == Enter(w) then 1 else 0) <= EntriesLeft(s.workers[w])
  {
  }

  /** It always has a step to take until then. */
  lemma StopHasStep(s: System, w: nat)
    requires Inv(s) && s.order == Stop && w < |s.workers| && !s.workers[w].Gone?
    ensures exists e :: StepOf(e, w) && Enabled(s, e)
  {
    var e := match s.workers[w]
      case Free => Enter(w)
      case Guest => Leave(w, true)
      case Out => Read(w)
      case SawHold => Park(w)
      case Asleep => Wake(w)
      case Awake => Check(w)
      case Ending => Signal(w)
      case Gone => Notify;
    if s.workers[w].Awake? {
      AnInsider(s.workers, w);
    }
    assert StepOf(e, w) && Enabled(s, e);
  }

  /** No order but `order` is given along the run. */
  ghost predicate OnlyTells(events: seq<Event>, order: Order) {
    forall k :: 0 <= k < |events| ==> !TellsElse(events[k], order)
  }

  function StepsOf(events: seq<Event>, w: nat): nat {
    if events == [] then 0 else (if StepOf(events[0], w) then 1 else 0) + StepsOf(events[1..], w)
  }

  function Entries(events: seq<Event>, w: nat): nat {
    if events == [] then 0 else (if events[0] == Enter(w) then 1 else 0) + Entries(events[1..], w)
  }

  lemma {:induction false} StopRun(s: System, events: seq<Event>, w: nat)
    requires Inv(s) && s.order == Stop && CanRun(s, events) && OnlyTells(events, Stop) && w < |s.workers|
    ensures var t := RunAll(s, events);
            && |t.workers| == |s.workers|
            && StopsLeft(t.workers[w]) + StepsOf(events, w) <= StopsLeft(s.workers[w])
            && EntriesLeft(t.workers[w]) + Entries(events, w) <= EntriesLeft(s.workers[w])
    decreases |events|
  {
    if events != [] {
      StepKeeps(s, events[0]);
      StopStep(s, events[0], w);
      hide After, Enabled, Inv, StepOf, StopsLeft, EntriesLeft, TellsElse;
      StopRun(After(s, events[0]), events[1..], w);
    }
  }

  /** A stop is obeyed: while it stands, each worker enters the guest at most
      once more, takes at most six steps, and after as many as it has left is
      gone. */
  lemma StopIsObeyed(s: System, events: seq<Event>, w: nat)
    requires Reached(s) && s.order == Stop && CanRun(s, events) && OnlyTells(events, Stop) && w < |s.workers|
    ensures Entries(events, w) <= 1 && StepsOf(events, w) <= StopsLeft(s.workers[w]) <= 6
    ensures var t := RunAll(s, events);
            && w < |t.workers|
            && (StepsOf(events, w) == StopsLeft(s.workers[w]) ==> t.workers[w] == Gone)
            && (t.workers[w] != Gone ==> exists e :: StepOf(e, w) && Enabled(t, e))
  {
    ReachedKeeps(s);
    StopRun(s, events, w);
    StopStands(s, events);
    hide Inv, Enabled, After;
    if RunAll(s, events).workers[w] != Gone {
      StopHasStep(RunAll(s, events), w);
    }
  }

  lemma {:induction false} StopStands(s: System, events: seq<Event>)
    requires Inv(s) && s.order == Stop && CanRun(s, events) && OnlyTells(events, Stop)
    ensures Inv(RunAll(s, events)) && RunAll(s, events).order == Stop
    decreases |events|
  {
    if events != [] {
      StepKeeps(s, events[0]);
      assert After(s, events[0]).order == Stop;
      hide After, Enabled, Inv, TellsElse;
      StopStands(After(s, events[0]), events[1..]);
    }
  }

  /** A worker which has read the stop order, or left the guest for good, never
      enters it again, whatever is told later. */
  lemma {:induction false} EndedStays(s: System, events: seq<Event>, w: nat)
    requires CanRun(s, events) && w < |s.workers| && (s.workers[w].Ending? || s.workers[w].Gone?)
    ensures var t := RunAll(s, events);
            |t.workers| == |s.workers| && (t.workers[w].Ending? || t.workers[w].Gone?) && Entries(events, w) == 0
    decreases |events|
  {
    if events != [] {
      EndedStays(After(s, events[0]), events[1..], w);
    }
  }

  /** A worker ends exactly by leaving the guest for good or reading a stop, and
      comes to park exactly by reading a hold. */
  lemma OrderDecides(s: System, e: Event, w: nat)
    requires Enabled(s, e) && w < |s.workers|
    ensures var t := After(s, e);
            && |t.workers| == |s.workers|
            && (t.workers[w].Ending? && !s.workers[w].Ending? <==>
                e == Leave(w, false) || (e == Read(w) && s.order == Stop))
            && (t.workers[w].SawHold? && !s.workers[w].SawHold? <==> e == Read(w) && s.order == Hold)
            && (t.workers[w].Asleep? && !Inside(s.workers[w]) <==> e == Park(w) && s.order == Hold)
            && (Inside(s.workers[w]) && !Inside(t.workers[w]) <==> e == Check(w) && s.order != Hold)
            && (e == Read(w) && s.order == Run ==> t.workers[w] == Free)
            && (!Inside(t.workers[w]) && Inside(s.workers[w]) ==> t.workers[w] == Free)
  {
  }

  /** Steps a worker told to hold is from being parked. */
  function HoldsLeft(w: Worker): nat {
    match w
    case Free => 4
    case Guest => 3
    case Out => 2
    case SawHold => 1
    case _ => 0
  }

  /** The worker leaves the guest for good. */
  predicate Quits(e: Event, w: nat) { e == Leave(w, false) }

  /** Under a hold each step of a worker not yet parked takes it nearer, and a
      parked one stays so. */
  lemma HoldStep(s: System, e: Event, w: nat)
    requires Inv(s) && s.order == Hold && Enabled(s, e) && !TellsElse(e, Hold) && !Quits(e, w)
    requires w < |s.workers| && !s.workers[w].Ending? && !s.workers[w].Gone?
    ensures var t := After(s, e);
            && t.order == Hold && |t.workers| == |s.workers| && !t.workers[w].Ending? && !t.workers[w].Gone?
            && HoldsLeft(t.workers[w]) <= HoldsLeft(s.workers[w])
            && (StepOf(e, w) && HoldsLeft(s.workers[w]) > 0 ==> HoldsLeft(t.workers[w]) < HoldsLeft(s.workers[w]))
  {
  }

  lemma {:induction false} HoldRun(s: System, events: seq<Event>, w: nat)
    requires Inv(s) && s.order == Hold && CanRun(s, events) && OnlyTells(events, Hold) && w < |s.workers|
    requires !s.workers[w].Ending? && !s.workers[w].Gone? && forall k :: 0 <= k < |events| ==> !Quits(events[k], w)
    ensures var t := RunAll(s, events);
            && |t.workers| == |s.workers|
            && (StepsOf(events, w) >= HoldsLeft(s.workers[w]) ==> Inside(t.workers[w]))
    decreases |events|
  {
    if events != [] {
      StepKeeps(s, events[0]);
      HoldStep(s, events[0], w);
      hide After, Enabled, Inv, StepOf, TellsElse, Quits;
      HoldRun(After(s, events[0]), events[1..], w);
    }
  }

  /** A hold is obeyed: a worker which does not quit is parked once it has taken
      four steps under it. */
  lemma HoldIsObeyed(s: System, events: seq<Event>, w: nat)
    requires Reached(s) && s.order == Hold && CanRun(s, events) && OnlyTells(events, Hold) && w < |s.workers|
    requires !s.workers[w].Ending? && !s.workers[w].Gone? && forall k :: 0 <= k < |events| ==> !Quits(events[k], w)
    requires StepsOf(events, w) >= 4
    ensures w < |RunAll(s, events).workers| && Inside(RunAll(s, events).workers[w])
  {
    ReachedKeeps(s);
    HoldRun(s, events, w);
  }

  /** Telling a parked thread anything but to hold gets it out, once it is woken
      and has looked. */
  lemma TellReleases(s: System, order: Order, w: nat)
    requires Reached(s) && w < |s.workers| && s.workers[w].Asleep? && order != Hold
    ensures var told := After(s, Tell(order));
            && told.order == order && Enabled(told, Notify) && Enabled(After(told, Notify), Check(w))
            && After(After(told, Notify), Check(w)).workers[w] == Free
  {
    ReachedStep(s, Tell(order));
    WorkerIsWoken(After(s, Tell(order)), w);
  }

  /** How a wait ends: held exactly if enough are parked, stopped exactly if not
      and the order to hold is gone, or for a stop exactly if that stands, and
      without either only when time is up. */
  lemma WaitEndsRightly(s: System, i: nat, expired: bool)
    requires Enabled(s, WaiterChecks(i, expired))
    ensures var waiter, phase := s.waiters[i], After(s, WaiterChecks(i, expired)).waiters[i].phase;
            && (phase == Ended(Held) <==> waiter.UntilStill? && waiter.count <= s.parked)
            && (phase == Ended(Stopped) <==>
                if waiter.UntilStill? then s.parked < waiter.count && s.order != Hold else s.order == Stop)
            && (phase == Ended(Waiting) <==>
                expired && (if waiter.UntilStill? then s.parked < waiter.count && s.order == Hold else s.order != Stop))
            && (phase == Sleeping <==>
                !expired && (if waiter.UntilStill? then s.parked < waiter.count &&
                                                        s.order == Hold else s.order != Stop))
  {
  }
}
