/** What the disk does on a notify is a run of the protocol: each chain it
    handled is one taken, filled and finished, or refused, by the steps of
    `ExactlyOnce`. Relates `notify` of src/lingcore/src/devices/virtio/block.rs
    to the protocol of the queue. */
module ServiceRun {
  import opened Wrappers
  import opened Bytes
  import opened GuestMemory
  import opened Virtqueue
  import opened Slots
  import opened Scatter
  import opened Driver
  import opened BlockDevice
  import P = ExactlyOnce

  /** The protocol's state between two chains. */
  function StateOf(m: Moment, published: seq<nat>, fates: seq<P.Fate>, saved: seq<P.Snapshot>): P.System {
    P.System(m.ram, Slot(m.queue.rings, Some(m.queue)), P.Idle, published, fates, saved)
  }

  ghost predicate DeviceRun(s: P.System, events: seq<P.Event>, t: P.System) {
    P.IsRun(s, events) && (forall i :: 0 <= i < |events| ==> P.OfDevice(events[i])) && t == P.Final(s, events)
  }

  lemma NoSteps(s: P.System)
    ensures DeviceRun(s, [], s)
  {
  }

  lemma {:induction false} StepsOn(s: P.System, events: seq<P.Event>, t: P.System, more: seq<P.Event>, u: P.System)
    requires DeviceRun(s, events, t) && DeviceRun(t, more, u)
    ensures DeviceRun(s, events + more, u)
    decreases |events|
  {
    hide P.After, P.Enabled, P.OfDevice;
    if events == [] {
      assert events + more == more;
    } else {
      var next, all := P.After(s, events[0]), events + more;
      StepsOn(next, events[1..], t, more, u);
      assert all[0] == events[0] && all[1..] == events[1..] + more;
      assert forall i :: 0 <= i < |all| ==> P.OfDevice(all[i]);
    }
  }

  lemma OneStep(s: P.System, e: P.Event)
    requires P.Enabled(s, e) && P.OfDevice(e)
    ensures DeviceRun(s, [e], P.After(s, e))
  {
    hide P.After, P.Enabled, P.OfDevice;
    var t := P.After(s, e);
    assert [e][1..] == [] && P.IsRun(t, []) && P.Final(t, []) == t;
  }

  lemma PopKeepsRings(q: QueueState, ram: Ram)
    requires q.rings.size > 0
    ensures AfterPop(q, ram).queue.rings == q.rings
  {
    hide WalkTable, ReadU16, Offset;
  }

  lemma UsedKeepsRings(q: QueueState, ram: Ram, head: nat, len: nat)
    requires q.rings.size > 0
    ensures AfterUsed(q, ram, head, len).queue.rings == q.rings
  {
    hide StoreElement, StoreAt;
  }

  /** The chain a pop returns is in hand after the step which takes it. */
  lemma TakeStep(m: Moment, published: seq<nat>, fates: seq<P.Fate>, saved: seq<P.Snapshot>)
    requires m.queue.rings.size > 0 && Serving(m.queue, m.ram, published, fates) && |fates| < |published|
    ensures var s, popped := StateOf(m, published, fates, saved), AfterPop(m.queue, m.ram);
            && P.Enabled(s, P.Take)
            && (popped.outcome.Err? ==>
                  P.After(s, P.Take) == StateOf(m.(queue := popped.queue), published, fates + [P.Refused], saved))
            && (popped.outcome.Ok? && popped.outcome.value.Some? ==>
                  P.After(s, P.Take) ==
                  StateOf(m.(queue := popped.queue), published, fates,
                          saved).(device := P.Holding(popped.outcome.value.value)))
  {
    hide AfterPop, WalkTable, BuffersClear;
    P.PopAgrees(m.queue, m.ram, published, fates);
    PopKeepsRings(m.queue, m.ram);
    hide P.Agrees;
  }

  lemma RefusedIsRun(sectors: nat, writable: bool, m: Moment, m': Moment, published: seq<nat>, fates: seq<P.Fate>,
                     saved: seq<P.Snapshot>) returns (events: seq<P.Event>)
    requires Serving(m.queue, m.ram, published, fates) && |fates| < |published|
    requires Handled(sectors, writable, m, m', P.Refused)
    ensures DeviceRun(StateOf(m, published, fates, saved), events, StateOf(m', published, fates + [P.Refused], saved))
  {
    hide AfterPop, Serving, DeviceRun;
    TakeStep(m, published, fates, saved);
    var s := StateOf(m, published, fates, saved);
    OneStep(s, P.Take);
    events := [P.Take];
    if AfterPop(m.queue, m.ram).outcome.Ok? {
      PopKeepsRings(m.queue, m.ram);
      var held := P.After(s, P.Take);
      OneStep(held, P.Refuse);
      StepsOn(s, events, held, [P.Refuse], P.After(held, P.Refuse));
      events := events + [P.Refuse];
    }
  }

  /** Filling the buffers of the chain in hand and reporting it. */
  lemma FinishSteps(m: Moment, chain: Chain, ram: Ram, m': Moment, len: nat, published: seq<nat>, fates: seq<P.Fate>,
                    saved: seq<P.Snapshot>)
    requires m.queue.rings.size > 0 && |fates| < |published| && len < U32_LIMIT
    requires P.SameRings(m.ram, ram, m.queue.rings)
    requires AfterUsed(m.queue, ram, chain.head, len) == Added(m'.queue, m'.ram, Ok(()))
    ensures DeviceRun(StateOf(m, published, fates, saved).(device := P.Holding(chain)),
                      [P.DeviceStores(ram), P.Finish(len)],
                      StateOf(m', published, fates + [P.Served(len)], saved))
  {
    hide AfterUsed, P.SameRings, DeviceRun;
    var s := StateOf(m, published, fates, saved).(device := P.Holding(chain));
    var filled := P.After(s, P.DeviceStores(ram));
    UsedKeepsRings(m.queue, ram, chain.head, len);
    OneStep(s, P.DeviceStores(ram));
    OneStep(filled, P.Finish(len));
    StepsOn(s, [P.DeviceStores(ram)], filled, [P.Finish(len)], P.After(filled, P.Finish(len)));
    assert [P.DeviceStores(ram)] + [P.Finish(len)] == [P.DeviceStores(ram), P.Finish(len)];
  }

  lemma ServedIsRun(sectors: nat, writable: bool, m: Moment, m': Moment, len: nat, published: seq<nat>,
                    fates: seq<P.Fate>, saved: seq<P.Snapshot>) returns (events: seq<P.Event>)
    requires Serving(m.queue, m.ram, published, fates) && |fates| < |published|
    requires Handled(sectors, writable, m, m', P.Served(len))
    ensures DeviceRun(StateOf(m, published, fates, saved), events,
                      StateOf(m', published, fates + [P.Served(len)], saved))
  {
    hide AfterPop, Serving, DeviceRun, RequestDone, HeaderOf, AfterUsed, OnlyInto, Store, BuffersClear, ChainClear,
      P.Agrees;
    hide P.SameRings, SameTable, AllBacked;
    var s, popped := StateOf(m, published, fates, saved), AfterPop(m.queue, m.ram);
    var chain, taken := popped.outcome.value.value, m.(queue := popped.queue);
    TakeStep(m, published, fates, saved);
    PopServes(m.queue, m.ram, published, fates);
    PopKeepsRings(m.queue, m.ram);
    var ram: Ram, status: Byte, written: nat :|
      && RequestDone(sectors, writable, HeaderOf(chain, m.ram), DataOf(chain), m.ram, m.disk, ram, m'.disk,
                     status, written)
      && Reported(popped.queue, Store(ram, AnswerIn(chain).value, [status]), chain.head, written, m', Ok(()), len);
    var filled := Store(ram, AnswerIn(chain).value, [status]);
    RequestInto(sectors, writable, HeaderOf(chain, m.ram), DataOf(chain), m.ram, m.disk, ram, m'.disk, status, written);
    IntoAll(m.ram, ram, chain);
    IntoMore(m.ram, ram, chain.descriptors, |chain.descriptors| - 1, [status]);
    FillLeavesRings(m.ram, filled, m.queue.rings, chain.descriptors);
    OneStep(s, P.Take);
    FinishSteps(taken, chain, filled, m', len, published, fates, saved);
    events := [P.Take] + [P.DeviceStores(filled), P.Finish(len)];
    StepsOn(s, [P.Take], P.After(s, P.Take), [P.DeviceStores(filled), P.Finish(len)],
            StateOf(m', published, fates + [P.Served(len)], saved));
  }

  /** One chain handled is a run of the device which decides it, and keeps what
      the driver relies on. */
  lemma HandledIsRun(sectors: nat, writable: bool, m: Moment, m': Moment, fate: P.Fate, published: seq<nat>,
                     fates: seq<P.Fate>, saved: seq<P.Snapshot>) returns (events: seq<P.Event>)
    requires Serving(m.queue, m.ram, published, fates) && |fates| < |published|
    requires Handled(sectors, writable, m, m', fate)
    ensures DeviceRun(StateOf(m, published, fates, saved), events, StateOf(m', published, fates + [fate], saved))
    ensures Serving(m'.queue, m'.ram, published, fates + [fate])
  {
    HandledServes(sectors, writable, m, m', fate, published, fates);
    hide Handled, Serving, DeviceRun;
    match fate
    case Served(len) => events := ServedIsRun(sectors, writable, m, m', len, published, fates, saved);
    case Refused => events := RefusedIsRun(sectors, writable, m, m', published, fates, saved);
  }

  lemma HandledServes(sectors: nat, writable: bool, m: Moment, m': Moment, fate: P.Fate, published: seq<nat>,
                      fates: seq<P.Fate>)
    requires Serving(m.queue, m.ram, published, fates) && |fates| < |published|
    requires Handled(sectors, writable, m, m', fate)
    ensures Serving(m'.queue, m'.ram, published, fates + [fate])
  {
    hide Serving, Held, AfterPop, Answered, AllBacked;
    var popped := AfterPop(m.queue, m.ram);
    PopServes(m.queue, m.ram, published, fates);
    if popped.outcome.Ok? && popped.outcome.value.Some? {
      var chain := popped.outcome.value.value;
      if fate.Served? {
        AnswerServes(sectors, writable, chain, m.(queue := popped.queue), m', Ok(()), fate.len, published, fates);
      } else {
        RefuseServes(popped.queue, m.ram, published, fates, chain);
      }
    }
  }

  /** What a notify does, and with it the disk, is a run of device steps from
      the state it finds to the state it leaves. */
  lemma {:induction false} NotifyIsRun(sectors: nat, writable: bool, moments: seq<Moment>, first: Moment, last: Moment,
                                       published: seq<nat>, fates: seq<P.Fate>, decided: seq<P.Fate>,
                                       saved: seq<P.Snapshot>) returns (events: seq<P.Event>)
    requires Serving(first.queue, first.ram, published, fates) && |decided| <= |published|
    requires HandledSince(sectors, writable, moments, first, last, fates, decided)
    ensures DeviceRun(StateOf(first, published, fates, saved), events, StateOf(last, published, decided, saved))
    decreases |decided| - |fates|
  {
    hide Serving, Handled, DeviceRun;
    if fates == decided {
      NoSteps(StateOf(first, published, fates, saved));
      events := [];
    } else {
      var fate := decided[|fates|];
      var next, more := moments[1], fates + [fate];
      var done := HandledIsRun(sectors, writable, first, next, fate, published, fates, saved);
      HandledRest(sectors, writable, moments, first, last, fates, decided);
      var rest := NotifyIsRun(sectors, writable, moments[1..], next, last, published, more, decided, saved);
      StepsOn(StateOf(first, published, fates, saved), done, StateOf(next, published, more, saved), rest,
              StateOf(last, published, decided, saved));
      events := done + rest;
    }
  }

  lemma HandledRest(sectors: nat, writable: bool, moments: seq<Moment>, first: Moment, last: Moment,
                    fates: seq<P.Fate>, decided: seq<P.Fate>)
    requires HandledSince(sectors, writable, moments, first, last, fates, decided) && fates != decided
    ensures Handled(sectors, writable, first, moments[1], decided[|fates|])
    ensures HandledSince(sectors, writable, moments[1..], moments[1], last, fates + [decided[|fates|]], decided)
  {
    hide Handled;
    var rest, more := moments[1..], fates + [decided[|fates|]];
    forall k | |more| <= k < |decided|
      ensures Handled(sectors, writable, rest[k - |more|], rest[k - |more| + 1], decided[k])
    {
      assert rest[k - |more|] == moments[k - |fates|] && rest[k - |more| + 1] == moments[k - |fates| + 1];
    }
  }

  /** So whatever a notify leaves, the used ring in RAM names each chain served
      once and in order, and the next pop skips none. */
  lemma ServingOnce(m: Moment, published: seq<nat>, fates: seq<P.Fate>)
    requires Serving(m.queue, m.ram, published, fates)
    ensures P.ServiceHolds(StateOf(m, published, fates, []))
  {
    hide P.Agrees, BuffersClear, P.ServiceHolds;
    P.InvServes(StateOf(m, published, fates, []));
  }
}
