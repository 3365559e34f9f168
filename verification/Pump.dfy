/** The pump which moves bytes between the terminals of commands and their
    stream connections. Models the PTY part of
    src/lingcage/src/agent/session.rs. */
module Pump {
  import opened Wrappers
  import opened Bytes

  /** Size limit of one pump buffer. */
  const PUMP_CAP := 65536

  /** Bytes read at once. */
  const READ_SIZE := 8192

  /** Byte which a terminal reads as the end of input. */
  const EOT: Byte := 4

  /** All that has moved: bytes `taken` from the stdin stream, `typed` to the
      master, `shown` by the master and `written` to the stdout stream, the end
      bytes queued, and whether bytes of a direction were dropped. `given` and
      `wanted` are whether the command has a stdin and a stdout stream. */
  datatype Flow = Flow(
    given: bool, taken: seq<Byte>, typed: seq<Byte>, ends: nat, inFailed: bool,
    wanted: bool, shown: seq<Byte>, written: seq<Byte>, outFailed: bool)

  datatype Pty = Pty(
    master: bool, input: bool, output: bool, inBuf: seq<Byte>, outBuf: seq<Byte>, masterDone: bool, flow: Flow)

  /** What a nonblocking read or write comes back with. `Later` stands for
      `WouldBlock` and `Interrupted`. */
  datatype ReadIo = Data(bytes: seq<Byte>) | Eof | Later | Fault
  datatype WriteIo = Wrote(count: nat) | Later | Fault

  function Min(a: int, b: int): int { if a < b then a else b }

  function RoomIn(buffer: seq<Byte>): nat {
    if |buffer| >= PUMP_CAP then 0 else Min(PUMP_CAP - |buffer|, READ_SIZE)
  }

  function MasterRoom(p: Pty): nat {
    if p.output then RoomIn(p.outBuf) else READ_SIZE
  }

  /** A read fills at most the room it is given, and none only at the end. */
  predicate Fits(io: ReadIo, room: nat) {
    io.Data? ==> 0 < |io.bytes| <= room
  }

  predicate Within(io: WriteIo, buffer: seq<Byte>) {
    io.Wrote? ==> io.count <= |buffer|
  }

  /** Read from the master into the output buffer. Bytes are discarded if the
      output stream is gone. */
  function ReadMaster(p: Pty, io: ReadIo): Pty
    requires Fits(io, MasterRoom(p))
  {
    if p.masterDone || !p.master || MasterRoom(p) == 0 then p
    else
      match io
      case Eof => p.(masterDone := true)
      case Data(bytes) =>
        var shown := p.flow.(shown := p.flow.shown + bytes);
        if p.output then p.(outBuf := p.outBuf + bytes, flow := shown)
        else p.(flow := shown.(outFailed := true))
      case Later => p
      case Fault => p.(masterDone := true)
  }

  /** Write buffered input to the master. */
  function WriteMaster(p: Pty, io: WriteIo): Pty
    requires Within(io, p.inBuf)
  {
    if p.masterDone || !p.master then p
    else
      match io
      case Wrote(n) => p.(inBuf := p.inBuf[n..], flow := p.flow.(typed := p.flow.typed + p.inBuf[..n]))
      case Later => p
      case Fault => p.(inBuf := [], masterDone := true, flow := p.flow.(inFailed := true))
  }

  /** End the input, with an end byte after what is buffered. */
  function EndInput(p: Pty): Pty {
    p.(inBuf := p.inBuf + [EOT], input := false, flow := p.flow.(ends := p.flow.ends + 1))
  }

  /** Read from the stdin stream into the input buffer. */
  function ReadInput(p: Pty, io: ReadIo): Pty
    requires Fits(io, RoomIn(p.inBuf))
  {
    if !p.input || RoomIn(p.inBuf) == 0 then p
    else
      match io
      case Eof => EndInput(p)
      case Data(bytes) => p.(inBuf := p.inBuf + bytes, flow := p.flow.(taken := p.flow.taken + bytes))
      case Later => p
      case Fault => EndInput(p)
  }

  /** Write buffered output into the stdout stream. */
  function WriteOutput(p: Pty, io: WriteIo): Pty
    requires Within(io, p.outBuf)
  {
    if !p.output then p
    else
      match io
      case Wrote(n) => p.(outBuf := p.outBuf[n..], flow := p.flow.(written := p.flow.written + p.outBuf[..n]))
      case Later => p
      case Fault => p.(outBuf := [], output := false, flow := p.flow.(outFailed := true))
  }

  /** The stdout stream ends once the master is done and all is written. */
  function CloseOutput(p: Pty): Pty {
    if p.masterDone && p.outBuf == [] then p.(output := false) else p
  }

  // ---- Conservation ----

  /** What the terminal is to read: all the input, and its end once there. */
  function Typing(f: Flow): seq<Byte> {
    f.taken + if f.ends > 0 then [EOT] else []
  }

  /** Input reaches the master whole and in order, with one end byte after
      all of it, unless a write to the master has failed. What has reached it
      is a beginning of that in any case. */
  ghost predicate InKept(p: Pty) {
    var f := p.flow;
    && |p.inBuf| <= PUMP_CAP
    && f.ends == (if f.given && !p.input then 1 else 0) && (p.input ==> f.given)
    && f.typed <= Typing(f) && (f.inFailed ==> p.masterDone)
    && (!f.inFailed ==> f.typed + p.inBuf == Typing(f))
  }

  /** As output reaches its stream. */
  ghost predicate OutKept(p: Pty) {
    var f := p.flow;
    && |p.outBuf| <= PUMP_CAP
    && f.written <= f.shown && (f.outFailed ==> !p.output)
    && (!f.outFailed ==> f.written + p.outBuf == f.shown)
    && (f.wanted && !f.outFailed && !p.output ==> p.masterDone && p.outBuf == [])
  }

  ghost predicate Inv(p: Pty) { InKept(p) && OutKept(p) }

  datatype Step =
    | MasterReads(from: ReadIo)
    | MasterWrites(to: WriteIo)
    | InputReads(from: ReadIo)
    | OutputWrites(to: WriteIo)
    | Closes

  predicate Possible(p: Pty, s: Step) {
    match s
    case MasterReads(io) => Fits(io, MasterRoom(p))
    case MasterWrites(io) => Within(io, p.inBuf)
    case InputReads(io) => Fits(io, RoomIn(p.inBuf))
    case OutputWrites(io) => Within(io, p.outBuf)
    case Closes => true
  }

  function After(p: Pty, s: Step): Pty
    requires Possible(p, s)
  {
    match s
    case MasterReads(io) => ReadMaster(p, io)
    case MasterWrites(io) => WriteMaster(p, io)
    case InputReads(io) => ReadInput(p, io)
    case OutputWrites(io) => WriteOutput(p, io)
    case Closes => CloseOutput(p)
  }

  /** Each stream only goes on from where it was. */
  ghost predicate GoesOn(f: Flow, g: Flow) {
    && f.given == g.given && f.wanted == g.wanted && f.taken <= g.taken && f.typed <= g.typed && f.ends <= g.ends &&
       (f.inFailed ==> g.inFailed)
    && f.shown <= g.shown && f.written <= g.written && (f.outFailed ==> g.outFailed)
  }

  lemma ReadMasterKeeps(p: Pty, io: ReadIo)
    requires Inv(p) && Fits(io, MasterRoom(p))
    ensures Inv(ReadMaster(p, io)) && GoesOn(p.flow, ReadMaster(p, io).flow)
  {
    if io.Data? {
      Regroup(p.flow.written, p.outBuf, io.bytes);
    }
  }

  lemma WriteMasterKeeps(p: Pty, io: WriteIo)
    requires Inv(p) && Within(io, p.inBuf)
    ensures Inv(WriteMaster(p, io)) && GoesOn(p.flow, WriteMaster(p, io).flow)
  {
    if io.Wrote? {
      Regroup(p.flow.typed, p.inBuf[..io.count], p.inBuf[io.count..]);
      assert p.inBuf[..io.count] + p.inBuf[io.count..] == p.inBuf;
    }
  }

  lemma ReadInputKeeps(p: Pty, io: ReadIo)
    requires Inv(p) && Fits(io, RoomIn(p.inBuf))
    ensures Inv(ReadInput(p, io)) && GoesOn(p.flow, ReadInput(p, io).flow)
  {
    if p.input {
      assert Typing(p.flow) == p.flow.taken;
      if io.Data? {
        Regroup(p.flow.typed, p.inBuf, io.bytes);
        assert Typing(p.flow.(taken := p.flow.taken + io.bytes)) == p.flow.taken + io.bytes;
      } else {
        Regroup(p.flow.typed, p.inBuf, [EOT]);
      }
    }
  }

  lemma WriteOutputKeeps(p: Pty, io: WriteIo)
    requires Inv(p) && Within(io, p.outBuf)
    ensures Inv(WriteOutput(p, io)) && GoesOn(p.flow, WriteOutput(p, io).flow)
  {
    if io.Wrote? {
      Regroup(p.flow.written, p.outBuf[..io.count], p.outBuf[io.count..]);
      assert p.outBuf[..io.count] + p.outBuf[io.count..] == p.outBuf;
    }
  }

  lemma Regroup(a: seq<Byte>, b: seq<Byte>, c: seq<Byte>)
    ensures (a + b) + c == a + (b + c)
  {
  }

  lemma StepKeeps(p: Pty, s: Step)
    requires Inv(p) && Possible(p, s)
    ensures Inv(After(p, s)) && GoesOn(p.flow, After(p, s).flow)
  {
    match s
    case MasterReads(io) =>
      ReadMasterKeeps(p, io);
    case MasterWrites(io) =>
      WriteMasterKeeps(p, io);
    case InputReads(io) =>
      ReadInputKeeps(p, io);
    case OutputWrites(io) =>
      WriteOutputKeeps(p, io);
    case Closes =>
      hide ReadMaster, WriteMaster, ReadInput, WriteOutput;
  }

  // ---- Runs ----

  ghost predicate CanRun(p: Pty, steps: seq<Step>)
    decreases |steps|
  {
    steps == [] || (Possible(p, steps[0]) && CanRun(After(p, steps[0]), steps[1..]))
  }

  ghost function RunAll(p: Pty, steps: seq<Step>): Pty
    requires CanRun(p, steps)
    decreases |steps|
  {
    if steps == [] then p else RunAll(After(p, steps[0]), steps[1..])
  }

  /** A command just started. */
  function Fresh(given: bool, wanted: bool): Pty {
    Pty(true, given, wanted, [], [], false, Flow(given, [], [], 0, false, wanted, [], [], false))
  }

  /** Bytes are dropped only by a write which fails, and output of a command
      without a stdout stream. */
  lemma DropsOnlyOnFault(p: Pty, s: Step)
    requires Inv(p) && Possible(p, s)
    ensures After(p, s).flow.inFailed && !p.flow.inFailed ==> s == MasterWrites(WriteIo.Fault)
    ensures After(p, s).flow.outFailed && !p.flow.outFailed && p.flow.wanted ==> s == OutputWrites(WriteIo.Fault)
  {
  }

  /** No write fails. */
  ghost predicate NoFaults(steps: seq<Step>) {
    forall k :: 0 <= k < |steps| ==> steps[k] != MasterWrites(WriteIo.Fault) && steps[k] != OutputWrites(WriteIo.Fault)
  }

  lemma {:induction false} RunKeeps(p: Pty, steps: seq<Step>)
    requires Inv(p) && CanRun(p, steps)
    ensures Inv(RunAll(p, steps)) && GoesOn(p.flow, RunAll(p, steps).flow)
    ensures NoFaults(steps) && !p.flow.inFailed ==> !RunAll(p, steps).flow.inFailed
    ensures NoFaults(steps) && !p.flow.outFailed && p.flow.wanted ==> !RunAll(p, steps).flow.outFailed
    decreases |steps|
  {
    if steps != [] {
      StepKeeps(p, steps[0]);
      DropsOnlyOnFault(p, steps[0]);
      hide After, Inv, Possible;
      RunKeeps(After(p, steps[0]), steps[1..]);
    }
  }

  /** Over every run in which no write fails, what was taken from each source
      is what its sink has followed by the buffer, with one end byte queued
      after all of the input exactly if the input has ended. */
  lemma RunConserves(given: bool, wanted: bool, steps: seq<Step>)
    requires CanRun(Fresh(given, wanted), steps) && NoFaults(steps)
    ensures var p := RunAll(Fresh(given, wanted), steps);
            && p.flow.typed + p.inBuf == p.flow.taken + (if given && !p.input then [EOT] else [])
            && (wanted ==> p.flow.written + p.outBuf == p.flow.shown)
            && |p.inBuf| <= 65536 && |p.outBuf| <= 65536
  {
    RunKeeps(Fresh(given, wanted), steps);
  }

  /** Bytes each step takes from a source or gives to a sink. */
  function Takes(p: Pty, s: Step): seq<Byte> {
    if s.InputReads? && s.from.Data? && p.input then s.from.bytes else []
  }

  function Shows(p: Pty, s: Step): seq<Byte> {
    if s.MasterReads? && s.from.Data? && p.master && !p.masterDone then s.from.bytes else []
  }

  function Types(p: Pty, s: Step): seq<Byte> {
    if s.MasterWrites? && s.to.Wrote? && s.to.count <= |p.inBuf| && p.master &&
       !p.masterDone then p.inBuf[..s.to.count] else []
  }

  function Writes(p: Pty, s: Step): seq<Byte> {
    if s.OutputWrites? && s.to.Wrote? && s.to.count <= |p.outBuf| && p.output then p.outBuf[..s.to.count] else []
  }

  /** Flow `g` is `f` with these bytes moved. */
  ghost predicate Records(f: Flow, g: Flow, takes: seq<Byte>, shows: seq<Byte>, types: seq<Byte>, writes: seq<Byte>) {
    && g.taken == f.taken + takes && g.shown == f.shown + shows
    && g.typed == f.typed + types && g.written == f.written + writes
  }

  lemma RecordsNothing(f: Flow, g: Flow)
    requires g.taken == f.taken && g.shown == f.shown && g.typed == f.typed && g.written == f.written
    ensures Records(f, g, [], [], [], [])
  {
  }

  lemma MasterReadIsRecorded(p: Pty, io: ReadIo)
    requires Fits(io, MasterRoom(p))
    ensures Records(p.flow, ReadMaster(p, io).flow, [], Shows(p, MasterReads(io)), [], [])
  {
    RecordsNothing(p.flow, p.flow);
  }

  lemma MasterWriteIsRecorded(p: Pty, io: WriteIo)
    requires Within(io, p.inBuf)
    ensures Records(p.flow, WriteMaster(p, io).flow, [], [], Types(p, MasterWrites(io)), [])
  {
    RecordsNothing(p.flow, p.flow);
  }

  lemma InputReadIsRecorded(p: Pty, io: ReadIo)
    requires Fits(io, RoomIn(p.inBuf))
    ensures Records(p.flow, ReadInput(p, io).flow, Takes(p, InputReads(io)), [], [], [])
  {
    RecordsNothing(p.flow, p.flow);
  }

  lemma OutputWriteIsRecorded(p: Pty, io: WriteIo)
    requires Within(io, p.outBuf)
    ensures Records(p.flow, WriteOutput(p, io).flow, [], [], [], Writes(p, OutputWrites(io)))
  {
    RecordsNothing(p.flow, p.flow);
  }

  /** The record of what moved is that of the reads and writes themselves. */
  lemma FlowIsRecorded(p: Pty, s: Step)
    requires Possible(p, s)
    ensures Records(p.flow, After(p, s).flow, Takes(p, s), Shows(p, s), Types(p, s), Writes(p, s))
  {
    RecordsNothing(p.flow, p.flow);
    hide ReadMaster, WriteMaster, ReadInput, WriteOutput, Records;
    match s
    case MasterReads(io) => MasterReadIsRecorded(p, io);
    case MasterWrites(io) => MasterWriteIsRecorded(p, io);
    case InputReads(io) => InputReadIsRecorded(p, io);
    case OutputWrites(io) => OutputWriteIsRecorded(p, io);
    case Closes =>
  }

  ghost function Along(p: Pty, steps: seq<Step>, bytes: (Pty, Step) -> seq<Byte>): seq<Byte>
    requires CanRun(p, steps)
    decreases |steps|
  {
    if steps == [] then [] else bytes(p, steps[0]) + Along(After(p, steps[0]), steps[1..], bytes)
  }

  lemma {:induction false} FlowAlong(p: Pty, steps: seq<Step>)
    requires CanRun(p, steps)
    ensures var f, g := p.flow, RunAll(p, steps).flow;
            && g.taken == f.taken + Along(p, steps, Takes) && g.shown == f.shown + Along(p, steps, Shows)
            && g.typed == f.typed + Along(p, steps, Types) && g.written == f.written + Along(p, steps, Writes)
    decreases |steps|
  {
    if steps != [] {
      FlowIsRecorded(p, steps[0]);
      hide After, Possible, Takes, Shows, Types, Writes;
      var next := After(p, steps[0]);
      FlowAlong(next, steps[1..]);
      Regroup(p.flow.taken, Takes(p, steps[0]), Along(next, steps[1..], Takes));
      Regroup(p.flow.shown, Shows(p, steps[0]), Along(next, steps[1..], Shows));
      Regroup(p.flow.typed, Types(p, steps[0]), Along(next, steps[1..], Types));
      Regroup(p.flow.written, Writes(p, steps[0]), Along(next, steps[1..], Writes));
    }
  }

  /** Bytes from the stdin stream reach the terminal, and bytes the terminal shows
      the stdout stream, over every run in which no write fails: those read along
      the run are those written followed by the buffer. */
  lemma BytesReach(given: bool, wanted: bool, steps: seq<Step>)
    requires CanRun(Fresh(given, wanted), steps) && NoFaults(steps)
    ensures var p := Fresh(given, wanted);
            var end := RunAll(p, steps);
            && Along(p, steps, Types) + end.inBuf ==
               Along(p, steps, Takes) + (if given && !end.input then [EOT] else [])
            && (wanted ==> Along(p, steps, Writes) + end.outBuf == Along(p, steps, Shows))
  {
    hide CanRun, RunAll, Along, NoFaults;
    RunConserves(given, wanted, steps);
    FlowAlong(Fresh(given, wanted), steps);
    var p := Fresh(given, wanted);
    assert [] + Along(p, steps, Types) == Along(p, steps, Types) &&
           [] + Along(p, steps, Takes) == Along(p, steps, Takes);
    assert [] + Along(p, steps, Writes) == Along(p, steps, Writes) &&
           [] + Along(p, steps, Shows) == Along(p, steps, Shows);
  }

  /** Ends are seen: the input by one end byte and no more reads, the master by
      being done, and the output by closing once all of it is written. */
  lemma EndsAreSeen(p: Pty)
    ensures p.input && |p.inBuf| < PUMP_CAP ==>
              forall io :: io == Eof || io == ReadIo.Fault ==>
                             !ReadInput(p, io).input && ReadInput(p, io).inBuf == p.inBuf + [4]
    ensures p.master && MasterRoom(p) > 0 ==>
              forall io :: io == Eof || io == ReadIo.Fault ==> ReadMaster(p, io) == p.(masterDone := true)
    ensures CloseOutput(p).output <==> p.output && !(p.masterDone && p.outBuf == [])
    ensures p.output ==> !WriteOutput(p, WriteIo.Fault).output
  {
  }

  // ---- The session ----

  datatype Slot = Master | Input | Output

  /** What a slot is polled for. */
  datatype Interest = Interest(toRead: bool, toWrite: bool)

  /** What poll reports for it. */
  datatype Ready = Ready(readable: bool, writable: bool, error: bool, hangup: bool)

  function Wants(p: Pty, slot: Slot): Interest {
    match slot
    case Master =>
      if p.master && !p.masterDone then Interest(|p.outBuf| < PUMP_CAP || !p.output, p.inBuf != [])
      else Interest(false, false)
    case Input => Interest(p.input && |p.inBuf| < PUMP_CAP, false)
    case Output => Interest(false, p.output && p.outBuf != [])
  }

  predicate HasWork(p: Pty, slot: Slot) {
    Wants(p, slot).toRead || Wants(p, slot).toWrite
  }

  ghost predicate HasSlot(ptys: seq<Option<Pty>>, at: nat, slot: Slot) {
    at < |ptys| && ptys[at].Some? && HasWork(ptys[at].value, slot)
  }

  /** A slot of the set is for the descriptor with work it names. */
  ghost predicate IsSlot(ptys: seq<Option<Pty>>, interest: Interest, named: (nat, Slot)) {
    HasSlot(ptys, named.0, named.1) && interest == Wants(ptys[named.0].value, named.1)
  }

  ghost predicate IsPollSet(ptys: seq<Option<Pty>>, interests: seq<Interest>, slots: seq<(nat, Slot)>) {
    && |interests| == |slots| + 1 && interests[0] == Interest(true, false)
    && forall k :: 0 <= k < |slots| ==> IsSlot(ptys, interests[k + 1], slots[k])
  }

  datatype Kind = ReadsMaster | WritesMaster | ReadsInput | WritesOutput | ClosesOutput

  function KindOf(s: Step): Kind {
    match s
    case MasterReads(_) => ReadsMaster
    case MasterWrites(_) => WritesMaster
    case InputReads(_) => ReadsInput
    case OutputWrites(_) => WritesOutput
    case Closes => ClosesOutput
  }

  function KindsOf(steps: seq<Step>): (r: seq<Kind>)
    ensures |r| == |steps|
  {
    seq(|steps|, i requires 0 <= i < |steps| => KindOf(steps[i]))
  }

  /** Steps due for a slot, by what poll reported. */
  function Due(slot: Slot, ready: Ready): seq<Kind> {
    var came := ready.readable || ready.error || ready.hangup;
    match slot
    case Master =>
      (if came then [ReadsMaster] else []) + (if ready.writable then [WritesMaster] else []) + [ClosesOutput]
    case Input => (if came then [ReadsInput] else []) + [ClosesOutput]
    case Output => (if ready.writable || ready.error then [WritesOutput] else []) + [ClosesOutput]
  }

  /** A descriptor is polled for reading exactly if a read would have room, and for
      writing exactly if there is something to write. */
  lemma PolledHasRoom(p: Pty)
    ensures Wants(p, Master).toRead <==> p.master && !p.masterDone && MasterRoom(p) > 0
    ensures Wants(p, Master).toWrite <==> p.master && !p.masterDone && |p.inBuf| > 0
    ensures Wants(p, Input) == Interest(p.input && RoomIn(p.inBuf) > 0, false)
    ensures Wants(p, Output) == Interest(false, p.output && |p.outBuf| > 0)
  {
  }

  /** What a slot was polled for and poll reports is done, on its own descriptor
      and by no other slot, and a hangup is read like data. */
  lemma PolledIsDue(p: Pty, slot: Slot, ready: Ready)
    ensures Wants(p, slot).toRead && (ready.readable || ready.hangup || ready.error) ==>
              (if slot.Master? then ReadsMaster else ReadsInput) in Due(slot, ready)
    ensures Wants(p, slot).toWrite && ready.writable ==>
              (if slot.Master? then WritesMaster else WritesOutput) in Due(slot, ready)
    ensures forall kind :: kind in Due(slot, ready) ==>
                             match kind
                             case ReadsMaster => slot.Master? && (ready.readable || ready.hangup || ready.error)
                             case WritesMaster => slot.Master? && ready.writable
                             case ReadsInput => slot.Input? && (ready.readable || ready.hangup || ready.error)
                             case WritesOutput => slot.Output? && (ready.writable || ready.error)
                             case ClosesOutput => true
    ensures Due(slot, ready) != [] && Due(slot, ready)[|Due(slot, ready)| - 1] == ClosesOutput
  {
  }

  /** Steps due for command `at` by its slots among the first `n`. */
  function DueTo(slots: seq<(nat, Slot)>, ready: seq<Ready>, n: nat, at: nat): seq<Kind>
    requires n <= |slots| && n <= |ready|
  {
    if n == 0 then []
    else DueTo(slots, ready, n - 1, at) + if slots[n - 1].0 == at then Due(slots[n - 1].1, ready[n - 1]) else []
  }

  /** A command went by `steps`, which are those due. One without a terminal
      stays as it is. */
  ghost predicate Went(was: Option<Pty>, now: Option<Pty>, steps: seq<Step>, due: seq<Kind>) {
    if was.None? then now == None
    else CanRun(was.value, steps) && now == Some(RunAll(was.value, steps)) && KindsOf(steps) == due
  }

  lemma {:induction false} RunTogether(p: Pty, a: seq<Step>, b: seq<Step>)
    requires CanRun(p, a) && CanRun(RunAll(p, a), b)
    ensures CanRun(p, a + b) && RunAll(p, a + b) == RunAll(RunAll(p, a), b)
    decreases |a|
  {
    hide After, Possible;
    if a == [] {
      assert a + b == b;
    } else {
      RunTogether(After(p, a[0]), a[1..], b);
      assert (a + b)[0] == a[0] && (a + b)[1..] == a[1..] + b;
    }
  }

  lemma RunOn(p: Pty, steps: seq<Step>, s: Step)
    requires CanRun(p, steps) && Possible(RunAll(p, steps), s)
    ensures CanRun(p, steps + [s]) && RunAll(p, steps + [s]) == After(RunAll(p, steps), s)
    ensures KindsOf(steps + [s]) == KindsOf(steps) + [KindOf(s)]
  {
    hide After, Possible;
    assert [s][1..] == [];
    RunTogether(p, steps, [s]);
  }

  lemma WentOn(was: Option<Pty>, now: Option<Pty>, steps: seq<Step>, due: seq<Kind>, more: seq<Step>,
               moreDue: seq<Kind>)
    requires Went(was, now, steps, due) && now.Some? && CanRun(now.value, more) && KindsOf(more) == moreDue
    ensures Went(was, Some(RunAll(now.value, more)), steps + more, due + moreDue)
  {
    RunTogether(was.value, steps, more);
    assert KindsOf(steps + more) == KindsOf(steps) + KindsOf(more);
  }

  lemma WentNot(p: Option<Pty>)
    ensures Went(p, p, [], [])
  {
    assert KindsOf([]) == [];
  }

  lemma WentKeeps(was: Option<Pty>, now: Option<Pty>, steps: seq<Step>, due: seq<Kind>)
    requires Went(was, now, steps, due) && (was.Some? ==> Inv(was.value))
    ensures now.Some? ==> was.Some? && Inv(now.value)
  {
    if was.Some? {
      RunKeeps(was.value, steps);
    }
  }

  lemma WentNowhere(was: Option<Pty>, now: Option<Pty>, steps: seq<Step>, due: seq<Kind>, more: seq<Kind>)
    requires Went(was, now, steps, due) && now.None?
    ensures Went(was, now, steps, due + more)
  {
  }

  class Session {
    var ptys: seq<Option<Pty>>

    ghost predicate Valid()
      reads this
    {
      forall at :: 0 <= at < |ptys| && ptys[at].Some? ==> Inv(ptys[at].value)
    }

    /** The poll set, with the control descriptor first and then a slot for
        each descriptor with work pending, and for no other. */
    method PollSet() returns (interests: seq<Interest>, slots: seq<(nat, Slot)>)
      ensures IsPollSet(ptys, interests, slots)
      ensures forall at: nat, slot :: HasSlot(ptys, at, slot) <==> (at, slot) in slots
      ensures forall i, j :: 0 <= i < j < |slots| ==> slots[i] != slots[j]
    {
      interests, slots := [Interest(true, false)], [];
      for at := 0 to |ptys|
        invariant IsPollSet(ptys, interests, slots)
        invariant forall k :: 0 <= k < |slots| ==> slots[k].0 < at
        invariant forall i: nat, slot :: i < at ==> (HasSlot(ptys, i, slot) <==> (i, slot) in slots)
        invariant forall i, j :: 0 <= i < j < |slots| ==> slots[i] != slots[j]
      {
        if ptys[at].Some? {
          var own, named := ChildSlots(at, ptys[at].value);
          hide HasWork, Wants;
          interests, slots := interests + own, slots + named;
        }
      }
    }

    /** The slots of one command. */
    method ChildSlots(at: nat, pty: Pty) returns (interests: seq<Interest>, slots: seq<(nat, Slot)>)
      ensures |interests| == |slots|
      ensures forall k :: 0 <= k < |slots| ==>
                            slots[k].0 == at && HasWork(pty, slots[k].1) && interests[k] == Wants(pty, slots[k].1)
      ensures forall slot :: HasWork(pty, slot) ==> (at, slot) in slots
      ensures forall i, j :: 0 <= i < j < |slots| ==> slots[i] != slots[j]
    {
      interests, slots := [], [];
      if pty.master && !pty.masterDone {
        var toRead, toWrite := |pty.outBuf| < PUMP_CAP || !pty.output, pty.inBuf != [];
        if toRead || toWrite {
          interests, slots := [Interest(toRead, toWrite)], [(at, Master)];
        }
      }
      if pty.input && |pty.inBuf| < PUMP_CAP {
        interests, slots := interests + [Interest(true, false)], slots + [(at, Input)];
      }
      if pty.output && pty.outBuf != [] {
        interests, slots := interests + [Interest(false, true)], slots + [(at, Output)];
      }
    }

    /** One nonblocking pass for a slot, by the steps due. */
    method PumpOne(was: Pty, slot: Slot, ready: Ready) returns (p: Pty, ghost steps: seq<Step>)
      ensures CanRun(was, steps) && p == RunAll(was, steps) && KindsOf(steps) == Due(slot, ready)
    {
      p, steps := was, [];
      assert KindsOf(steps) == [];
      hide ReadMaster, WriteMaster, ReadInput, WriteOutput, CloseOutput;
      match slot {
        case Master =>
          if ready.readable || ready.error || ready.hangup {
            var io := SomeRead(MasterRoom(p));
            RunOn(was, steps, MasterReads(io));
            p, steps := ReadMaster(p, io), steps + [MasterReads(io)];
          }
          if ready.writable {
            var io := SomeWrite(p.inBuf);
            RunOn(was, steps, MasterWrites(io));
            p, steps := WriteMaster(p, io), steps + [MasterWrites(io)];
          }
        case Input =>
          if ready.readable || ready.error || ready.hangup {
            var io := SomeRead(RoomIn(p.inBuf));
            RunOn(was, steps, InputReads(io));
            p, steps := ReadInput(p, io), steps + [InputReads(io)];
          }
        case Output =>
          if ready.writable || ready.error {
            var io := SomeWrite(p.outBuf);
            RunOn(was, steps, OutputWrites(io));
            p, steps := WriteOutput(p, io), steps + [OutputWrites(io)];
          }
      }
      RunOn(was, steps, Closes);
      p, steps := CloseOutput(p), steps + [Closes];
      assert KindsOf(steps) == Due(slot, ready);
    }

    /** Move bytes for each slot which is ready, from what poll reported for
        the set without the control descriptor. Each command goes by the steps
        due for its own slots, and so stays valid. */
    method Pump(ready: seq<Ready>, slots: seq<(nat, Slot)>) returns (ghost runs: seq<seq<Step>>)
      requires Valid() && forall k :: 0 <= k < |slots| ==> slots[k].0 < |ptys|
      modifies this
      ensures Valid() && |ptys| == |old(ptys)| == |runs|
      ensures forall at :: 0 <= at < |ptys| ==>
                             Went(old(ptys)[at], ptys[at], runs[at], DueTo(slots, ready, Min(|slots|, |ready|), at))
    {
      hide Went, Due, RunAll, CanRun, Inv;
      var count := Min(|slots|, |ready|);
      ghost var was := ptys;
      runs := seq(|ptys|, _ => []);
      forall at | 0 <= at < |ptys|
        ensures Went(was[at], ptys[at], runs[at], [])
      {
        WentNot(ptys[at]);
      }
      for k := 0 to count
        invariant |ptys| == |was| == |runs|
        invariant forall at :: 0 <= at < |was| ==> Went(was[at], ptys[at], runs[at], DueTo(slots, ready, k, at))
      {
        var at := slots[k].0;
        assert Went(was[at], ptys[at], runs[at], DueTo(slots, ready, k, at));
        forall other: nat | other != at
          ensures DueTo(slots, ready, k + 1, other) == DueTo(slots, ready, k, other)
        {
          assert DueTo(slots, ready, k, other) + [] == DueTo(slots, ready, k, other);
        }
        if ptys[at].Some? {
          var p, steps := PumpOne(ptys[at].value, slots[k].1, ready[k]);
          WentOn(was[at], ptys[at], runs[at], DueTo(slots, ready, k, at), steps, Due(slots[k].1, ready[k]));
          ptys, runs := ptys[at := Some(p)], runs[at := runs[at] + steps];
        } else {
          WentNowhere(was[at], ptys[at], runs[at], DueTo(slots, ready, k, at), Due(slots[k].1, ready[k]));
        }
      }
      forall at | 0 <= at < |ptys| && ptys[at].Some?
        ensures Inv(ptys[at].value)
      {
        WentKeeps(was[at], ptys[at], runs[at], DueTo(slots, ready, count, at));
      }
    }
  }

  /** Whatever a read of `room` bytes may return. */
  method SomeRead(room: nat) returns (io: ReadIo)
    ensures Fits(io, room)
  {
    io := *;
    if !Fits(io, room) {
      io := ReadIo.Later;
    }
  }

  method SomeWrite(buffer: seq<Byte>) returns (io: WriteIo)
    ensures Within(io, buffer)
  {
    io := *;
    if !Within(io, buffer) {
      io := WriteIo.Later;
    }
  }
}
