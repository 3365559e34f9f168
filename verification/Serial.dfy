/** 16550 UART, the guest serial console. Models
    src/lingcore/src/devices/serial.rs. */
module Serial {
  import opened Wrappers

  /** Registers by offset. `IER` and `DATA` are the divisor while its latch is
      open, `IIR` is FIFO control on write. */
  datatype Port = DATA | IER | IIR | LCR | MCR | LSR | MSR | SCR

  const LCR_DLAB: bv8 := 0x80
  const LSR_DATA_READY: bv8 := 0x01
  const LSR_TRANSMIT_EMPTY: bv8 := 0x60
  const MSR_CONNECTED: bv8 := 0xb0
  const IER_DATA_READY: bv8 := 0x01
  const IER_TRANSMIT_EMPTY: bv8 := 0x02
  const IIR_NO_INTERRUPT: bv8 := 0x01
  const IIR_TRANSMIT_EMPTY: bv8 := 0x02
  const IIR_DATA_READY: bv8 := 0x04
  const IIR_FIFO_ENABLED: bv8 := 0xc0
  const FCR_ENABLE: bv8 := 0x01

  /** Bound of queued input. */
  const INPUT_BOUND := 4096

  /** Registers, pending reasons as `IIR` bits, and unread input. `dropLogged`
      only decides whether a fill is logged. */
  datatype Uart = Uart(
    input: seq<bv8>, asking: bv8, ier: bv8, fcr: bv8, lcr: bv8, mcr: bv8, scr: bv8, divisor: bv16, dropLogged: bool)

  /** RESET state. */
  const RESET: Uart := Uart([], 0, 0, 0, 0, 0, 0, 12, false)

  /** What the host side of one operation does: whether there is a line, and
      whether a write to the sink, its flush and each raise of the line work. */
  datatype Host = Host(wired: bool, sink: bool, flush: bool, transmit: bool, input: bool)

  predicate Working(h: Host) { h.transmit && h.input }

  /** What one operation returns and does besides changing the UART. */
  datatype Outcome = Outcome(uart: Uart, ok: bool, value: bv8, count: nat, raises: nat, sent: seq<bv8>)

  datatype Op = Receive(bytes: seq<bv8>) | Read(offset: bv8) | Write(offset: bv8, value: bv8)

  // ---- Reading the state ----

  predicate Has(register: bv8, bit: bv8) { register & bit != 0 }

  /** `register` without `bit`. */
  function Clear(register: bv8, bit: bv8): bv8 { register & !bit }

  function Set(register: bv8, bit: bv8): bv8 { register | bit }

  /** Registers are one byte apart and repeat every 8 bytes. */
  function PortAt(offset: bv8): Port {
    match offset & 7
    case 0 => DATA
    case 1 => IER
    case 2 => IIR
    case 3 => LCR
    case 4 => MCR
    case 5 => LSR
    case 6 => MSR
    case _ => SCR
  }

  predicate Latched(u: Uart) { Has(u.lcr, LCR_DLAB) }

  predicate InputEnabled(u: Uart) { Has(u.ier, IER_DATA_READY) }

  predicate TransmitEnabled(u: Uart) { Has(u.ier, IER_TRANSMIT_EMPTY) }

  predicate InputPending(u: Uart) { Has(u.asking, IIR_DATA_READY) }

  predicate TransmitPending(u: Uart) { Has(u.asking, IIR_TRANSMIT_EMPTY) }

  function Low(divisor: bv16): bv8 { (divisor & 0xff) as bv8 }

  function High(divisor: bv16): bv8 { (divisor >> 8) as bv8 }

  function WithLow(divisor: bv16, value: bv8): bv16 { (divisor & 0xff00) | (value as bv16) }

  function WithHigh(divisor: bv16, value: bv8): bv16 { (divisor & 0x00ff) | ((value as bv16) << 8) }

  // ---- Operations ----

  /** The UART asks for `reason`, which a failing `raise` does not undo. */
  function Ask(o: Outcome, reason: bv8, h: Host, works: bool): Outcome {
    if Has(o.uart.asking, reason) then o
    else
      o.(uart := o.uart.(asking := Set(o.uart.asking, reason)),
      raises := if h.wired && works then o.raises + 1 else o.raises,
      ok := !h.wired || works)
  }

  function AskTransmit(o: Outcome, h: Host): Outcome {
    if TransmitEnabled(o.uart) then Ask(o, IIR_TRANSMIT_EMPTY, h, h.transmit) else o
  }

  function AskInput(o: Outcome, h: Host): Outcome {
    if InputEnabled(o.uart) && o.uart.input != [] then Ask(o, IIR_DATA_READY, h, h.input) else o
  }

  function Nothing(u: Uart): Outcome { Outcome(u, true, 0, 0, 0, []) }

  /** Part of `bytes` there is room for. */
  function Taken(u: Uart, bytes: seq<bv8>): (t: seq<bv8>)
    ensures t <= bytes
  {
    var room := if |u.input| < INPUT_BOUND then INPUT_BOUND - |u.input| else 0;
    if |bytes| < room then bytes else bytes[..room]
  }

  /** What there is room for is queued, and the first drop of a fill logged. */
  function Queued(u: Uart, bytes: seq<bv8>): Outcome {
    var taken := Taken(u, bytes);
    var logged := (u.dropLogged && |u.input| >= INPUT_BOUND) || |taken| < |bytes|;
    Nothing(u.(input := u.input + taken, dropLogged := logged)).(count := |taken|)
  }

  function AfterReceive(u: Uart, bytes: seq<bv8>, h: Host): Outcome {
    AskInput(Queued(u, bytes), h)
  }

  function ReadValue(u: Uart, port: Port): bv8 {
    match port
    case DATA => if Latched(u) then Low(u.divisor) else if u.input == [] then 0 else u.input[0]
    case IER => if Latched(u) then High(u.divisor) else u.ier
    case IIR =>
      var reason := if InputPending(u) then IIR_DATA_READY else if TransmitPending(u) then IIR_TRANSMIT_EMPTY
                    else IIR_NO_INTERRUPT;
      Set(if Has(u.fcr, FCR_ENABLE) then IIR_FIFO_ENABLED else 0, reason)
    case LCR => u.lcr
    case MCR => u.mcr
    case LSR => Set(LSR_TRANSMIT_EMPTY, if u.input == [] then 0 else LSR_DATA_READY)
    case MSR => MSR_CONNECTED
    case SCR => u.scr
  }

  /** The read which empties the queue clears the reason for input, and the one
      which reports an empty transmit register clears that. */
  function ReadEffect(u: Uart, port: Port): Uart {
    if port == DATA && !Latched(u) then
      u.(input := RestOf(u.input), asking := AskingAfter(u.asking, RestOf(u.input)))
    else if port == IIR && !InputPending(u) && TransmitPending(u) then
      u.(asking := Clear(u.asking, IIR_TRANSMIT_EMPTY))
    else u
  }

  function RestOf(input: seq<bv8>): seq<bv8> {
    if input == [] then [] else input[1..]
  }

  function AskingAfter(asking: bv8, rest: seq<bv8>): bv8 {
    if rest == [] then Clear(asking, IIR_DATA_READY) else asking
  }

  function AfterRead(u: Uart, port: Port): Outcome {
    Nothing(ReadEffect(u, port)).(value := ReadValue(u, port))
  }

  /** Reasons which `ier` no longer enables are dropped. */
  function Dropped(asking: bv8, ier: bv8): bv8 {
    var first := if !Has(ier, IER_DATA_READY) then Clear(asking, IIR_DATA_READY) else asking;
    if !Has(ier, IER_TRANSMIT_EMPTY) then Clear(first, IIR_TRANSMIT_EMPTY) else first
  }

  /** A byte goes to the sink, and the transmit register is empty again. */
  function AfterSend(u: Uart, value: bv8, h: Host): Outcome {
    if !h.sink then Nothing(u).(ok := false)
    else if !h.flush then Nothing(u).(ok := false, sent := [value])
    else AskTransmit(Nothing(u).(sent := [value]), h)
  }

  function Enabled(u: Uart, value: bv8): Outcome {
    Nothing(u.(ier := value, asking := Dropped(u.asking, value)))
  }

  /** Reasons are dropped, then each is asked about unless a raise fails. */
  function AfterEnable(u: Uart, value: bv8, h: Host): Outcome {
    var asked := AskTransmit(Enabled(u, value), h);
    if asked.ok then AskInput(asked, h) else asked
  }

  /** A register which only holds what is written to it. `LSR` and `MSR` drop
      it. */
  function Stored(u: Uart, port: Port, value: bv8): (v: Uart)
    ensures v.input == u.input && v.asking == u.asking && v.ier == u.ier
  {
    match port
    case DATA => u.(divisor := WithLow(u.divisor, value))
    case IER => u.(divisor := WithHigh(u.divisor, value))
    case IIR => u.(fcr := value)
    case LCR => u.(lcr := value)
    case MCR => u.(mcr := value)
    case SCR => u.(scr := value)
    case LSR => u
    case MSR => u
  }

  function AfterWrite(u: Uart, port: Port, value: bv8, h: Host): Outcome {
    if port == DATA && !Latched(u) then AfterSend(u, value, h)
    else if port == IER && !Latched(u) then AfterEnable(u, value, h)
    else Nothing(Stored(u, port, value))
  }

  function After(u: Uart, op: Op, h: Host): Outcome {
    match op
    case Receive(bytes) => AfterReceive(u, bytes, h)
    case Read(offset) => AfterRead(u, PortAt(offset))
    case Write(offset, value) => AfterWrite(u, PortAt(offset), value, h)
  }

  // ---- Interrupts ----

  /** Input is pending exactly if enabled and queued, and a pending reason is
      always enabled. */
  ghost predicate Exact(u: Uart) {
    && (InputPending(u) <==> InputEnabled(u) && u.input != [])
    && (TransmitPending(u) ==> TransmitEnabled(u))
  }

  /** A write which enables both reasons with input queued, over a line which
      fails the raise for the transmit register: the write ends there and the
      input is not asked about. */
  predicate CutShort(u: Uart, port: Port, value: bv8, h: Host) {
    && port == IER && !Latched(u) && u.input != []
    && Has(value, IER_DATA_READY) && Has(value, IER_TRANSMIT_EMPTY)
    && !InputEnabled(u) && !TransmitPending(u) && h.wired && !h.transmit
  }

  /** How often a reason goes from clear to pending. */
  function Rises(u: Uart, v: Uart): nat {
    (if !InputPending(u) && InputPending(v) then 1 else 0) +
    (if !TransmitPending(u) && TransmitPending(v) then 1 else 0)
  }

  /** Bits of the reasons do not touch each other. */
  lemma Reasons(asking: bv8)
    ensures Has(Set(asking, IIR_DATA_READY), IIR_DATA_READY)
    ensures Has(Set(asking, IIR_TRANSMIT_EMPTY), IIR_TRANSMIT_EMPTY)
    ensures Has(Set(asking, IIR_DATA_READY), IIR_TRANSMIT_EMPTY) == Has(asking, IIR_TRANSMIT_EMPTY)
    ensures Has(Set(asking, IIR_TRANSMIT_EMPTY), IIR_DATA_READY) == Has(asking, IIR_DATA_READY)
    ensures !Has(Clear(asking, IIR_DATA_READY), IIR_DATA_READY)
    ensures !Has(Clear(asking, IIR_TRANSMIT_EMPTY), IIR_TRANSMIT_EMPTY)
    ensures Has(Clear(asking, IIR_DATA_READY), IIR_TRANSMIT_EMPTY) == Has(asking, IIR_TRANSMIT_EMPTY)
    ensures Has(Clear(asking, IIR_TRANSMIT_EMPTY), IIR_DATA_READY) == Has(asking, IIR_DATA_READY)
  {
  }

  lemma AskInputIs(o: Outcome, h: Host)
    ensures var a := AskInput(o, h);
            && a.uart == o.uart.(asking := a.uart.asking)
            && (InputPending(a.uart) <==> InputPending(o.uart) || (InputEnabled(o.uart) && o.uart.input != []))
            && (TransmitPending(a.uart) <==> TransmitPending(o.uart))
            && (h.wired && h.input ==> a.raises == o.raises + Rises(o.uart, a.uart))
  {
    Reasons(o.uart.asking);
    hide Has, Set;
  }

  lemma AskTransmitIs(o: Outcome, h: Host)
    ensures var a := AskTransmit(o, h);
            && a.uart == o.uart.(asking := a.uart.asking)
            && (TransmitPending(a.uart) <==> TransmitPending(o.uart) || TransmitEnabled(o.uart))
            && (InputPending(a.uart) <==> InputPending(o.uart))
            && (h.wired && h.transmit ==> a.raises == o.raises + Rises(o.uart, a.uart))
            && (o.ok ==> (a.ok <==> TransmitPending(o.uart) || !TransmitEnabled(o.uart) || !h.wired || h.transmit))
  {
    Reasons(o.uart.asking);
    hide Has, Set;
  }

  lemma DroppedIs(asking: bv8, ier: bv8)
    ensures Has(Dropped(asking, ier), IIR_DATA_READY) <==> Has(asking, IIR_DATA_READY) && Has(ier, IER_DATA_READY)
    ensures Has(Dropped(asking, ier), IIR_TRANSMIT_EMPTY) <==>
            Has(asking, IIR_TRANSMIT_EMPTY) && Has(ier, IER_TRANSMIT_EMPTY)
  {
    Reasons(asking);
    Reasons(Clear(asking, IIR_DATA_READY));
    hide Has, Clear;
  }

  lemma ReceiveExact(u: Uart, bytes: seq<bv8>, h: Host)
    requires Exact(u)
    ensures var o := AfterReceive(u, bytes, h);
            Exact(o.uart) && (h.wired && Working(h) ==> o.raises == Rises(u, o.uart))
  {
    hide AskInput, Has;
    AskInputIs(Queued(u, bytes), h);
  }

  lemma ReadExact(u: Uart, port: Port)
    requires Exact(u)
    ensures var o := AfterRead(u, port);
            Exact(o.uart) && o.raises == Rises(u, o.uart) == 0
  {
    Reasons(u.asking);
    hide Has, Clear, ReadValue;
  }

  lemma EnableExact(u: Uart, value: bv8, h: Host)
    requires Exact(u) && !Latched(u)
    ensures var o := AfterEnable(u, value, h);
            && (Exact(o.uart) <==> !CutShort(u, IER, value, h))
            && (h.wired && Working(h) ==> o.raises == Rises(u, o.uart))
  {
    hide Has, AskTransmit, AskInput, Dropped;
    DroppedIs(u.asking, value);
    AskTransmitIs(Enabled(u, value), h);
    AskInputIs(AskTransmit(Enabled(u, value), h), h);
  }

  lemma SendExact(u: Uart, value: bv8, h: Host)
    requires Exact(u)
    ensures var o := AfterSend(u, value, h);
            Exact(o.uart) && (h.wired && Working(h) ==> o.raises == Rises(u, o.uart))
  {
    hide Has, AskTransmit;
    AskTransmitIs(Nothing(u).(sent := [value]), h);
  }

  lemma WriteExact(u: Uart, port: Port, value: bv8, h: Host)
    requires Exact(u)
    ensures var o := AfterWrite(u, port, value, h);
            && (Exact(o.uart) <==> !CutShort(u, port, value, h))
            && (h.wired && Working(h) ==> o.raises == Rises(u, o.uart))
  {
    hide Has, AfterSend, AfterEnable, Stored;
    if port == DATA && !Latched(u) {
      SendExact(u, value, h);
    } else if port == IER && !Latched(u) {
      EnableExact(u, value, h);
    }
  }

  /** Each operation over any host keeps the pending reasons exact, unless it
      is cut short, and over a line which works raises it once for each reason
      which becomes pending. */
  lemma StepExact(u: Uart, op: Op, h: Host)
    requires Exact(u)
    ensures Exact(After(u, op, h).uart) <==> !(op.Write? && CutShort(u, PortAt(op.offset), op.value, h))
    ensures h.wired && Working(h) ==> After(u, op, h).raises == Rises(u, After(u, op, h).uart)
  {
    hide AfterReceive, AfterRead, AfterWrite, Exact, Rises, PortAt;
    match op
    case Receive(bytes) =>
      ReceiveExact(u, bytes, h);
    case Read(offset) =>
      ReadExact(u, PortAt(offset));
    case Write(offset, value) =>
      WriteExact(u, PortAt(offset), value, h);
  }

  // ---- Runs ----

  datatype Call = Call(op: Op, host: Host)

  /** What the guest, the host and the line see of one operation. */
  datatype Answer = Answer(ok: bool, value: bv8, count: nat, raises: nat, sent: seq<bv8>)

  function AnswerOf(o: Outcome): Answer {
    Answer(o.ok, o.value, o.count, o.raises, o.sent)
  }

  function Next(u: Uart, c: Call): Outcome { After(u, c.op, c.host) }

  function Final(u: Uart, calls: seq<Call>): Uart
    decreases |calls|
  {
    if calls == [] then u else Final(Next(u, calls[0]).uart, calls[1..])
  }

  function Answers(u: Uart, calls: seq<Call>): seq<Answer>
    decreases |calls|
  {
    if calls == [] then [] else [AnswerOf(Next(u, calls[0]))] + Answers(Next(u, calls[0]).uart, calls[1..])
  }

  function Raises(u: Uart, calls: seq<Call>): nat
    decreases |calls|
  {
    if calls == [] then 0 else Next(u, calls[0]).raises + Raises(Next(u, calls[0]).uart, calls[1..])
  }

  function RisesAlong(u: Uart, calls: seq<Call>): nat
    decreases |calls|
  {
    if calls == [] then 0 else Rises(u, Next(u, calls[0]).uart) + RisesAlong(Next(u, calls[0]).uart, calls[1..])
  }

  /** Over every run on a line which works, interrupts are neither lost nor
      repeated. */
  lemma {:induction false} RunExact(u: Uart, calls: seq<Call>)
    requires Exact(u) && forall k :: 0 <= k < |calls| ==> calls[k].host.wired && Working(calls[k].host)
    ensures Exact(Final(u, calls)) && Raises(u, calls) == RisesAlong(u, calls)
    decreases |calls|
  {
    if calls != [] {
      StepExact(u, calls[0].op, calls[0].host);
      hide After, Exact, Rises;
      RunExact(Next(u, calls[0]).uart, calls[1..]);
    }
  }

  /** The operation empties the transmit register with its interrupt enabled, or
      enables the interrupt. */
  predicate TransmitDue(u: Uart, op: Op, h: Host) {
    && op.Write? && !Latched(u)
    && ((PortAt(op.offset) == DATA && h.sink && h.flush && TransmitEnabled(u)) ||
        (PortAt(op.offset) == IER && Has(op.value, IER_TRANSMIT_EMPTY)))
  }

  /** It disables the interrupt, or reports it. */
  predicate TransmitSeen(u: Uart, op: Op) {
    || (op.Write? && !Latched(u) && PortAt(op.offset) == IER && !Has(op.value, IER_TRANSMIT_EMPTY))
    || (op.Read? && PortAt(op.offset) == IIR && !InputPending(u))
  }

  /** The transmit interrupt is pending exactly from when it is due until it is
      seen, whatever the line does. */
  lemma TransmitExact(u: Uart, op: Op, h: Host)
    ensures TransmitPending(After(u, op, h).uart) <==>
            TransmitDue(u, op, h) || (TransmitPending(u) && !TransmitSeen(u, op))
  {
    hide PortAt, AfterWrite, AfterReceive, ReadValue;
    match op
    case Receive(bytes) =>
      ReceiveTransmit(u, bytes, h);
    case Read(offset) =>
      ReadTransmit(u, PortAt(offset));
    case Write(offset, value) =>
      WriteTransmit(u, PortAt(offset), value, h);
  }

  lemma ReceiveTransmit(u: Uart, bytes: seq<bv8>, h: Host)
    ensures TransmitPending(AfterReceive(u, bytes, h).uart) <==> TransmitPending(u)
  {
    hide AskInput, Has;
    AskInputIs(Queued(u, bytes), h);
  }

  lemma ReadTransmit(u: Uart, port: Port)
    ensures TransmitPending(ReadEffect(u, port)) <==> TransmitPending(u) && !(port == IIR && !InputPending(u))
  {
    Reasons(u.asking);
    hide Has, Clear;
  }

  lemma WriteTransmit(u: Uart, port: Port, value: bv8, h: Host)
    ensures TransmitPending(AfterWrite(u, port, value, h).uart) <==>
            if Latched(u) then TransmitPending(u)
            else if port == DATA then TransmitPending(u) || (h.sink && h.flush && TransmitEnabled(u))
            else if port == IER then Has(value, IER_TRANSMIT_EMPTY)
            else TransmitPending(u)
  {
    hide Has, AskTransmit, AskInput, Dropped, Stored;
    DroppedIs(u.asking, value);
    AskTransmitIs(Nothing(u).(sent := [value]), h);
    AskTransmitIs(Enabled(u, value), h);
    AskInputIs(AskTransmit(Enabled(u, value), h), h);
  }

  /** A fresh UART with one byte received, over a line which fails: enabling
      both interrupts leaves the byte unreported. */
  lemma CutShortIsReached(offset: bv8)
    requires PortAt(offset) == IER
    ensures var u := Final(RESET, [Call(Receive([0x41]), Host(true, true, true, false, false))]);
            && Exact(u) && CutShort(u, IER, 3, Host(true, true, true, false, true))
            && !Exact(After(u, Write(offset, 3), Host(true, true, true, false, true)).uart)
  {
    var h := Host(true, true, true, false, false);
    var calls := [Call(Receive([0x41]), h)];
    var u := AfterReceive(RESET, [0x41], h).uart;
    assert u == RESET.(input := [0x41]);
    assert calls[1..] == [];
    assert Final(u, []) == u;
    assert Exact(u);
    StepExact(u, Write(offset, 3), Host(true, true, true, false, true));
  }

  // ---- Input stream ----

  /** Byte the guest takes off the queue. */
  function Consumes(u: Uart, c: Call): seq<bv8> {
    if c.op.Read? && PortAt(c.op.offset) == DATA && !Latched(u) && u.input != [] then [Next(u, c).value] else []
  }

  /** Bytes the UART says it has taken. */
  function Accepts(u: Uart, c: Call): seq<bv8> {
    if c.op.Receive? && Next(u, c).count <= |c.op.bytes| then c.op.bytes[..Next(u, c).count] else []
  }

  function Consumed(u: Uart, calls: seq<Call>): seq<bv8>
    decreases |calls|
  {
    if calls == [] then [] else Consumes(u, calls[0]) + Consumed(Next(u, calls[0]).uart, calls[1..])
  }

  function Accepted(u: Uart, calls: seq<Call>): seq<bv8>
    decreases |calls|
  {
    if calls == [] then [] else Accepts(u, calls[0]) + Accepted(Next(u, calls[0]).uart, calls[1..])
  }

  lemma AskKeepsInput(o: Outcome, h: Host)
    ensures AskInput(o, h).uart.input == o.uart.input && AskInput(o, h).count == o.count
    ensures AskTransmit(o, h).uart.input == o.uart.input
  {
    hide Has, Set;
  }

  lemma ReceiveStream(u: Uart, bytes: seq<bv8>, h: Host)
    ensures var o := AfterReceive(u, bytes, h);
            && o.count <= |bytes| && o.uart.input == u.input + bytes[..o.count]
            && (o.count < |bytes| ==> INPUT_BOUND <= |o.uart.input|)
            && (|u.input| <= INPUT_BOUND ==> |o.uart.input| <= INPUT_BOUND)
            && (INPUT_BOUND <= |u.input| ==> o.count == 0)
  {
    hide AskInput;
    AskKeepsInput(Queued(u, bytes), h);
    assert Taken(u, bytes) == bytes[..|Taken(u, bytes)|];
  }

  lemma WriteKeepsInput(u: Uart, port: Port, value: bv8, h: Host)
    ensures AfterWrite(u, port, value, h).uart.input == u.input
  {
    hide AskTransmit, AskInput, Dropped, Stored, Has;
    AskKeepsInput(Nothing(u).(sent := [value]), h);
    AskKeepsInput(Enabled(u, value), h);
    AskKeepsInput(AskTransmit(Enabled(u, value), h), h);
  }

  /** Only a read of `DATA` takes a byte off the queue, the first. */
  lemma ReadStream(u: Uart, port: Port)
    ensures var o := AfterRead(u, port);
            if port == DATA && !Latched(u) && u.input != [] then [o.value] + o.uart.input == u.input
            else o.uart.input == u.input
  {
    hide Has, Set, Clear, Low, High;
    if port == DATA && !Latched(u) && u.input != [] {
      assert ReadValue(u, port) == u.input[0];
      hide ReadValue;
      assert [u.input[0]] + u.input[1..] == u.input;
    } else {
      hide ReadValue;
    }
  }

  lemma StepStream(u: Uart, c: Call)
    ensures Consumes(u, c) + Next(u, c).uart.input == u.input + Accepts(u, c)
    ensures |u.input| <= INPUT_BOUND ==> |Next(u, c).uart.input| <= INPUT_BOUND
  {
    hide AfterReceive, AfterRead, AfterWrite, PortAt, Latched;
    match c.op
    case Receive(bytes) =>
      ReceiveStream(u, bytes, c.host);
    case Read(offset) =>
      ReadStream(u, PortAt(offset));
    case Write(offset, value) =>
      WriteKeepsInput(u, PortAt(offset), value, c.host);
  }

  lemma Regroup(a: seq<bv8>, b: seq<bv8>, c: seq<bv8>)
    ensures (a + b) + c == a + (b + c)
  {
  }

  /** Over every run, whatever fails, the bytes read from `DATA` followed by
      the queue are those accepted, in order, and the queue stays bounded. */
  lemma {:induction false} StreamConserved(u: Uart, calls: seq<Call>)
    ensures Consumed(u, calls) + Final(u, calls).input == u.input + Accepted(u, calls)
    ensures |u.input| <= 4096 ==> |Final(u, calls).input| <= 4096
    decreases |calls|
  {
    if calls != [] {
      var next := Next(u, calls[0]).uart;
      StepStream(u, calls[0]);
      StreamConserved(next, calls[1..]);
      hide Next, Consumes, Accepts;
      var read, rest := Consumed(next, calls[1..]), Final(next, calls[1..]).input;
      Regroup(Consumes(u, calls[0]), read, rest);
      Regroup(Consumes(u, calls[0]), next.input, Accepted(next, calls[1..]));
      Regroup(u.input, Accepts(u, calls[0]), Accepted(next, calls[1..]));
    }
  }

  // ---- Output stream ----

  /** Byte the guest sends: one written to `DATA` with the latch shut, which the
      sink takes. */
  function Transmits(u: Uart, c: Call): seq<bv8> {
    if c.op.Write? && PortAt(c.op.offset) == DATA && !Latched(u) && c.host.sink then [c.op.value] else []
  }

  function Transmitted(u: Uart, calls: seq<Call>): seq<bv8>
    decreases |calls|
  {
    if calls == [] then [] else Transmits(u, calls[0]) + Transmitted(Next(u, calls[0]).uart, calls[1..])
  }

  /** Bytes which reach the sink. */
  function Sent(u: Uart, calls: seq<Call>): seq<bv8>
    decreases |calls|
  {
    if calls == [] then [] else Next(u, calls[0]).sent + Sent(Next(u, calls[0]).uart, calls[1..])
  }

  lemma AskSendsNothing(o: Outcome, h: Host)
    ensures AskInput(o, h).sent == o.sent && AskTransmit(o, h).sent == o.sent
  {
    hide Has, Set;
  }

  lemma StepSends(u: Uart, c: Call)
    ensures Next(u, c).sent == Transmits(u, c)
  {
    hide AskInput, AskTransmit, ReadEffect, ReadValue, Stored, PortAt, Latched, Dropped;
    match c.op
    case Receive(bytes) =>
      AskSendsNothing(Queued(u, bytes), c.host);
    case Read(_) =>
    case Write(offset, value) =>
      AskSendsNothing(Nothing(u).(sent := [value]), c.host);
      AskSendsNothing(Enabled(u, value), c.host);
      AskSendsNothing(AskTransmit(Enabled(u, value), c.host), c.host);
  }

  /** Over every run the sink has the bytes the guest sent, in order. */
  lemma {:induction false} OutputConserved(u: Uart, calls: seq<Call>)
    ensures Sent(u, calls) == Transmitted(u, calls)
    decreases |calls|
  {
    if calls != [] {
      StepSends(u, calls[0]);
      hide Next, Transmits;
      OutputConserved(Next(u, calls[0]).uart, calls[1..]);
    }
  }

  // ---- What the guest reads ----

  /** Registers lie at offsets 0 to 7 and repeat every eight bytes. */
  lemma Ports(offset: bv8)
    ensures PortAt(0) == DATA && PortAt(1) == IER && PortAt(2) == IIR && PortAt(3) == LCR
    ensures PortAt(4) == MCR && PortAt(5) == LSR && PortAt(6) == MSR && PortAt(7) == SCR
    ensures PortAt(offset) == PortAt(offset + 8)
  {
    assert (offset + 8) & 7 == offset & 7;
  }

  /** Line status tells of queued input, and the transmit register is always
      empty. */
  lemma LineStatus(u: Uart)
    ensures ReadValue(u, LSR) == if u.input == [] then 0x60 else 0x61
    ensures ReadValue(u, MSR) == 0xb0
  {
  }

  /** The reason reported is that of input if it is enabled and queued, and none
      exactly if nothing is pending. */
  lemma ReasonReported(u: Uart)
    requires Exact(u)
    ensures var reason := ReadValue(u, IIR) & 0x0f;
            && (reason == 4 <==> InputEnabled(u) && u.input != [])
            && (reason == 2 <==> !InputPending(u) && TransmitPending(u))
            && (reason == 1 <==> !InputPending(u) && !TransmitPending(u))
    ensures ReadValue(u, IIR) & 0xf0 == if u.fcr & 1 == 1 then 0xc0 else 0
  {
  }

  /** What is written to a plain register is read back, and the two halves of the
      divisor while the latch is open. */
  lemma WrittenIsRead(u: Uart, value: bv8, h: Host)
    ensures ReadValue(AfterWrite(u, LCR, value, h).uart, LCR) == value
    ensures ReadValue(AfterWrite(u, MCR, value, h).uart, MCR) == value
    ensures ReadValue(AfterWrite(u, SCR, value, h).uart, SCR) == value
    ensures AfterWrite(u, LSR, value, h).uart == u && AfterWrite(u, MSR, value, h).uart == u
  {
  }

  lemma EnabledIsRead(u: Uart, value: bv8, h: Host)
    requires !Latched(u)
    ensures ReadValue(AfterWrite(u, IER, value, h).uart, IER) == value
  {
    hide Has, Dropped;
    AskTransmitIs(Enabled(u, value), h);
    AskInputIs(AskTransmit(Enabled(u, value), h), h);
    hide AskTransmit, AskInput;
  }

  lemma DivisorIsRead(u: Uart, low: bv8, high: bv8, h: Host)
    requires Latched(u)
    ensures var v := AfterWrite(AfterWrite(u, DATA, low, h).uart, IER, high, h).uart;
            && v.divisor == ((high as bv16) << 8) | (low as bv16)
            && ReadValue(v, DATA) == low && ReadValue(v, IER) == high
  {
  }

  // ---- Capture and restore ----

  const KIND := "serial"
  const STATE_VERSION := 1

  datatype State = State(
    ier: bv8, fcr: bv8, lcr: bv8, mcr: bv8, scr: bv8, divisor: bv16, asking: bv8, input: seq<bv8>)

  datatype Blob = Blob(kind: string, version: nat, data: State)

  datatype RestoreError = WrongState(found: string) | WrongVersion(version: nat)

  function Captured(u: Uart): Blob {
    Blob(KIND, STATE_VERSION, State(u.ier, u.fcr, u.lcr, u.mcr, u.scr, u.divisor, u.asking, u.input))
  }

  function Restored(u: Uart, blob: Blob): Result<Uart, RestoreError> {
    if blob.kind != KIND then Err(WrongState(blob.kind))
    else if blob.version != STATE_VERSION then Err(WrongVersion(blob.version))
    else
      var s := blob.data;
      Ok(Uart(s.input, s.asking, s.ier, s.fcr, s.lcr, s.mcr, s.scr, s.divisor, u.dropLogged))
  }

  /** The same but for what is logged. */
  predicate Same(u: Uart, v: Uart) {
    u == v.(dropLogged := u.dropLogged)
  }

  /** Outcomes the same but for what is logged. */
  ghost predicate Alike(o: Outcome, p: Outcome) {
    Same(o.uart, p.uart) && AnswerOf(o) == AnswerOf(p)
  }

  lemma AskAlike(o: Outcome, p: Outcome, reason: bv8, h: Host, works: bool)
    requires Alike(o, p)
    ensures Alike(Ask(o, reason, h, works), Ask(p, reason, h, works))
  {
    hide Has, Set;
  }

  lemma AskInputAlike(o: Outcome, p: Outcome, h: Host)
    requires Alike(o, p)
    ensures Alike(AskInput(o, h), AskInput(p, h))
  {
    AskAlike(o, p, IIR_DATA_READY, h, h.input);
    hide Ask, Has;
  }

  lemma AskTransmitAlike(o: Outcome, p: Outcome, h: Host)
    requires Alike(o, p)
    ensures Alike(AskTransmit(o, h), AskTransmit(p, h))
  {
    AskAlike(o, p, IIR_TRANSMIT_EMPTY, h, h.transmit);
    hide Ask, Has;
  }

  lemma EnableAlike(u: Uart, v: Uart, value: bv8, h: Host)
    requires Same(u, v)
    ensures Alike(AfterEnable(u, value, h), AfterEnable(v, value, h))
  {
    hide AskTransmit, AskInput, Dropped;
    AskTransmitAlike(Enabled(u, value), Enabled(v, value), h);
    AskInputAlike(AskTransmit(Enabled(u, value), h), AskTransmit(Enabled(v, value), h), h);
  }

  lemma SendAlike(u: Uart, v: Uart, value: bv8, h: Host)
    requires Same(u, v)
    ensures Alike(AfterSend(u, value, h), AfterSend(v, value, h))
  {
    hide AskTransmit;
    AskTransmitAlike(Nothing(u).(sent := [value]), Nothing(v).(sent := [value]), h);
  }

  lemma StoredSame(u: Uart, v: Uart, port: Port, value: bv8)
    requires Same(u, v)
    ensures Same(Stored(u, port, value), Stored(v, port, value))
  {
    hide WithLow, WithHigh;
  }

  lemma WriteAlike(u: Uart, v: Uart, port: Port, value: bv8, h: Host)
    requires Same(u, v)
    ensures Alike(AfterWrite(u, port, value, h), AfterWrite(v, port, value, h))
  {
    assert Latched(u) == Latched(v);
    hide AfterSend, AfterEnable, Stored, Has, Same, Latched;
    SendAlike(u, v, value, h);
    EnableAlike(u, v, value, h);
    StoredSame(u, v, port, value);
  }

  lemma ReadEffectSame(u: Uart, v: Uart, port: Port)
    requires Same(u, v)
    ensures Same(ReadEffect(u, port), ReadEffect(v, port))
  {
    hide Has, Clear, RestOf, AskingAfter;
    if port == DATA && !Latched(u) {
      assert ReadEffect(u, port) == u.(input := RestOf(u.input), asking := AskingAfter(u.asking, RestOf(u.input)));
    } else if port == IIR && !InputPending(u) && TransmitPending(u) {
      assert ReadEffect(u, port) == u.(asking := Clear(u.asking, IIR_TRANSMIT_EMPTY));
    } else {
      assert ReadEffect(u, port) == u && ReadEffect(v, port) == v;
    }
  }

  lemma ReadValueSame(u: Uart, v: Uart, port: Port)
    requires Same(u, v)
    ensures ReadValue(u, port) == ReadValue(v, port)
  {
    hide Has, Set, Low, High;
  }

  lemma ReceiveAlike(u: Uart, v: Uart, bytes: seq<bv8>, h: Host)
    requires Same(u, v)
    ensures Alike(AfterReceive(u, bytes, h), AfterReceive(v, bytes, h))
  {
    hide AskInput;
    AskInputAlike(Queued(u, bytes), Queued(v, bytes), h);
  }

  lemma StepSame(u: Uart, v: Uart, c: Call)
    requires Same(u, v)
    ensures Same(Next(u, c).uart, Next(v, c).uart) && AnswerOf(Next(u, c)) == AnswerOf(Next(v, c))
  {
    hide AfterReceive, ReadEffect, ReadValue, AfterWrite, PortAt, Same;
    match c.op
    case Receive(bytes) =>
      ReceiveAlike(u, v, bytes, c.host);
    case Read(offset) =>
      ReadEffectSame(u, v, PortAt(offset));
      ReadValueSame(u, v, PortAt(offset));
    case Write(offset, value) =>
      WriteAlike(u, v, PortAt(offset), value, c.host);
  }

  lemma {:induction false} RunSame(u: Uart, v: Uart, calls: seq<Call>)
    requires Same(u, v)
    ensures Answers(u, calls) == Answers(v, calls) && Same(Final(u, calls), Final(v, calls))
    decreases |calls|
  {
    if calls != [] {
      StepSame(u, v, calls[0]);
      hide Next, Same, AnswerOf;
      RunSame(Next(u, calls[0]).uart, Next(v, calls[0]).uart, calls[1..]);
    }
  }

  /** A UART restored from a capture, whatever it held before, answers every
      later run as the captured one would. */
  lemma RestoreContinues(u: Uart, other: Uart, calls: seq<Call>)
    ensures Restored(other, Captured(u)).Ok?
    ensures Answers(Restored(other, Captured(u)).value, calls) == Answers(u, calls)
  {
    RunSame(Restored(other, Captured(u)).value, u, calls);
  }

  // ---- The device ----

  class Serial {
    const wired: bool
    var input: seq<bv8>
    var asking: bv8
    var ier: bv8
    var fcr: bv8
    var lcr: bv8
    var mcr: bv8
    var scr: bv8
    var divisor: bv16
    var dropLogged: bool
    /** Bytes which have reached the sink, and raises of the line. */
    var sent: seq<bv8>
    var raises: nat

    ghost function Now(): Uart
      reads this
    {
      Uart(input, asking, ier, fcr, lcr, mcr, scr, divisor, dropLogged)
    }

    /** What the device has done since is `o`. */
    twostate predicate Did(o: Outcome)
      reads this
    {
      Now() == o.uart && sent == old(sent) + o.sent && raises == old(raises) + o.raises
    }

    constructor (wired: bool)
      ensures Now() == RESET && Exact(Now()) && this.wired == wired && sent == [] && raises == 0
    {
      this.wired := wired;
      input, asking, ier, fcr, lcr, mcr, scr := [], 0, 0, 0, 0, 0, 0;
      divisor, dropLogged, sent, raises := 12, false, [], 0;
    }

    /** Raise the line for `reason` unless it is pending already. */
    method AskForAttention(reason: bv8, works: bool, ghost o: Outcome, ghost h: Host) returns (ok: bool)
      requires o.uart == Now() && o.ok && h.wired == wired
      modifies this`asking, this`raises
      ensures var a := Ask(o, reason, h, works);
              Now() == a.uart && ok == a.ok && raises == old(raises) + a.raises - o.raises && a.sent == o.sent &&
              a.count == o.count
    {
      if Has(asking, reason) {
        return true;
      }
      asking := Set(asking, reason);
      if !wired {
        return true;
      }
      if works {
        raises := raises + 1;
      }
      ok := works;
    }

    method AskAboutTransmit(works: bool, ghost o: Outcome, ghost h: Host) returns (ok: bool)
      requires o.uart == Now() && o.ok && h.wired == wired && h.transmit == works
      modifies this`asking, this`raises
      ensures var a := AskTransmit(o, h);
              Now() == a.uart && ok == a.ok && raises == old(raises) + a.raises - o.raises && a.sent == o.sent &&
              a.count == o.count
    {
      if !Has(ier, IER_TRANSMIT_EMPTY) {
        return true;
      }
      ok := AskForAttention(IIR_TRANSMIT_EMPTY, works, o, h);
    }

    method AskAboutInput(works: bool, ghost o: Outcome, ghost h: Host) returns (ok: bool)
      requires o.uart == Now() && o.ok && h.wired == wired && h.input == works
      modifies this`asking, this`raises
      ensures var a := AskInput(o, h);
              Now() == a.uart && ok == a.ok && raises == old(raises) + a.raises - o.raises && a.sent == o.sent &&
              a.count == o.count
    {
      if !Has(ier, IER_DATA_READY) || input == [] {
        return true;
      }
      ok := AskForAttention(IIR_DATA_READY, works, o, h);
    }

    /** Queue what there is room for and raise the line. */
    method Receive(bytes: seq<bv8>, h: Host) returns (r: Option<nat>)
      requires h.wired == wired
      modifies this
      ensures var o := AfterReceive(old(Now()), bytes, h);
              Did(o) && r == if o.ok then Some(o.count) else None
    {
      if |input| < INPUT_BOUND {
        dropLogged := false;
      }
      var room := if |input| < INPUT_BOUND then INPUT_BOUND - |input| else 0;
      var count := if |bytes| < room then |bytes| else room;
      var taken, dropped := bytes[..count], bytes[count..];
      assert taken == Taken(old(Now()), bytes);
      if dropped != [] && !dropLogged {
        dropLogged := true;
      }
      input := input + taken;
      var ok := AskAboutInput(h.input, Nothing(Now()).(count := |taken|), h);
      r := if ok then Some(|taken|) else None;
    }

    /** Take the first byte off the queue, zero if there is none. */
    method TakeByte() returns (value: bv8)
      requires !Latched(Now())
      modifies this`input, this`asking
      ensures Now() == ReadEffect(old(Now()), DATA) && value == ReadValue(old(Now()), DATA)
    {
      hide Has, Clear;
      value := 0;
      if input != [] {
        value, input := input[0], input[1..];
      }
      if input == [] {
        asking := Clear(asking, IIR_DATA_READY);
      }
    }

    /** Input is reported first, and reporting an empty transmit register
        clears it. */
    method Identify() returns (value: bv8)
      modifies this`asking
      ensures Now() == ReadEffect(old(Now()), IIR) && value == ReadValue(old(Now()), IIR)
    {
      hide Has, Clear, Set;
      var fifos := if Has(fcr, FCR_ENABLE) then IIR_FIFO_ENABLED else 0;
      var reason := IIR_NO_INTERRUPT;
      if Has(asking, IIR_DATA_READY) {
        reason := IIR_DATA_READY;
      } else if Has(asking, IIR_TRANSMIT_EMPTY) {
        asking := Clear(asking, IIR_TRANSMIT_EMPTY);
        reason := IIR_TRANSMIT_EMPTY;
      }
      value := Set(fifos, reason);
    }

    /** Read the register at `offset`. */
    method Read(offset: bv8) returns (value: bv8)
      modifies this`input, this`asking
      ensures Now() == ReadEffect(old(Now()), PortAt(offset)) && value == ReadValue(old(Now()), PortAt(offset))
    {
      hide Has, Set, Clear, PortAt, Low, High;
      match PortAt(offset)
      case DATA =>
        if Has(lcr, LCR_DLAB) {
          return Low(divisor);
        }
        value := TakeByte();
      case IER =>
        value := if Has(lcr, LCR_DLAB) then High(divisor) else ier;
      case IIR => value := Identify();
      case LCR => value := lcr;
      case MCR => value := mcr;
      case LSR =>
        value := Set(LSR_TRANSMIT_EMPTY, if input == [] then 0 else LSR_DATA_READY);
      case MSR => value := MSR_CONNECTED;
      case SCR => value := scr;
    }

    /** Write `value` to the register at `offset`. */
    method Write(offset: bv8, value: bv8, h: Host) returns (ok: bool)
      requires h.wired == wired
      modifies this
      ensures var o := AfterWrite(old(Now()), PortAt(offset), value, h);
              Did(o) && ok == o.ok
    {
      hide Has, PortAt, WithLow, WithHigh, AfterSend, AfterEnable;
      var port := PortAt(offset);
      if port == DATA && !Has(lcr, LCR_DLAB) {
        ok := Send(value, h);
      } else if port == IER && !Has(lcr, LCR_DLAB) {
        ok := Enable(value, h);
      } else {
        Keep(port, value);
        ok := true;
      }
    }

    /** Hold `value` in a register which does nothing else. */
    method Keep(port: Port, value: bv8)
      modifies this
      ensures Now() == Stored(old(Now()), port, value) && sent == old(sent) && raises == old(raises)
    {
      hide WithLow, WithHigh;
      match port
      case DATA => divisor := WithLow(divisor, value);
      case IER => divisor := WithHigh(divisor, value);
      case IIR => fcr := value;
      case LCR => lcr := value;
      case MCR => mcr := value;
      case SCR => scr := value;
      case LSR =>
      case MSR =>
    }

    /** Send one byte to the sink. */
    method Send(value: bv8, h: Host) returns (ok: bool)
      requires h.wired == wired
      modifies this
      ensures var o := AfterSend(old(Now()), value, h);
              Did(o) && ok == o.ok
    {
      hide AskTransmit;
      if !h.sink {
        return false;
      }
      sent := sent + [value];
      if !h.flush {
        return false;
      }
      ok := AskAboutTransmit(h.transmit, Nothing(Now()).(sent := [value]), h);
    }

    /** Drop the reasons no longer enabled, then ask about each. */
    method Enable(value: bv8, h: Host) returns (ok: bool)
      requires h.wired == wired
      modifies this
      ensures var o := AfterEnable(old(Now()), value, h);
              Did(o) && ok == o.ok
    {
      hide Has, Set, Clear, AskTransmit, AskInput;
      ier := value;
      if !Has(value, IER_DATA_READY) {
        asking := Clear(asking, IIR_DATA_READY);
      }
      if !Has(value, IER_TRANSMIT_EMPTY) {
        asking := Clear(asking, IIR_TRANSMIT_EMPTY);
      }
      ghost var first := Nothing(Now());
      ok := AskAboutTransmit(h.transmit, first, h);
      if ok {
        ok := AskAboutInput(h.input, AskTransmit(first, h), h);
      }
    }

    method Capture() returns (blob: Blob)
      ensures blob == Captured(Now())
    {
      blob := Blob(KIND, STATE_VERSION, State(ier, fcr, lcr, mcr, scr, divisor, asking, input));
    }

    method Restore(blob: Blob) returns (r: Result<(), RestoreError>)
      modifies this
      ensures sent == old(sent) && raises == old(raises)
      ensures match Restored(old(Now()), blob)
              case Ok(u) => r == Ok(()) && Now() == u
              case Err(e) => r == Err(e) && Now() == old(Now())
    {
      if blob.kind != KIND {
        return Err(WrongState(blob.kind));
      }
      if blob.version != STATE_VERSION {
        return Err(WrongVersion(blob.version));
      }
      ier, fcr, lcr, mcr, scr := blob.data.ier, blob.data.fcr, blob.data.lcr, blob.data.mcr, blob.data.scr;
      divisor, asking, input := blob.data.divisor, blob.data.asking, blob.data.input;
      r := Ok(());
    }
  }
}
