/** The DEUNA: port commands, receive ring, transmit ring and the host's own accesses, in any order. */
module DeunaController {
  import opened GuestMemory
  import opened ByteDma
  import opened DeunaRing
  import opened DeunaCommand
  import R = DeunaReceive
  import T = DeunaTransmit

  /** The interrupt bits of PCSR0 that commands, arrivals and ring walks set. */
  datatype Bits = Bits(seri: bool, pcei: bool, rxi: bool, txi: bool, dni: bool, rcbi: bool)

  const NO_BITS := Bits(false, false, false, false, false, false)

  /** The controller: port, guest memory, read queue and the frames it lost, transmit buffer, interrupt bits, mode
  word and the address of the command block. */
  datatype Nic = Nic(port: Port, mem: Memory, queue: seq<R.Item>, lost: nat, message: T.Message, bits: Bits,
                     mode: Word, pcbb: nat)

  /** What stays fixed: the size of the bus address space, the walk limits the operator set (0 for a whole
  ring), and the link. */
  datatype Setup = Setup(space: nat, rxSlots: nat, txSlots: nat, link: nat -> T.Outcome)

  predicate NicOk(n: Nic) { PortOk(n.port) && R.QueueOk(n.queue) && T.LengthOk(n.message) }

  function RxEnv(u: Setup, n: Nic): R.Env { R.Env(u.space, n.port.rx, Unchained(n.mode)) }

  function TxEnv(u: Setup, n: Nic): T.Env { T.Env(u.space, n.port.tx, Pads(n.mode), Loops(n.mode), u.link) }

  predicate AnyEnded(log: seq<R.Delivery>) { exists k :: 0 <= k < |log| && log[k].Ended() }

  function AfterReceive(n: Nic, r: R.Rx): Nic {
    n.(mem := r.mem, queue := r.queue, port := n.port.(rxNext := r.next),
       bits := n.bits.(rxi := n.bits.rxi || AnyEnded(r.log),
                       seri := n.bits.seri || r.stop == R.EntryTimeout || r.stop == R.BufferTimeout))
  }

  function Receive(u: Setup, n: Nic): Nic
    requires NicOk(n)
  {
    if n.port.state != Running || n.queue == [] || n.port.rx.count == 0 || n.port.rx.entryWords == 0 then n
    else if n.port.rx.entryWords < 4 then n.(bits := n.bits.(seri := true))
    else
      var limit := if u.rxSlots != 0 then u.rxSlots else n.port.rx.count;
      AfterReceive(n, R.Walk(RxEnv(u, n), n.mem, n.queue, n.port.rxNext, limit))
  }

  function AfterTransmit(n: Nic, r: T.Tx): Nic {
    n.(mem := r.mem, message := r.message, port := n.port.(txNext := r.next),
       bits := n.bits.(txi := n.bits.txi || r.log != [],
                       seri := n.bits.seri || r.stop == T.EntryTimeout || r.stop == T.BufferTimeout))
  }

  /** `process_transmit`; giant and runt are noted for one walk only. */
  function Transmit(u: Setup, n: Nic, max: nat): Nic
    requires NicOk(n)
  {
    if n.port.state != Running || n.port.tx.count == 0 || n.port.tx.entryWords == 0 then n
    else if n.port.tx.entryWords < 4 then n.(bits := n.bits.(seri := true))
    else
      var limit := if max > 0 then max else if u.txSlots != 0 then u.txSlots else n.port.tx.count;
      AfterTransmit(n, T.Walk(TxEnv(u, n), n.mem, n.port.txNext, n.message.(giant := false, runt := false), limit))
  }

  /** A port command with what it takes: a state change or reset, a polling demand, the address of the command block,
  the command block itself, the boot image. */
  datatype Order =
    | Change(c: Command)
    | Poll
    | Locate(hi: nat, lo: Word)
    | Block(aside: Aside)
    | Boot(hi: nat, lo: Word, rom: seq<Byte>)
    | Undefined

  datatype Event =
    | Perform(o: Order)
    | Arrive(data: seq<Byte>, loopback: bool)
    | ReceiveTurn
    | TransmitTurn(max: nat)
    | HostWrites(mem: Memory)
    | Acknowledge(acked: Bits)

  /** The bits with which a change of state is answered: done, or refused. */
  function Answered(b: Bits, p: Port, c: Command): Bits {
    match c
    case Start => if p.state == Ready then b.(dni := true) else b.(pcei := true)
    case Stop => if p.state == Running then b.(dni := true) else b.(pcei := true)
    case Halt => if p.state == Ready || p.state == Running then b.(dni := true) else b.(pcei := true)
    case SelfTest => b.(dni := true)
    case ResetAll => NO_BITS.(dni := true)
  }

  /** A start makes the receive entries the controller's. */
  function Started(u: Setup, n: Nic): Memory {
    if n.port.state == Ready && n.port.rx.entryWords >= 3 then AllArmed(n.mem, u.space, n.port.rx, 0) else n.mem
  }

  function Changed(u: Setup, n: Nic, c: Command): Nic {
    var r := n.(port := Execute(n.port, c), bits := Answered(n.bits, n.port, c),
                mem := if c == Start then Started(u, n) else n.mem);
    if c == ResetAll then r.(queue := [], lost := 0, mode := 0, pcbb := 0) else r
  }

  function BootAddress(hi: nat, lo: Word): nat { hi * 0x1_0000 + lo / 2 * 2 }

  function BootResult(u: Setup, n: Nic, addr: nat, rom: seq<Byte>): Nic {
    if addr == 0 || rom == [] then n.(bits := n.bits.(pcei := true))
    else
      var r := n.(mem := Booted(n.mem, u.space, addr, rom));
      if BootDone(n.mem, u.space, addr, rom) then r.(bits := n.bits.(dni := true))
      else r.(bits := n.bits.(pcei := true))
  }

  /** `port_command`, and the reset bit. */
  function Performed(u: Setup, n: Nic, o: Order): Nic
    requires NicOk(n)
  {
    match o
    case Change(c) => Changed(u, n, c)
    case Poll =>
      var r := Transmit(u, n, 1);
      r.(bits := r.bits.(dni := true))
    case Locate(hi, lo) => n.(pcbb := hi * 0x1_0000 + lo, bits := n.bits.(dni := true))
    case Block(aside) =>
      var r := Obey(u.space, n.port, n.mode, n.mem, n.pcbb, aside);
      n.(port := r.port, mode := r.mode, mem := r.mem, bits := n.bits.(dni := true, pcei := n.bits.pcei || !r.ok))
    case Boot(hi, lo, rom) => BootResult(u, n, BootAddress(hi, lo), rom)
    case Undefined => n.(bits := n.bits.(dni := true))
  }

  /** A frame arrives; one too many costs the oldest, which is counted and reported. */
  function Arrived(n: Nic, data: seq<Byte>, loopback: bool): Nic {
    var full := data != [] && |n.queue| >= R.QUEUE_MAX;
    n.(queue := R.Enqueue(n.queue, data, loopback), lost := n.lost + (if full then 1 else 0),
       bits := n.bits.(rcbi := n.bits.rcbi || full))
  }

  /** The host clears the bits it writes as ones. */
  function Cleared(b: Bits, acked: Bits): Bits {
    Bits(b.seri && !acked.seri, b.pcei && !acked.pcei, b.rxi && !acked.rxi, b.txi && !acked.txi, b.dni && !acked.dni,
         b.rcbi && !acked.rcbi)
  }

  function Step(u: Setup, n: Nic, e: Event): Nic
    requires NicOk(n)
  {
    match e
    case Perform(o) => Performed(u, n, o)
    case Arrive(data, loopback) => Arrived(n, data, loopback)
    case ReceiveTurn => Receive(u, n)
    case TransmitTurn(max) => Transmit(u, n, max)
    case HostWrites(mem) => n.(mem := mem)
    case Acknowledge(acked) => n.(bits := Cleared(n.bits, acked))
  }

  lemma ReceiveKeeps(u: Setup, n: Nic)
    requires NicOk(n)
    ensures var r := Receive(u, n); NicOk(r) && r.port == n.port.(rxNext := r.port.rxNext)
  {
    hide R.Walk;
    var p := n.port;
    if p.rx.entryWords >= 4 && p.rx.count > 0 {
      R.WalkDisciplined(RxEnv(u, n), n.mem, n.queue, p.rxNext, if u.rxSlots != 0 then u.rxSlots else p.rx.count);
    }
  }

  lemma TransmitKeeps(u: Setup, n: Nic, max: nat)
    requires NicOk(n)
    ensures var r := Transmit(u, n, max); NicOk(r) && r.port == n.port.(txNext := r.port.txNext)
  {
    hide T.Walk;
    var p := n.port;
    if p.tx.entryWords >= 4 && p.tx.count > 0 {
      T.WalkDisciplined(TxEnv(u, n), n.mem, p.txNext, n.message.(giant := false, runt := false),
                        if max > 0 then max else if u.txSlots != 0 then u.txSlots else p.tx.count);
    }
  }

  lemma OrderKeeps(u: Setup, n: Nic, o: Order)
    requires NicOk(n)
    ensures var r := Performed(u, n, o);
            && NicOk(r)
            && (n.port.state == Running && r.port.state == Running ==>
                  r.port.tx == n.port.tx && r.port.rx == n.port.rx)
  {
    hide Transmit, PortOk, R.QueueOk, Answered, Execute, Obey, Booted, BootDone, AllArmed;
    NoFrames();
    match o
    case Change(c) => CommandKeeps(n.port, c);
    case Poll => TransmitKeeps(u, n, 1);
    case Block(aside) => ObeyKeeps(u.space, n.port, n.mode, n.mem, n.pcbb, aside);
    case _ =>
  }

  /** Every event, whatever the host writes in between, keeps both indices inside their rings; and while the port stays
  running the rings are the ones it was started with. */
  lemma StepKeeps(u: Setup, n: Nic, e: Event)
    requires NicOk(n)
    ensures var r := Step(u, n, e);
            && NicOk(r)
            && (n.port.state == Running && r.port.state == Running ==>
                  r.port.tx == n.port.tx && r.port.rx == n.port.rx)
  {
    hide Receive, Transmit, Performed;
    match e
    case Perform(o) => OrderKeeps(u, n, o);
    case Arrive(data, loopback) => R.EnqueueKeeps(n.queue, data, loopback);
    case ReceiveTurn => ReceiveKeeps(u, n);
    case TransmitTurn(max) => TransmitKeeps(u, n, max);
    case _ =>
  }

  /** A frame is lost, counted and reported exactly when it comes on top of a full queue. */
  lemma ArrivalLoses(n: Nic, data: seq<Byte>, loopback: bool)
    requires NicOk(n) && data != []
    ensures var r := Arrived(n, data, loopback);
            && (r.queue == n.queue + [R.Stage(data, loopback)] <==> |n.queue| < R.QUEUE_MAX)
            && (|n.queue| == R.QUEUE_MAX ==>
                  r.queue == n.queue[1..] + [R.Stage(data, loopback)] && r.lost == n.lost + 1 && r.bits.rcbi)
            && (|n.queue| < R.QUEUE_MAX ==> r.lost == n.lost && r.bits == n.bits)
  {
    hide R.Stage;
  }

  /** The state a command asks for. */
  function Wanted(s: PortState, o: Order): PortState {
    match o
    case Change(Start) => Running
    case Change(Halt) => Halted
    case Change(_) => Ready
    case _ => s
  }

  /** What the answer tells the host: with PCEI newly up the port is as it was, and so is all else but guest memory;
  without it the command is done and the port in the state it asked for.  Rings change only outside the running
  state or by a reset. */
  lemma CommandAnswered(u: Setup, n: Nic, o: Order)
    requires NicOk(n) && !n.bits.pcei
    ensures AnswerMeans(n, o, Performed(u, n, o))
  {
    hide Transmit, NicOk, Obey, Booted, BootDone, AllArmed, Changed, AnswerMeans;
    match o
    case Poll =>
      TransmitKeeps(u, n, 1);
      TransmitSpares(u, n, 1);
      QuietAnswer(n, o, Performed(u, n, o));
    case Block(aside) =>
      NicPort(n);
      ObeyKeeps(u.space, n.port, n.mode, n.mem, n.pcbb, aside);
      QuietAnswer(n, o, Performed(u, n, o));
    case Change(c) => ChangeAnswered(u, n, c);
    case _ => QuietAnswer(n, o, Performed(u, n, o));
  }

  predicate AnswerMeans(n: Nic, o: Order, r: Nic) {
    && (r.bits.pcei ==> r == n.(bits := r.bits, mem := r.mem))
    && (!r.bits.pcei ==> r.bits.dni && r.port.state == Wanted(n.port.state, o))
    && (r.port.tx != n.port.tx || r.port.rx != n.port.rx ==>
          o == Change(ResetAll) || (o.Block? && n.port.state != Running && r.port.txNext == r.port.rxNext == 0))
    && (o != Change(ResetAll) ==> r.queue == n.queue && r.lost == n.lost)
  }

  lemma ChangeAnswered(u: Setup, n: Nic, c: Command)
    requires !n.bits.pcei
    ensures AnswerMeans(n, Change(c), Changed(u, n, c))
  {
    hide Started;
  }

  /** Commands that leave the port's state alone. */
  lemma QuietAnswer(n: Nic, o: Order, r: Nic)
    requires !o.Change? && r.port.state == n.port.state && r.queue == n.queue && r.lost == n.lost
    requires r.bits.pcei ==> r == n.(bits := r.bits, mem := r.mem)
    requires !r.bits.pcei ==> r.bits.dni
    requires r.port.tx != n.port.tx || r.port.rx != n.port.rx ==>
               o.Block? && n.port.state != Running && r.port.txNext == r.port.rxNext == 0
    ensures AnswerMeans(n, o, r)
  {
  }

  /** What a transmit walk tells the host: TXI if it handed back an entry, SERI if an entry or a buffer did not answer
  or entries are too short to hold four words; each also if it stood before. */
  lemma TransmitInterrupts(u: Setup, n: Nic, max: nat)
    requires NicOk(n) && n.port.state == Running
    ensures var limit := if max > 0 then max else if u.txSlots != 0 then u.txSlots else n.port.tx.count;
            var r, words := Transmit(u, n, max), n.port.tx.entryWords;
            if words == 0 || n.port.tx.count == 0 then r == n
            else if words < 4 then r == n.(bits := n.bits.(seri := true))
            else
              var w := T.Walk(TxEnv(u, n), n.mem, n.port.txNext, n.message.(giant := false, runt := false), limit);
              && (r.bits.txi <==> n.bits.txi || |w.log| > 0)
              && (r.bits.seri <==> n.bits.seri || w.stop == T.EntryTimeout || w.stop == T.BufferTimeout)
  {
    hide T.Walk;
  }

  /** What a receive walk tells the host: RXI if it handed back an entry that ends a frame, and SERI as above. */
  lemma ReceiveInterrupts(u: Setup, n: Nic)
    requires NicOk(n) && n.port.state == Running
    ensures var limit := if u.rxSlots != 0 then u.rxSlots else n.port.rx.count;
            var r, words := Receive(u, n), n.port.rx.entryWords;
            if n.queue == [] || words == 0 || n.port.rx.count == 0 then r == n
            else if words < 4 then r == n.(bits := n.bits.(seri := true))
            else
              var w := R.Walk(RxEnv(u, n), n.mem, n.queue, n.port.rxNext, limit);
              && (r.bits.rxi <==> n.bits.rxi || exists k :: 0 <= k < |w.log| && EndsFrame(w.log[k]))
              && (r.bits.seri <==> n.bits.seri || w.stop == R.EntryTimeout || w.stop == R.BufferTimeout)
  {
    hide R.Walk, EndsFrame, R.HandedOver;
    if n.queue != [] && n.port.rx.entryWords >= 4 && n.port.rx.count > 0 {
      var limit := if u.rxSlots != 0 then u.rxSlots else n.port.rx.count;
      var w := R.Walk(RxEnv(u, n), n.mem, n.queue, n.port.rxNext, limit);
      R.WalkDisciplined(RxEnv(u, n), n.mem, n.queue, n.port.rxNext, limit);
      forall k | 0 <= k < |w.log| ensures EndsFrame(w.log[k]) <==> w.log[k].Ended() { EndsIs(w.log[k]); }
    }
  }

  /** The entry as it is handed back has ENF set. */
  predicate EndsFrame(d: R.Delivery) { d.Ok() && R.After(d)[2] / 0x100 % 2 == 1 }

  lemma EndsIs(d: R.Delivery)
    requires R.HandedOver(d)
    ensures EndsFrame(d) <==> d.Ended()
  {
    hide R.After, R.Status2, R.Status3;
    R.StatusDecodes(d);
  }

  lemma NicPort(n: Nic)
    requires NicOk(n)
    ensures PortOk(n.port)
  {
  }

  lemma TransmitSpares(u: Setup, n: Nic, max: nat)
    requires NicOk(n)
    ensures var r := Transmit(u, n, max);
            && r.bits == n.bits.(txi := r.bits.txi, seri := r.bits.seri) && r.queue == n.queue && r.lost == n.lost
            && r.mode == n.mode && r.pcbb == n.pcbb
  {
    hide T.Walk;
  }

  lemma NoFrames()
    ensures R.QueueOk([])
  {
  }

  /** The controller after a power-up. */
  function PowerUp(mem: Memory): (n: Nic)
    ensures NicOk(n)
  {
    Nic(ResetPort(), mem, [], 0, T.Message(0, false, false, 0), NO_BITS.(dni := true), 0, 0)
  }

  /** Where a run of events leads; the indices stay in their rings all the way. */
  function Run(u: Setup, n: Nic, es: seq<Event>): (r: Nic)
    requires NicOk(n)
    ensures NicOk(r)
    decreases |es|
  {
    if es == [] then n
    else
      var before := Run(u, n, es[..|es| - 1]);
      StepKeeps(u, before, es[|es| - 1]);
      Step(u, before, es[|es| - 1])
  }

  /** The port is running at every point of a run. */
  predicate StaysRunning(u: Setup, n: Nic, es: seq<Event>)
    requires NicOk(n)
    decreases |es|
  {
    Run(u, n, es).port.state == Running && (es == [] || StaysRunning(u, n, es[..|es| - 1]))
  }

  /** Over a run that stays running, whatever the host and the walks do, the rings never change. */
  lemma {:induction false} RingsFixed(u: Setup, n: Nic, es: seq<Event>)
    requires NicOk(n) && StaysRunning(u, n, es)
    ensures Run(u, n, es).port.tx == n.port.tx && Run(u, n, es).port.rx == n.port.rx
    ensures IndexOk(n.port.tx, Run(u, n, es).port.txNext) && IndexOk(n.port.rx, Run(u, n, es).port.rxNext)
    decreases |es|
  {
    hide Step;
    if es != [] {
      var before := es[..|es| - 1];
      RingsFixed(u, n, before);
      StepKeeps(u, Run(u, n, before), es[|es| - 1]);
    }
  }

  // --- the device ----------------------------------------------------------------------------

  class Deuna {
    const setup: Setup
    const bus: Bus
    var port: Port
    var queue: seq<R.Item>
    var lost: nat
    var message: T.Message
    var bits: Bits
    var mode: Word
    var pcbb: nat

    function State(): Nic
      reads this, bus
    {
      Nic(port, bus.mem, queue, lost, message, bits, mode, pcbb)
    }

    constructor (setup: Setup, bus: Bus)
      ensures this.setup == setup && this.bus == bus && State() == PowerUp(bus.mem)
    {
      this.setup, this.bus := setup, bus;
      port := ResetPort();
      queue, lost, message, bits := [], 0, T.Message(0, false, false, 0), NO_BITS.(dni := true);
      mode, pcbb := 0, 0;
    }

    /** The ring format function: everything is checked before anything is changed. */
    method WriteRings(udb: seq<Word>) returns (ok: bool)
      requires |udb| == 6
      modifies this`port
      ensures ok == FormatAccepted(old(port), udb) && port == WriteRingFormat(old(port), udb)
    {
      if port.state == Running { return false; }
      if udb[0] % 2 != 0 || udb[1] / 4 % 64 != 0 { return false; }
      if udb[3] % 2 != 0 || udb[4] / 4 % 64 != 0 || udb[5] < 2 { return false; }
      port := port.(tx := Ring(RingBase(udb[1], udb[0]), udb[1] / 0x100, udb[2]));
      port := port.(rx := Ring(RingBase(udb[4], udb[3]), udb[4] / 0x100, udb[5]));
      port := port.(rxNext := 0);
      port := port.(txNext := 0);
      return true;
    }

    method ResetController()
      requires NicOk(State())
      modifies this
      ensures State() == Performed(setup, old(State()), Change(ResetAll))
    {
      bits := NO_BITS.(dni := true);
      mode, pcbb := 0, 0;
      port := Port.Port(Ready, NO_RING, NO_RING, 0, 0);
      queue, lost := [], 0;
    }

    /** `dma_write_words`. */
    method StoreWords(at: nat, ws: seq<Word>) returns (ok: bool)
      requires ws != []
      modifies bus
      ensures ok == EntryAnswers(old(bus.mem), setup.space, at, |ws|)
      ensures bus.mem == Stored(old(bus.mem), setup.space, at, ws)
    {
      hide Written, AllAnswer;
      if at >= setup.space || 2 * |ws| > setup.space - at { return false; }
      ok := bus.WriteWords(at, ws);
    }

    /** One function of the command block. */
    method PerformBlock(pcb: seq<Word>, aside: Aside) returns (ok: bool)
      requires |pcb| == 4 && PortOk(port)
      modifies this`port, this`mode, bus
      ensures Reply(port, mode, bus.mem, ok)
           == DeunaCommand.Perform(setup.space, old(port), old(mode), old(bus.mem), pcbb, pcb, aside)
    {
      hide FormatAccepted, WriteRingFormat, PortOk, Stored, ReadRingFormat, EntryAnswers, WordsAt, SegmentAddress;
      var code := pcb[0];
      var addressed := pcb[1] % 2 == 0 && pcb[2] / 4 % 64 == 0;
      var udbb := SegmentAddress(pcb[2], pcb[1]);
      if code == NOTHING { return true; }
      if code == READ_RINGS {
        var udb := ReadRingFormat(port);
        if !addressed { return false; }
        ok := StoreWords(udbb, udb);
      } else if code == WRITE_RINGS {
        if !addressed { return false; }
        if port.state == Running { return false; }
        var udb;
        ok, udb := ReadEntry(udbb, 6);
        if !ok { return; }
        ok := WriteRings(udb);
      } else if code == READ_MODE {
        ok := StoreWords(pcbb + 2, [mode]);
      } else if code == WRITE_MODE {
        mode := pcb[1];
        ok := true;
      } else if NotModelled(code) {
        bus.mem := aside.mem;
        ok := aside.done;
      } else {
        ok := false;
      }
    }

    /** `execute_command`. */
    method ExecuteCommand(aside: Aside) returns (ok: bool)
      requires PortOk(port)
      modifies this`port, this`mode, bus
      ensures Reply(port, mode, bus.mem, ok)
           == Obey(setup.space, old(port), old(mode), old(bus.mem), pcbb, aside)
    {
      hide DeunaCommand.Perform, PortOk, EntryAnswers, WordsAt;
      var pcb;
      ok, pcb := ReadEntry(pcbb, 4);
      if !ok { return; }
      if pcb[0] >= 0x100 { return false; }
      ok := PerformBlock(pcb, aside);
    }

    /** The loop of the start command over the receive ring. */
    method ArmReceive(r: Ring)
      requires r.entryWords >= 3
      modifies bus
      ensures bus.mem == AllArmed(old(bus.mem), setup.space, r, 0)
    {
      hide EntryAnswers, EntryAddress, Written, WordsAt;
      var i := 0;
      ghost var m := bus.mem;
      while i < r.count
        invariant i <= r.count && AllArmed(bus.mem, setup.space, r, i) == AllArmed(m, setup.space, r, 0)
      {
        var ok, desc := ReadEntry(EntryAddress(r, i), r.entryWords);
        if ok {
          desc := desc[2 := if Owned(desc[2]) then desc[2] else desc[2] + 0x8000];
          WriteEntry(EntryAddress(r, i), desc);
        }
        i := i + 1;
      }
    }

    /** `process_bootrom`. */
    method ProcessBootrom(dst: nat, rom: seq<Byte>) returns (ok: bool)
      modifies bus
      ensures ok == (dst != 0 && rom != [] && BootDone(old(bus.mem), setup.space, dst, rom))
      ensures bus.mem == if dst == 0 || rom == [] then old(bus.mem) else Booted(old(bus.mem), setup.space, dst, rom)
    {
      hide WindowWritten, BytesAnswer;
      if dst == 0 || |rom| == 0 { return false; }
      var offset := 0;
      ghost var m := bus.mem;
      while offset < |rom|
        invariant offset <= |rom|
        invariant Booted(bus.mem, setup.space, dst + offset, rom[offset..]) == Booted(m, setup.space, dst, rom)
        invariant BootDone(bus.mem, setup.space, dst + offset, rom[offset..]) == BootDone(m, setup.space, dst, rom)
      {
        var len := |rom| - offset;
        if len > CHUNK { len := CHUNK; }
        ghost var rest := rom[offset..];
        assert rest[..len] == rom[offset..offset + len] && rest[len..] == rom[offset + len..];
        ok := WindowWrite(bus, setup.space, dst + offset, rom[offset..offset + len]);
        if !ok { return; }
        offset := offset + len;
      }
      return true;
    }

    method StartPort()
      requires NicOk(State())
      modifies this, bus
      ensures State() == Performed(setup, old(State()), Change(Start))
    {
      hide AllArmed, R.QueueOk, PortOk;
      if port.state == Ready {
        port := port.(state := Running);
        bits := bits.(dni := true);
        port := port.(rxNext := 0, txNext := 0);
        if port.rx.entryWords >= 3 { ArmReceive(port.rx); }
      } else {
        bits := bits.(pcei := true);
      }
    }

    method BootPort(hi: nat, lo: Word, rom: seq<Byte>)
      requires NicOk(State())
      modifies this`bits, bus
      ensures State() == Performed(setup, old(State()), Boot(hi, lo, rom))
    {
      hide Booted, BootDone, R.QueueOk, PortOk;
      var dst := hi * 0x1_0000 + lo / 2 * 2;
      var ok := ProcessBootrom(dst, rom);
      if ok { bits := bits.(dni := true); } else { bits := bits.(pcei := true); }
    }

    /** `port_command`. */
    method PortCommand(o: Order)
      requires NicOk(State())
      modifies this, bus
      ensures State() == Step(setup, old(State()), Perform(o))
    {
      hide Obey, Booted, BootDone, AllArmed, Transmit, R.QueueOk, PortOk, T.LengthOk;
      match o
      case Poll =>
        ProcessTransmit(1);
        bits := bits.(dni := true);
      case Block(aside) =>
        var ok := ExecuteCommand(aside);
        if !ok { bits := bits.(pcei := true); }
        bits := bits.(dni := true);
      case Locate(hi, lo) =>
        pcbb := hi * 0x1_0000 + lo;
        bits := bits.(dni := true);
      case Boot(hi, lo, rom) => BootPort(hi, lo, rom);
      case Undefined => bits := bits.(dni := true);
      case Change(c) =>
        match c {
          case SelfTest =>
            bits := bits.(dni := true);
            port := port.(state := Ready);
          case Start => StartPort();
          case Halt =>
            if port.state == Ready || port.state == Running {
              port := port.(state := Halted);
              bits := bits.(dni := true);
            } else {
              bits := bits.(pcei := true);
            }
          case Stop =>
            if port.state == Running {
              port := port.(state := Ready);
              bits := bits.(dni := true);
            } else {
              bits := bits.(pcei := true);
            }
          case ResetAll => ResetController();
        }
    }

    method EnqueueReadq(data: seq<Byte>, loopback: bool)
      requires NicOk(State())
      modifies this
      ensures State() == Step(setup, old(State()), Arrive(data, loopback))
    {
      hide R.Stage;
      if |data| == 0 { return; }
      var dropped := false;
      queue := queue + [R.Stage(data, loopback)];
      if |queue| > R.QUEUE_MAX {
        queue := queue[1..];
        lost := lost + 1;
        dropped := true;
      }
      if dropped { bits := bits.(rcbi := true); }
    }

    /** `desc_read_words`. */
    method ReadEntry(at: nat, n: nat) returns (ok: bool, desc: seq<Word>)
      requires n > 0
      ensures ok == EntryAnswers(bus.mem, setup.space, at, n)
      ensures ok ==> AllAnswer(bus.mem, at / 2, n) && desc == WordsAt(bus.mem, at / 2, n)
    {
      hide WordsAt, AllAnswer;
      desc := [];
      ok := false;
      if at >= setup.space || 2 * n > setup.space - at { return; }
      ok, desc := bus.ReadWords(at, n);
    }

    /** `desc_write_words` of an entry that has just been read: the same words answer again. */
    method WriteEntry(at: nat, desc: seq<Word>)
      requires EntryAnswers(bus.mem, setup.space, at, |desc|)
      modifies bus
      ensures bus.mem == Written(old(bus.mem), at, desc)
    {
      var ok := bus.WriteWords(at, desc);
      assert ok;
    }

    /** The segment a buffer timeout interrupts. */
    static function Torn(stop: R.Stop, d: R.Delivery): seq<R.Delivery> {
      if stop == R.BufferTimeout then [d] else []
    }

    /** One entry of the receive ring: read it, fill its buffer from the first frame, hand it back. */
    method FillEntry(env: R.Env) returns (stop: R.Stop, d: R.Delivery)
      requires queue != [] && R.QueueOk(queue) && env.ring.entryWords >= 4 && env.space == setup.space
      modifies bus
      ensures stop == R.Idle <==> R.GoesOn(env, old(bus.mem), queue, port.rxNext)
      ensures stop == R.Idle ==>
                d == R.Segment(env, old(bus.mem), queue, port.rxNext) && bus.mem == R.HandedBack(env, old(bus.mem), d)
      ensures stop != R.Idle ==>
                R.Rx(bus.mem, queue, port.rxNext, [], stop, Torn(stop, d))
                == R.Halted(env, old(bus.mem), queue, port.rxNext, true)
    {
      hide R.Status2, R.Status3, R.After, WindowWritten, Written, BytesAnswer, WordsAt, InRange, ReadOk, SegmentAddress;
      ghost var m := bus.mem;
      d := R.Delivery(port.rxNext, [], queue[0], 0, env.unchained);
      var at, n := EntryAddress(env.ring, port.rxNext), env.ring.entryWords;
      var ok, desc := ReadEntry(at, n);
      if !ok { return R.EntryTimeout, d; }
      if !Owned(desc[2]) { return R.HostOwns, d; }
      assert R.ItemOk(queue[0]);
      d := R.Deliver(port.rxNext, desc, queue[0], env.unchained);
      ok := WindowWrite(bus, setup.space, d.Address(), d.Bytes());
      if !ok { return R.BufferTimeout, d; }
      StillAnswers(m, bus.mem, setup.space, at, n, d.Address(), d.Bytes());
      WriteEntry(at, R.After(d));
      return R.Idle, d;
    }

    /** The receive ring loop. */
    method FillRing(env: R.Env, limit: nat) returns (r: R.Rx)
      requires R.QueueOk(queue) && env.ring.entryWords >= 4 && env.space == setup.space
      modifies this`queue, this`port, bus
      ensures r == R.Walk(env, old(bus.mem), old(queue), old(port.rxNext), limit)
      ensures bus.mem == r.mem && queue == r.queue && port == old(port).(rxNext := r.next)
    {
      hide R.Walk, R.Segment, R.Shortened, R.Ready, R.Fits, R.HandedBack, R.GoesOn, R.QueueOk;
      var processed := 0;
      var log := [];
      ghost var full := R.Walk(env, bus.mem, queue, port.rxNext, limit);
      var stop := R.Idle;
      var torn: seq<R.Delivery> := [];
      while queue != [] && processed < limit && stop == R.Idle
        invariant processed <= limit && R.QueueOk(queue) && port == old(port).(rxNext := port.rxNext)
        invariant stop == R.Idle ==>
                    var rest := R.Walk(env, bus.mem, queue, port.rxNext, limit - processed);
                    full == rest.(log := log + rest.log)
        invariant stop == R.Idle ==> torn == []
        invariant stop != R.Idle ==> full == R.Rx(bus.mem, queue, port.rxNext, log, stop, torn)
        decreases limit - processed, stop == R.Idle
      {
        ghost var m, q, next := bus.mem, queue, port.rxNext;
        R.WalkTurn(env, m, q, next, limit - processed);
        var d;
        stop, d := FillEntry(env);
        if stop == R.Idle {
          ReadyQueue(env, m, q, next);
          queue := R.Shortened(queue, d);
          port := port.(rxNext := Advance(env.ring, port.rxNext));
          processed := processed + 1;
          ghost var rest := R.Walk(env, bus.mem, queue, port.rxNext, limit - processed);
          assert log + ([d] + rest.log) == log + [d] + rest.log;
          log := log + [d];
        } else {
          torn := Torn(stop, d);
          assert log + [] == log;
        }
      }
      if stop == R.Idle {
        R.WalkTurn(env, bus.mem, queue, port.rxNext, limit - processed);
        NeverReady(env, bus.mem, queue, port.rxNext);
        assert log + [] == log;
      }
      r := R.Rx(bus.mem, queue, port.rxNext, log, stop, torn);
    }

    method ProcessReceive()
      requires NicOk(State())
      modifies this, bus
      ensures State() == Step(setup, old(State()), ReceiveTurn)
    {
      hide R.Walk, R.QueueOk, PortOk, AnyEnded, R.Halted;
      if port.state != Running || queue == [] { return; }
      if port.rx.count == 0 || port.rx.entryWords == 0 { return; }
      if port.rx.entryWords < 4 {
        bits := bits.(seri := true);
        return;
      }
      var limit := if setup.rxSlots != 0 then setup.rxSlots else port.rx.count;
      var r := FillRing(R.Env(setup.space, port.rx, Unchained(mode)), limit);
      NoteReceive(r);
    }

    /** The interrupt bits a receive walk sets. */
    method NoteReceive(r: R.Rx)
      modifies this`bits
      ensures bits == old(bits).(rxi := old(bits).rxi || AnyEnded(r.log),
                                 seri := old(bits).seri || r.stop == R.EntryTimeout || r.stop == R.BufferTimeout)
    {
      hide AnyEnded;
      if r.stop == R.EntryTimeout || r.stop == R.BufferTimeout { bits := bits.(seri := true); }
      if AnyEnded(r.log) { bits := bits.(rxi := true); }
    }

    /** `find_owned_desc`: the first entry of the ring that answers and is the controller's. */
    method FindOwnedDesc(env: T.Env) returns (found: bool, index: nat)
      requires env.space == setup.space
      ensures found == (T.FindOwned(env, bus.mem, 0) < env.ring.count)
      ensures found ==> index == T.FindOwned(env, bus.mem, 0)
    {
      hide T.OwnedEntry;
      index := 0;
      while index < env.ring.count
        invariant index <= env.ring.count && T.FindOwned(env, bus.mem, 0) == T.FindOwned(env, bus.mem, index)
      {
        var ok, probe := ReadEntry(EntryAddress(env.ring, index), 4);
        OwnedIs(env, bus.mem, index, 4);
        if ok && Owned(probe[2]) { return true, index; }
        index := index + 1;
      }
      found := false;
    }

    /** A first entry begins the message; `room` is how much of the entry's buffer still fits. */
    method BeginMessage(flags: Word, slen: Word) returns (room: nat)
      modifies this`message
      ensures room == T.Room(T.Begun(old(message), flags), slen)
      ensures var g := T.Begun(old(message), flags); message == g.(giant := g.giant || T.Overflows(g, slen))
    {
      if T.Starts(flags) { message := T.Message(0, false, false, message.frames); }
      room := T.Room(message, slen);
      if T.Overflows(message, slen) { message := message.(giant := true); }
    }

    /** The entry's bytes counted, and the message closed with its last entry. */
    method GrowMessage(env: T.Env, flags: Word, room: nat)
      modifies this`message
      ensures var g := old(message).(len := old(message).len + room);
              message == if T.Ends(flags) then T.Closed(env, g) else g
    {
      message := message.(len := message.len + room);
      var frame := message.frames;
      if T.Ends(flags) {
        if message.len < T.ETH_MIN_PACKET {
          message := message.(len := T.ETH_MIN_PACKET);
          if !env.pads { message := message.(runt := true); }
        }
        message := message.(frames := frame + 1);
      }
    }

    /** One entry of the transmit ring that the controller owns. */
    method SendEntry(env: T.Env, desc: seq<Word>) returns (ok: bool, r: T.Report)
      requires env.ring.entryWords >= 4 && env.space == setup.space
      requires T.OwnedEntry(env, bus.mem, port.txNext, env.ring.entryWords)
      requires desc == T.Desc(env, bus.mem, port.txNext)
      modifies this`message, bus
      ensures ok == T.DataReads(env, old(bus.mem), desc, old(message))
      ensures ok ==> && r == T.Handle(env, port.txNext, desc, old(message)) && message == r.message
                     && bus.mem == T.HandedBack(env, old(bus.mem), r)
      ensures !ok ==> bus.mem == old(bus.mem) && message == T.Abandoned(env, old(bus.mem), port.txNext, old(message))
    {
      hide Written, T.Status2, T.Status3, T.OwnedEntry, WordsAt, AllAnswer, SegmentAddress, T.BufferReads, T.Room,
          T.Overflows, T.Begun, T.Closed, EntryAnswers, EntryAddress;
      r := T.Report(port.txNext, desc, desc, false, message);
      var frame := message.frames;
      var room := BeginMessage(desc[2], desc[0]);
      ok := ReadBuffer(SegmentAddress(desc[2], desc[1]), room);
      if !ok { return; }
      GrowMessage(env, desc[2], room);
      var noted := message.(frames := frame);
      var after := desc[2 := T.Status2(env, desc[2], noted)][3 := T.Status3(env, desc[2], noted)];
      r := T.Report(port.txNext, desc, after, T.Ends(desc[2]), message);
      OwnedAnswers(env, bus.mem, port.txNext);
      WriteEntry(EntryAddress(env.ring, port.txNext), after);
    }

    /** The word cycles of `dma_read_bytes`. */
    method ReadBuffer(addr: nat, n: nat) returns (ok: bool)
      ensures ok == T.BufferReads(bus.mem, setup.space, addr, n)
    {
      hide WordsAt;
      if n == 0 { return true; }
      if addr >= setup.space || n > setup.space - addr { return false; }
      var aligned, words := addr / 2 * 2, (n + 1) / 2;
      if aligned >= setup.space || 2 * words > setup.space - aligned { return false; }
      var ws;
      ok, ws := bus.ReadWords(aligned, words);
    }

    /** The transmit ring loop; `fetches` counts the whole entries read. */
    method SendRing(env: T.Env, limit: nat) returns (r: T.Tx, fetches: nat)
      requires env.ring.entryWords >= 4 && env.space == setup.space && port.txNext < env.ring.count
      modifies this`message, this`port, bus
      ensures r == T.Walk(env, old(bus.mem), old(port.txNext), old(message), limit)
      ensures bus.mem == r.mem && message == r.message && port == old(port).(txNext := r.next)
      ensures fetches <= 2 * |r.log| + 2
    {
      hide T.Walk, T.OwnedEntry, T.GoesOn, T.Desc, T.Handle, T.DataReads, T.FindOwned, T.HandedBack, Advance,
          EntryAddress;
      hide T.Abandoned, Owned, AllAnswer, EntryAnswers, Prefixed;
      var log := [];
      fetches := 0;
      ghost var full := T.Walk(env, bus.mem, port.txNext, message, limit);
      var stop := T.Limit;
      ghost var jumped := false;
      PrefixStart(full);
      while |log| < limit && stop == T.Limit
        invariant |log| <= limit && port == old(port).(txNext := port.txNext) && port.txNext < env.ring.count
        invariant stop == T.Limit ==>
                    Prefixed(full, log, T.Walk(env, bus.mem, port.txNext, message, limit - |log|))
        invariant stop != T.Limit ==> full == T.Tx(bus.mem, port.txNext, message, log, stop)
        invariant jumped ==> T.OwnedEntry(env, bus.mem, port.txNext, 4)
        invariant fetches <= 2 * |log| + (if stop == T.Limit then 0 else 1) + (if jumped then 1 else 0)
        decreases limit - |log|, stop == T.Limit, !jumped
      {
        ghost var m, g := bus.mem, message;
        var next, n := port.txNext, env.ring.entryWords;
        var ok, desc := ReadEntry(EntryAddress(env.ring, next), n);
        fetches := fetches + 1;
        if !ok {
          SendTimeout(env, m, next, g, limit - |log|);
          PrefixEnd(full, log, T.Walk(env, m, next, g, limit - |log|));
          stop := T.EntryTimeout;
          continue;
        }
        OwnedIs(env, m, next, n);
        if !Owned(desc[2]) {
          T.OwnedAgree(env, m, next, n);
          var found, index := FindOwnedDesc(env);
          if found {
            SendJump(env, m, next, g, limit - |log|);
            port := port.(txNext := index);
            jumped := true;
            continue;
          }
          SendNothing(env, m, next, g, limit - |log|);
          PrefixEnd(full, log, T.Walk(env, m, next, g, limit - |log|));
          stop := T.NothingOwned;
          continue;
        }
        SendTurn(env, m, next, g, limit - |log|);
        var report;
        ok, report := SendEntry(env, desc);
        ghost var w := T.Walk(env, m, next, g, limit - |log|);
        if !ok {
          PrefixEnd(full, log, w);
          stop := T.BufferTimeout;
          continue;
        }
        AdvanceKeeps(env.ring, next);
        port := port.(txNext := Advance(env.ring, next));
        PrefixMore(full, log, report, T.Walk(env, bus.mem, port.txNext, message, limit - |log| - 1), w);
        log := log + [report];
        jumped := false;
      }
      if stop == T.Limit {
        SendLimit(env, bus.mem, port.txNext, message);
        PrefixEnd(full, log, T.Walk(env, bus.mem, port.txNext, message, 0));
      }
      r := T.Tx(bus.mem, port.txNext, message, log, stop);
    }

    method ProcessTransmit(maxDescriptors: nat)
      requires NicOk(State())
      modifies this, bus
      ensures State() == Step(setup, old(State()), TransmitTurn(maxDescriptors))
    {
      hide T.Walk, R.QueueOk, PortOk, T.LengthOk;
      IndicesIn(port);
      if port.state != Running { return; }
      if port.tx.count == 0 || port.tx.entryWords == 0 { return; }
      if port.tx.entryWords < 4 {
        bits := bits.(seri := true);
        return;
      }
      var limit := if maxDescriptors > 0 then maxDescriptors
                   else if setup.txSlots != 0 then setup.txSlots else port.tx.count;
      message := message.(giant := false, runt := false);
      var r, fetches := SendRing(T.Env(setup.space, port.tx, Pads(mode), Loops(mode), setup.link), limit);
      NoteTransmit(r);
    }

    /** The interrupt bits a transmit walk sets. */
    method NoteTransmit(r: T.Tx)
      modifies this`bits
      ensures bits == old(bits).(txi := old(bits).txi || r.log != [],
                                 seri := old(bits).seri || r.stop == T.EntryTimeout || r.stop == T.BufferTimeout)
    {
      if r.stop == T.EntryTimeout || r.stop == T.BufferTimeout { bits := bits.(seri := true); }
      if r.log != [] { bits := bits.(txi := true); }
    }
  }

  lemma IndicesIn(p: Port)
    requires PortOk(p)
    ensures p.tx.count > 0 ==> p.txNext < p.tx.count
    ensures p.rx.count > 0 ==> p.rxNext < p.rx.count
  {
  }

  /** A walk `full` of which `log` is done and `rest` to come. */
  predicate Prefixed(full: T.Tx, log: seq<T.Report>, rest: T.Tx) { full == rest.(log := log + rest.log) }

  lemma PrefixStart(full: T.Tx)
    ensures Prefixed(full, [], full)
  {
    assert [] + full.log == full.log;
  }

  lemma PrefixMore(full: T.Tx, log: seq<T.Report>, r: T.Report, rest: T.Tx, w: T.Tx)
    requires Prefixed(full, log, w) && w == rest.(log := [r] + rest.log)
    ensures Prefixed(full, log + [r], rest)
  {
    assert log + ([r] + rest.log) == log + [r] + rest.log;
  }

  lemma PrefixEnd(full: T.Tx, log: seq<T.Report>, w: T.Tx)
    requires Prefixed(full, log, w) && w.log == []
    ensures full == w.(log := log)
  {
    assert log + [] == log;
  }

  // --- steps of the loops -----------------------------------------------------------------------

  lemma StillAnswers(m: Memory, m1: Memory, space: nat, at: nat, n: nat, addr: nat, bs: seq<Byte>)
    requires EntryAnswers(m, space, at, n) && m1 == WindowWritten(m, space, addr, bs)
    ensures EntryAnswers(m1, space, at, n)
  {
    AnswersSame(m, m1, at / 2, n);
  }

  lemma ReadyQueue(env: R.Env, m: Memory, queue: seq<R.Item>, next: nat)
    requires R.QueueOk(queue) && env.ring.entryWords >= 4 && R.GoesOn(env, m, queue, next)
    ensures queue != [] && R.Segment(env, m, queue, next).item == queue[0]
  {
  }

  lemma NeverReady(env: R.Env, m: Memory, queue: seq<R.Item>, next: nat)
    requires R.QueueOk(queue) && env.ring.entryWords >= 4
    ensures queue == [] ==> !R.GoesOn(env, m, queue, next)
  {
  }

  lemma OwnedIs(env: T.Env, m: Memory, i: nat, n: nat)
    requires n >= 4
    ensures T.OwnedEntry(env, m, i, n) <==>
              EntryAnswers(m, env.space, EntryAddress(env.ring, i), n)
              && Owned(WordsAt(m, EntryAddress(env.ring, i) / 2, n)[2])
    ensures n == env.ring.entryWords && T.OwnedEntry(env, m, i, n) ==>
              T.Desc(env, m, i) == WordsAt(m, EntryAddress(env.ring, i) / 2, n)
  {
  }

  lemma OwnedAnswers(env: T.Env, m: Memory, i: nat)
    requires env.ring.entryWords >= 4 && T.OwnedEntry(env, m, i, env.ring.entryWords)
    ensures EntryAnswers(m, env.space, EntryAddress(env.ring, i), env.ring.entryWords)
  {
  }

  lemma SendLimit(env: T.Env, m: Memory, next: nat, g: T.Message)
    requires env.ring.entryWords >= 4
    ensures T.Walk(env, m, next, g, 0) == T.Tx(m, next, g, [], T.Limit)
  {
  }

  lemma SendTimeout(env: T.Env, m: Memory, next: nat, g: T.Message, budget: nat)
    requires env.ring.entryWords >= 4 && budget > 0
    requires !EntryAnswers(m, env.space, EntryAddress(env.ring, next), env.ring.entryWords)
    ensures T.Walk(env, m, next, g, budget) == T.Tx(m, next, g, [], T.EntryTimeout)
  {
  }

  lemma SendNothing(env: T.Env, m: Memory, next: nat, g: T.Message, budget: nat)
    requires env.ring.entryWords >= 4 && budget > 0
    requires EntryAnswers(m, env.space, EntryAddress(env.ring, next), env.ring.entryWords)
    requires !T.OwnedEntry(env, m, next, env.ring.entryWords) && T.FindOwned(env, m, 0) >= env.ring.count
    ensures T.Walk(env, m, next, g, budget) == T.Tx(m, next, g, [], T.NothingOwned)
  {
  }

  /** Jumping to an owned entry is the walk going on from there. */
  lemma SendJump(env: T.Env, m: Memory, next: nat, g: T.Message, budget: nat)
    requires env.ring.entryWords >= 4 && budget > 0
    requires EntryAnswers(m, env.space, EntryAddress(env.ring, next), env.ring.entryWords)
    requires !T.OwnedEntry(env, m, next, env.ring.entryWords) && T.FindOwned(env, m, 0) < env.ring.count
    ensures T.OwnedEntry(env, m, T.FindOwned(env, m, 0), 4)
    ensures T.Walk(env, m, T.FindOwned(env, m, 0), g, budget) == T.Walk(env, m, next, g, budget)
  {
    hide T.Handle, T.DataReads, T.HandedBack;
    var j := T.FindOwned(env, m, 0);
    if EntryAnswers(m, env.space, EntryAddress(env.ring, j), env.ring.entryWords) {
      T.OwnedAgree(env, m, j, env.ring.entryWords);
    }
    assert T.Target(env, m, next) == j == T.Target(env, m, j);
  }

  /** An owned entry is handled, or its buffer times out. */
  lemma SendTurn(env: T.Env, m: Memory, next: nat, g: T.Message, budget: nat)
    requires env.ring.entryWords >= 4 && budget > 0 && T.OwnedEntry(env, m, next, env.ring.entryWords)
    ensures var desc := T.Desc(env, m, next);
            var w := T.Walk(env, m, next, g, budget);
            if T.DataReads(env, m, desc, g) then
              var r := T.Handle(env, next, desc, g);
              var rest := T.Walk(env, T.HandedBack(env, m, r), Advance(env.ring, next), r.message, budget - 1);
              w == rest.(log := [r] + rest.log)
            else w == T.Tx(m, next, T.Abandoned(env, m, next, g), [], T.BufferTimeout)
  {
    hide T.Handle, T.DataReads, T.HandedBack, T.Abandoned, T.Desc;
    assert T.Target(env, m, next) == next;
  }
}
