/** The DELQA controller: the register side and the two list walks, as the code
runs them, proved to compute the functions the other DELQA modules reason about. */
module DelqaController {
  import opened GuestMemory
  import opened ByteDma
  import opened DelqaFilter
  import opened DelqaQueue
  import opened DelqaDescriptor
  import opened DelqaCsr
  import DelqaFaults
  import Receive = DelqaReceive
  import Transmit = DelqaTransmit

  class Delqa {
    const bus: Bus
    const logic: AddressLogic

    var csr: Csr
    var vector: nat
    var interruptAsserted: bool
    /** The request as the bus adapter holds it. */
    var requested: bool

    var queue: seq<Packet>
    var loss: nat
    var rbdlBa: nat
    var xbdlBa: nat
    var writeBuffer: seq<Byte>
    /** Work left to the worker: queued packets to deliver, and the boot ROM to load. */
    var pendingDeliver: bool
    var pendingBootrom: bool

    /** What the current walk has delivered, and what it has made visible. */
    ghost var log: seq<Receive.Delivery>
    ghost var events: seq<Transmit.TxEvent>

    constructor (bus: Bus, logic: AddressLogic)
      ensures this.bus == bus && this.logic == logic && queue == [] && loss == 0
      ensures Ctrl() == DelqaCsr.Controller({XL, RL, OK}, 0, false, false)
      ensures !pendingDeliver && !pendingBootrom
    {
      this.bus, this.logic := bus, logic;
      csr, vector, interruptAsserted, requested := {XL, RL, OK}, 0, false, false;
      queue, loss, rbdlBa, xbdlBa, writeBuffer := [], 0, 0, 0, [];
      pendingDeliver, pendingBootrom := false, false;
    }

    function Ctrl(): DelqaCsr.Controller
      reads this
    {
      DelqaCsr.Controller(csr, vector, interruptAsserted, requested)
    }

    // --- CSR and interrupt -------------------------------------------------------

    method SetInterrupt()
      modifies this`interruptAsserted, this`requested
      ensures Ctrl() == DelqaCsr.SetInterrupt(old(Ctrl()))
    {
      if vector == 0 { return; }
      interruptAsserted := true;
      requested := true;
    }

    method ClearInterrupt()
      modifies this`interruptAsserted, this`requested
      ensures Ctrl() == DelqaCsr.ClearInterrupt(old(Ctrl()))
    {
      interruptAsserted := false;
      requested := false;
    }

    method UpdateCsr(setBits: Csr, clearBits: Csr)
      modifies this`csr, this`interruptAsserted, this`requested
      ensures Ctrl() == DelqaCsr.UpdateCsr(old(Ctrl()), setBits, clearBits)
    {
      csr := csr + setBits - clearBits;
      var wantIntr := IE in csr && (RI in csr || XI in csr) && vector != 0;
      if wantIntr && !interruptAsserted {
        SetInterrupt();
      } else if wantIntr && interruptAsserted {
        requested := true;
      } else if !wantIntr && interruptAsserted {
        ClearInterrupt();
      }
    }

    method SoftwareReset()
      modifies this, logic
      ensures Ctrl() == DelqaCsr.SoftwareReset(old(Ctrl()))
      ensures queue == AfterReset(old(queue)) && loss == 0
      ensures logic.Table() == old(logic.Table()).(promiscuous := false, allMulticast := false)
      ensures logic.program == KernelProgram(logic.Table())
      ensures rbdlBa == old(rbdlBa) && xbdlBa == old(xbdlBa) && writeBuffer == old(writeBuffer)
      ensures !pendingDeliver && pendingBootrom == old(pendingBootrom)
    {
      UpdateCsr({XL, RL}, ALL_BITS - {XL, RL});
      UpdateCsr({OK}, {CA});
      ClearInterrupt();
      pendingDeliver := false;
      DropReflections();
      loss := 0;
      logic.ResetModes();
    }

    /** The reset's pass over the queue. */
    method DropReflections()
      modifies this`queue
      ensures queue == AfterReset(old(queue))
    {
      var i := 0;
      ghost var q := queue;
      while i < |queue|
        invariant 0 <= i <= |queue|
        invariant queue[..i] + AfterReset(queue[i..]) == AfterReset(q)
        decreases |queue| - i
      {
        ghost var rest := queue[i..];
        assert rest[1..] == queue[i + 1..];
        if queue[i].kind == Normal {
          ghost var was := queue;
          queue := queue[i := queue[i].(used := 0)];
          assert queue[..i + 1] == was[..i] + [was[i].(used := 0)] && queue[i + 1..] == was[i + 1..];
          i := i + 1;
        } else {
          ghost var was := queue;
          queue := queue[..i] + queue[i + 1..];
          assert queue[..i] == was[..i] && queue[i..] == was[i + 1..];
        }
      }
      assert queue[..i] == queue && queue[i..] == [];
    }

    /** A host write of the CSR; turning the receiver on sends queued packets on their way, and a CSR with both
    boot bits standing asks for the boot ROM. */
    method WriteCsr(data: Csr)
      modifies this, logic
      ensures Ctrl() == DelqaCsr.WriteCsr(old(Ctrl()), data)
      ensures queue == if ResetsController(old(Ctrl()), data) then AfterReset(old(queue)) else old(queue)
      ensures pendingDeliver == (!ResetsController(old(Ctrl()), data)
                                 && (old(pendingDeliver) || (RE !in old(csr) && RE in data && old(queue) != [])))
      ensures pendingBootrom == (old(pendingBootrom) || (!ResetsController(old(Ctrl()), data) && BOOT <= csr))
    {
      var setBits := data * RW_MASK;
      var clearBits := (RW_MASK - data) + (data * W1_MASK) + (if XI in data then {NI} else {});
      if SR in csr && SR !in data {
        SoftwareReset();
        return;
      }
      if RE !in csr && RE in data && queue != [] { pendingDeliver := true; }
      UpdateCsr(setBits, clearBits);
      if BOOT <= csr { pendingBootrom := true; }
    }

    method NxmError()
      modifies this`csr, this`interruptAsserted, this`requested
      ensures Ctrl() == DelqaCsr.NxmError(old(Ctrl()))
    {
      UpdateCsr({NI, XI, XL, RL}, {});
    }

    // --- the packet queue -----------------------------------------------------------

    /** Erases the first packet from the wire, if there is one. */
    method EraseNormal()
      modifies this`queue
      ensures queue == DropOldestNormal(old(queue))
    {
      hide DropOldestNormal;
      var i := 0;
      DropNext(queue, i);
      while i < |queue| && queue[i].kind != Normal
        invariant 0 <= i <= |queue| && queue == old(queue)
        invariant DropOldestNormal(queue) == queue[..i] + DropOldestNormal(queue[i..])
      {
        DropNext(queue, i);
        i := i + 1;
      }
      DropNext(queue, i);
      if i < |queue| { queue := queue[..i] + queue[i + 1..]; }
    }

    method CountNormals() returns (n: nat)
      ensures n == Normals(queue)
    {
      n := 0;
      var i := 0;
      while i < |queue|
        invariant 0 <= i <= |queue| && n + Normals(queue[i..]) == Normals(queue)
      {
        assert queue[i..][1..] == queue[i + 1..];
        if queue[i].kind == Normal { n := n + 1; }
        i := i + 1;
      }
    }

    method EnqueuePacket(kind: Kind, data: seq<Byte>)
      modifies this`queue, this`loss, this`pendingDeliver
      ensures (queue, loss) == Enqueue(old(queue), old(loss), kind, data)
      ensures pendingDeliver == (old(pendingDeliver) || |MakeRoom(old(queue), kind)| < READ_QUEUE_MAX)
    {
      if kind == Normal {
        var n := CountNormals();
        if n >= NORMAL_MAX { EraseNormal(); }
      }
      if |queue| >= READ_QUEUE_MAX {
        loss := loss + 1;
        EraseNormal();
        if |queue| >= READ_QUEUE_MAX { return; }
      }
      queue := queue + [Packet(kind, data, 0)];
      pendingDeliver := true;
    }

    // --- receive walk ------------------------------------------------------------------

    ghost function RxState(): Receive.Rx
      reads this, bus
    {
      Receive.Rx(bus.mem, rbdlBa, queue, loss, log)
    }

    function RxEnv(): Receive.Env
      reads this, logic
    {
      Receive.Env(EL in csr, RE in csr, logic.Table())
    }

    /** Pads a runt or trims a giant from the wire before its first segment. */
    method NormalizeHead()
      requires queue != []
      modifies this`queue
      ensures queue == [Normalize(old(queue)[0])] + old(queue)[1..]
    {
      var item := queue[0];
      if item.used == 0 {
        if item.kind == Normal && |item.data| < ETH_MIN_PACKET {
          item := item.(data := item.data + seq(ETH_MIN_PACKET - |item.data|, i => 0));
        }
        if item.kind == Normal && |item.data| > MAX_RCV_PACKET {
          item := item.(data := item.data[..MAX_RCV_PACKET]);
        }
      }
      queue := [item] + queue[1..];
    }

    /** Takes the next segment off the packet at the queue head. */
    method TakeSegment(flags: Word, low: Word, count: Word) returns (d: Receive.Delivery)
      requires queue != [] && PacketOk(queue[0])
      modifies this`queue, this`loss
      ensures d == Receive.Segment(RxEnv(), old(RxState()), flags, low, count)
      ensures queue == Receive.Advanced(old(queue), d) && loss == 0
    {
      var room := BufferLength(flags, count);
      NormalizeHead();
      var item := queue[0];
      var offset := item.used;
      var rbl := |item.data| - offset;
      if rbl > room { rbl := room; }
      item := item.(used := offset + rbl);
      queue := [item] + queue[1..];
      var segment := item.data[offset..offset + rbl];
      var lost := loss != 0;
      loss := 0;
      var recognised := false;
      if |item.data| >= 6 { recognised := logic.AddressRecognised(item.data[..6]); }
      d := Receive.Delivery(rbdlBa, BufferAddress(flags, low), segment, item.kind, |item.data|, item.used,
                            Receive.Conditions(EL in csr, RE in csr, lost, recognised));
    }

    /** Fills one receive buffer and reports it. */
    method FillBuffer(flags: Word, low: Word, count: Word) returns (ok: bool, ghost lost: seq<Byte>)
      requires queue != [] && PacketOk(queue[0])
      modifies this`queue, this`loss, this`rbdlBa, this`log, bus
      ensures var pass := Receive.Deliver(RxEnv(), old(RxState()), flags, low, count);
              RxState() == pass.rx && ok == pass.More? && (ok || (pass.Timeout? && lost == pass.lost))
    {
      hide Receive.Segment, BytesAnswer, ByteWrite, Written, ReadOk, Receive.Status1, Receive.Status2, Receive.Advanced;
      var d := TakeSegment(flags, low, count);
      lost := d.bytes;
      ok := SplitWrite(bus, d.address, d.bytes);
      if !ok { return; }
      ok := bus.WriteWords(rbdlBa + 8, [Receive.Status1(d), Receive.Status2(d)]);
      if !ok { return; }
      if d.used >= d.length { queue := queue[1..]; }
      log := log + [d];
      rbdlBa := rbdlBa + 12;
    }

    /** Reads as much of a descriptor as its flags ask for. */
    method DecodeDescriptor(flags: Word) returns (order: Receive.Order)
      ensures order == Receive.Decode(bus.mem, rbdlBa, flags, queue == [])
    {
      if !DscV(flags) { return Receive.Ends; }
      var ok, bd;
      if DscC(flags) {
        ok, bd := bus.ReadWords(rbdlBa + 4, 1);
        return if ok then Receive.Chains(Address22(flags, bd[0])) else Receive.Unreadable;
      }
      if queue == [] { return Receive.Waits; }
      ok, bd := bus.ReadWords(rbdlBa + 4, 4);
      order := if ok then Receive.Fills(flags, bd[0], bd[1]) else Receive.Unreadable;
    }

    /** Marks the descriptor at `rbdlBa` used. */
    method MarkUsed(ba: nat)
      requires ReadOk(bus.mem, ba, 1)
      modifies bus
      ensures bus.mem == Written(old(bus.mem), ba, [0xffff])
    {
      var ok := bus.WriteWords(ba, [0xffff]);
    }

    /** Acts on the descriptor at `rbdlBa`, whose flags have been read. */
    method VisitDescriptor(flags: Word) returns (outcome: Receive.Outcome, ghost lost: seq<Byte>)
      requires QueueOk(queue) && ReadOk(bus.mem, rbdlBa, 2) && flags == Receive.Flags(RxState())
      modifies this`queue, this`loss, this`rbdlBa, this`log, bus
      ensures var pass := Receive.Visit(RxEnv(), old(RxState()));
              RxState() == pass.rx && outcome == Receive.OutcomeOf(pass) && lost == Receive.LostOf(pass)
    {
      hide Receive.Deliver, Receive.Decode, Written, ReadOk;
      lost := [];
      FirstWordAnswers(bus.mem, rbdlBa);
      MarkUsed(rbdlBa);
      var order := DecodeDescriptor(flags);
      match order {
        case Ends => outcome := Receive.Listed;
        case Chains(ba) =>
          rbdlBa := ba;
          outcome := Receive.Goes;
        case Waits => outcome := Receive.Idles;
        case Unreadable => outcome := Receive.Faults;
        case Fills(f, low, count) =>
          assert PacketOk(queue[0]);
          var ok;
          ok, lost := FillBuffer(f, low, count);
          if ok { lost := []; }
          outcome := if ok then Receive.Goes else Receive.Faults;
      }
    }

    /** The CSR once a walk is over: RI and RL in one update, or the bus timeout report. */
    static function AfterWalk(c: DelqaCsr.Controller, end: Receive.End): DelqaCsr.Controller {
      var rl := end.stop == Receive.ListEnded || end.stop == Receive.TooLong;
      var ri := end.rx.log != [];
      if end.stop == Receive.TimedOut then DelqaCsr.NxmError(c)
      else if ri || rl then DelqaCsr.UpdateCsr(c, (if rl then {RL} else {}) + (if ri then {RI} else {}), {})
      else c
    }

    /** `process_rbdl`: delivers queued packets into the receive list, unless the list is empty. */
    method ProcessRbdl() returns (ghost end: Receive.End)
      requires QueueOk(queue)
      modifies this`queue, this`loss, this`rbdlBa, this`log, this`csr, this`interruptAsserted, this`requested, bus
      ensures RL in old(csr) ==>
                RxState() == old(RxState()) && Ctrl() == old(Ctrl())
      ensures RL !in old(csr) ==>
                && end == Receive.Walk(old(RxEnv()), old(RxState()).(log := []), old(rbdlBa), 0)
                && RxState() == end.rx
                && Ctrl() == AfterWalk(old(Ctrl()), end)
    {
      hide Receive.Visit, Receive.Walk, DelqaCsr.UpdateCsr, ReadOk, WordsAt;
      end := Receive.Walk(RxEnv(), RxState(), rbdlBa, 0);
      if RL in csr { return; }
      log := [];
      var startBa, dcount := rbdlBa, 0;
      var riPending, rlReached := false, false;
      ghost var env := RxEnv();
      ghost var c := Ctrl();
      end := Receive.Walk(env, RxState(), startBa, 0);
      while true
        invariant QueueOk(queue) && dcount <= MAX_DESCRIPTORS + 1
        invariant RxEnv() == env && Ctrl() == c
        invariant end == Receive.Walk(env, RxState(), startBa, dcount)
        invariant riPending == (log != []) && !rlReached
        decreases MAX_DESCRIPTORS + 1 - dcount
      {
        Receive.WalkTurn(env, RxState(), startBa, dcount);
        var ok, bd := bus.ReadWords(rbdlBa, 2);
        if !ok {
          NxmError();
          return;
        }
        if dcount > 0 && rbdlBa == startBa { break; }
        if dcount > MAX_DESCRIPTORS {
          rlReached := true;
          break;
        }
        dcount := dcount + 1;
        Receive.VisitLogs(env, RxState());
        var outcome, lost := VisitDescriptor(bd[1]);
        if outcome == Receive.Faults {
          NxmError();
          return;
        }
        if outcome == Receive.Listed {
          rlReached := true;
          break;
        }
        if outcome == Receive.Idles { break; }
        if !DscC(bd[1]) { riPending := true; }
      }
      if riPending || rlReached {
        UpdateCsr((if rlReached then {RL} else {}) + (if riPending then {RI} else {}), {});
      }
    }

    // --- transmit walk --------------------------------------------------------------------

    ghost function TxState(pendingXi: bool): Transmit.Tx
      reads this, bus, logic
    {
      Transmit.Tx(bus.mem, xbdlBa, writeBuffer, pendingXi, Ctrl(), queue, loss, logic.Table(), events)
    }

    /** The CSR update that reports a message, the end of the list, or both. */
    method ReportTransmit(pendingXi: bool, xi: bool, xl: bool)
      modifies this`csr, this`interruptAsserted, this`requested, this`events
      ensures TxState(false) == Transmit.Reported(old(TxState(pendingXi)), xi, xl)
      ensures Transmit.Reflects(events) == Transmit.Reflects(old(events))
    {
      Transmit.ReflectsNext(events, Transmit.Report(xi, xl));
      UpdateCsr((if xl then {XL} else {}) + (if xi then {XI} else {}), {});
      events := events + [Transmit.Report(xi, xl)];
    }

    /** `transmit_packet`: to the loopback connector, or to the host interface, which takes it or not. */
    method TransmitPacket(data: seq<Byte>, connector: bool, sent: bool) returns (ok: bool)
      modifies this`csr, this`interruptAsserted, this`requested, this`queue, this`loss, this`pendingDeliver
      ensures ok == (connector || sent)
      ensures Ctrl() == if connector then DelqaCsr.UpdateCsr(old(Ctrl()), {CA}, {}) else old(Ctrl())
      ensures (queue, loss) == if connector then Enqueue(old(queue), old(loss), Normal, Transmit.Padded(data))
                               else (old(queue), old(loss))
    {
      if connector {
        var frame := data;
        if |frame| < ETH_MIN_PACKET { frame := frame + seq(ETH_MIN_PACKET - |frame|, i => 0); }
        UpdateCsr({CA}, {});
        EnqueuePacket(Normal, frame);
        return true;
      }
      return sent;
    }

    /** End of message: disposes of the assembled packet. */
    method HandOn(flags: Word, connector: bool, sent: bool) returns (route: Transmit.Route)
      modifies this`csr, this`interruptAsserted, this`requested, this`queue, this`loss, this`pendingDeliver,
               this`events, logic
      ensures var was, env := old(TxState(false)), Transmit.TxEnv(connector, sent);
              && route == Transmit.RouteOf(env, was.ctrl, flags)
              && TxState(false) == Transmit.HandedOn(env, was, flags)
      ensures Transmit.Reflects(events) == (Transmit.Reflects(old(events)) || route.ToSetup? || route.Looped?)
      ensures logic.program == if DscS(flags) then KernelProgram(logic.Table()) else old(logic.program)
    {
      hide DelqaCsr.UpdateCsr, Enqueue, AfterSetup;
      var loopback := IL !in csr || EL in csr;
      var listReady := RL !in csr || EL in csr;
      if connector && IL in csr { UpdateCsr({CA}, {}); }
      if DscS(flags) {
        logic.ProcessSetup(writeBuffer);
        EnqueuePacket(Setup, writeBuffer);
        route := Transmit.ToSetup;
      } else if loopback {
        if listReady {
          EnqueuePacket(Loopback, writeBuffer);
          route := Transmit.Looped;
        } else {
          loss := loss + 1;
          route := Transmit.LoopLost;
        }
      } else {
        var ok := TransmitPacket(writeBuffer, connector, sent);
        route := Transmit.Wire(ok);
      }
      Transmit.ReflectsNext(events, Transmit.Message(writeBuffer, route));
      events := events + [Transmit.Message(writeBuffer, route)];
    }

    /** Disposes of the buffer just gathered and writes its status. */
    method FinishBuffer(flags: Word, connector: bool, sent: bool) returns (outcome: Transmit.TxOutcome, delivered: bool)
      modifies this`csr, this`interruptAsserted, this`requested, this`queue, this`loss, this`pendingDeliver,
               this`events, this`xbdlBa, this`writeBuffer, logic, bus
      ensures var pass := Transmit.Finish(Transmit.TxEnv(connector, sent), old(TxState(false)), flags);
              && outcome == Transmit.TxOutcomeOf(pass)
              && TxState(pass.tx.pendingXi) == pass.tx
              && (outcome == Transmit.Goes ==> pass.tx.pendingXi == DscE(flags))
      ensures Transmit.Reflects(events) == (Transmit.Reflects(old(events)) || delivered)
    {
      hide Transmit.HandedOn, Transmit.RouteOf, Written, ReadOk, Transmit.TxStatus;
      ghost var env, was := Transmit.TxEnv(connector, sent), TxState(false);
      Transmit.HandedOnEvents(env, was, flags);
      delivered := false;
      var st := [0xffff, 0xffff];
      if DscE(flags) {
        var route := HandOn(flags, connector, sent);
        delivered := route == Transmit.ToSetup || route == Transmit.Looped;
        st := Transmit.TxStatus(route, |writeBuffer|);
        Transmit.StatusTwoWords(route, |writeBuffer|);
      }
      var ok := bus.WriteWords(xbdlBa + 8, st);
      if !ok { return Transmit.Faults, delivered; }
      if DscE(flags) { writeBuffer := []; }
      xbdlBa := xbdlBa + 12;
      outcome := Transmit.Goes;
    }

    /** Gathers one buffer of the message under assembly. */
    method GatherBuffer(pendingXi: bool, flags: Word, low: Word, count: Word, connector: bool, sent: bool)
      returns (outcome: Transmit.TxOutcome, delivered: bool)
      modifies this`csr, this`interruptAsserted, this`requested, this`queue, this`loss, this`pendingDeliver,
               this`events, this`xbdlBa, this`writeBuffer, logic, bus
      ensures var pass := Transmit.Gather(Transmit.TxEnv(connector, sent), old(TxState(pendingXi)), flags, low, count);
              && outcome == Transmit.TxOutcomeOf(pass)
              && TxState(pass.tx.pendingXi) == pass.tx
              && (outcome == Transmit.Goes ==> pass.tx.pendingXi == DscE(flags))
      ensures Transmit.Reflects(events) == (Transmit.Reflects(old(events)) || delivered)
    {
      hide Transmit.Finish, Transmit.Reported, BytesAnswer;
      delivered := false;
      if pendingXi { ReportTransmit(pendingXi, true, false); }
      var address, len := BufferAddress(flags, low), BufferLength(flags, count);
      var ok, bytes := SplitRead(bus, address, len);
      if !ok { return Transmit.Faults, delivered; }
      writeBuffer := writeBuffer + bytes;
      Transmit.ReflectsNext(events, Transmit.Buffer(bytes));
      events := events + [Transmit.Buffer(bytes)];
      outcome, delivered := FinishBuffer(flags, connector, sent);
    }

    /** Acts on the descriptor at `xbdlBa`. */
    method VisitTransmit(pendingXi: bool, connector: bool, sent: bool)
      returns (outcome: Transmit.TxOutcome, pending: bool, delivered: bool)
      modifies this`csr, this`interruptAsserted, this`requested, this`queue, this`loss, this`pendingDeliver,
               this`events, this`xbdlBa, this`writeBuffer, logic, bus
      ensures var pass := Transmit.TxVisit(Transmit.TxEnv(connector, sent), old(TxState(pendingXi)));
              && outcome == Transmit.TxOutcomeOf(pass)
              && TxState(pass.tx.pendingXi) == pass.tx
              && (outcome == Transmit.Goes ==> pending == pass.tx.pendingXi)
      ensures Transmit.Reflects(events) == (Transmit.Reflects(old(events)) || delivered)
    {
      hide Transmit.Gather, Transmit.Reported, Written;
      pending, delivered := pendingXi, false;
      var ok, bd := bus.ReadWords(xbdlBa, 6);
      if !ok { return Transmit.Faults, pending, delivered; }
      AllAnswerParts(bus.mem, xbdlBa / 2, 6, 1);
      MarkUsed(xbdlBa);
      if DscC(bd[1]) {
        xbdlBa := Address22(bd[1], bd[2]);
        return Transmit.Goes, pending, delivered;
      }
      if !DscV(bd[1]) {
        ReportTransmit(pendingXi, pendingXi, true);
        return Transmit.Ends, false, delivered;
      }
      Transmit.GatherNeverDone(Transmit.TxEnv(connector, sent), TxState(pendingXi));
      outcome, delivered := GatherBuffer(pendingXi, bd[1], bd[2], bd[3], connector, sent);
      pending := DscE(bd[1]);
    }

    /** The bus timeout report of a transmit walk. */
    method TransmitNxm(ghost pendingXi: bool)
      modifies this`csr, this`interruptAsserted, this`requested
      ensures var tx := old(TxState(pendingXi)); TxState(pendingXi) == tx.(ctrl := DelqaCsr.NxmError(tx.ctrl))
    {
      hide DelqaCsr.NxmError;
      NxmError();
    }

    method StartTransmit(ba: nat)
      modifies this`events, this`xbdlBa, this`writeBuffer
      ensures TxState(false) == old(TxState(false)).(ba := ba, buffer := [], events := [])
      ensures xbdlBa == ba && events == []
    {
      xbdlBa := ba;
      writeBuffer := [];
      events := [];
    }

    lemma TxStateIs(pendingXi: bool)
      ensures TxState(pendingXi).ba == xbdlBa && TxState(pendingXi).pendingXi == pendingXi
      ensures TxState(pendingXi).events == events
    {
    }

    /** The walk of `process_xbdl`, up to the hand-over of reflected packets to the receive list. */
    method WalkTransmitList(ba: nat, connector: bool, wire: nat -> bool)
      returns (delivered: bool, ghost end: Transmit.TxEnd)
      modifies this`csr, this`interruptAsserted, this`requested, this`queue, this`loss, this`pendingDeliver,
               this`events, this`xbdlBa, this`writeBuffer, logic, bus
      ensures end == Transmit.TxWalk(connector, wire,
                       old(TxState(false)).(ba := ba, buffer := [], events := []), ba, 0)
      ensures TxState(end.tx.pendingXi) == end.tx
      ensures rbdlBa == old(rbdlBa)
      ensures delivered == (end.stop != Transmit.Nxm && Transmit.Reflects(end.tx.events))
    {
      hide Transmit.TxVisit, Transmit.TxWalk, Transmit.Reported, Transmit.Reflects, TxState,
          DelqaCsr.NxmError;
      StartTransmit(ba);
      delivered := false;
      Transmit.NoReflects();
      var pendingXi, startBa, dcount := false, xbdlBa, 0;
      end := Transmit.TxWalk(connector, wire, TxState(false), startBa, 0);
      TxStateIs(false);
      while true
        invariant dcount <= MAX_DESCRIPTORS + 1
        invariant end == Transmit.TxWalk(connector, wire, TxState(pendingXi), startBa, dcount)
        invariant delivered == Transmit.Reflects(events)
        decreases MAX_DESCRIPTORS + 1 - dcount
      {
        Transmit.TxWalkTurn(connector, wire, TxState(pendingXi), startBa, dcount);
        TxStateIs(pendingXi);
        if dcount > 0 && (xbdlBa == startBa || dcount > MAX_DESCRIPTORS) {
          ReportTransmit(pendingXi, pendingXi, true);
          pendingXi := false;
          break;
        }
        var outcome, reflected;
        outcome, pendingXi, reflected := VisitTransmit(pendingXi, connector, wire(dcount));
        delivered := delivered || reflected;
        dcount := dcount + 1;
        if outcome == Transmit.Faults {
          TransmitNxm(end.tx.pendingXi);
          delivered := false;
          return;
        }
        if outcome == Transmit.Ends { break; }
      }
      TxStateIs(false);
      TxStateIs(end.tx.pendingXi);
    }

    /** Whether a finished transmit walk goes on into the receive list. */
    static predicate HandsOver(end: Transmit.TxEnd) {
      && end.stop != Transmit.Nxm && Transmit.Reflects(end.tx.events)
      && end.tx.queue != [] && RL !in end.tx.ctrl.csr
    }

    /** The receive walk that follows a transmit walk. */
    static function HandOver(end: Transmit.TxEnd, ba: nat): Receive.End
      requires QueueOk(end.tx.queue)
    {
      var env := Receive.Env(EL in end.tx.ctrl.csr, RE in end.tx.ctrl.csr, end.tx.filter);
      Receive.Walk(env, Receive.Rx(end.tx.mem, ba, end.tx.queue, end.tx.loss, []), ba, 0)
    }

    /** `process_xbdl`: walks the transmit list the host has armed, then hands reflected packets to the receive list. */
    method ProcessXbdl(xbdl0: Word, xbdl1: Word, connector: bool, wire: nat -> bool)
      returns (ghost end: Transmit.TxEnd)
      requires QueueGood(queue)
      modifies this`csr, this`interruptAsserted, this`requested, this`queue, this`loss, this`pendingDeliver,
               this`events, this`log, this`xbdlBa, this`rbdlBa, this`writeBuffer, logic, bus
      ensures var ba := Address22(xbdl1, xbdl0 / 2 * 2);
              end == Transmit.TxWalk(connector, wire, old(TxState(false)).(ba := ba, buffer := [], events := []), ba, 0)
      ensures events == end.tx.events && XL in csr && QueueGood(queue) && QueueGood(end.tx.queue)
      ensures !HandsOver(end) ==> TxState(end.tx.pendingXi) == end.tx && log == old(log) && rbdlBa == old(rbdlBa)
      ensures HandsOver(end) ==>
                var rx := HandOver(end, old(rbdlBa));
                RxState() == rx.rx && Ctrl() == AfterWalk(end.tx.ctrl, rx) && logic.Table() == end.tx.filter
    {
      hide Transmit.TxWalk, Receive.Walk, Normals, QueueOk, DelqaCsr.UpdateCsr;
      var ba := Address22(xbdl1, xbdl0 / 2 * 2);
      ghost var tx := TxState(false).(ba := ba, buffer := [], events := []);
      Transmit.TxWalkEnds(connector, wire, tx, ba, 0);
      Transmit.TxWalkKeepsGood(connector, wire, tx, ba, 0);
      var delivered;
      delivered, end := WalkTransmitList(ba, connector, wire);
      if delivered {
        if queue != [] && RL !in csr {
          Receive.WalkKeepsGood(RxEnv(), RxState().(log := []), rbdlBa, 0);
          AfterWalkKeeps(Ctrl(), Receive.Walk(RxEnv(), RxState().(log := []), rbdlBa, 0), XL);
          var rx := ProcessRbdl();
        }
      }
    }

    static lemma ReportRaises(c: DelqaCsr.Controller, end: Receive.End)
      ensures RI in AfterWalk(c, end).csr <==> RI in c.csr || (end.stop != Receive.TimedOut && end.rx.log != [])
    {
    }

    /** Exactly when a receive walk leaves RI standing: it stood before, or the walk delivered and every word it came
    to answered. */
    static lemma ReceiveInterrupt(c: DelqaCsr.Controller, env: Receive.Env, rx: Receive.Rx, start: nat)
      requires QueueOk(rx.queue)
      ensures var end := Receive.Walk(env, rx, start, 0);
              RI in AfterWalk(c, end).csr <==>
                RI in c.csr
                || (end.rx.log != [] && !DelqaFaults.Silent(env, DelqaFaults.LastPlace(env, rx, start, 0), start))
    {
      hide Receive.Walk, DelqaFaults.Silent, DelqaFaults.LastPlace, AfterWalk;
      ReportRaises(c, Receive.Walk(env, rx, start, 0));
      DelqaFaults.WalkTimesOut(env, rx, start, 0);
    }

    /** The CSR after a receive walk, every bit of it, and the request that goes with it: the four bits of a timeout;
    otherwise RI if it delivered, and RL if it came to an invalid descriptor or gave up on a list that does not end. */
    static lemma ReceiveReports(c: DelqaCsr.Controller, env: Receive.Env, rx: Receive.Rx, start: nat)
      requires QueueOk(rx.queue)
      ensures var end, r := Receive.Walk(env, rx, start, 0), AfterWalk(c, Receive.Walk(env, rx, start, 0));
              var idle := end.stop == Receive.ListEnded || end.stop == Receive.TooLong;
              && r.vector == c.vector
              && r.csr == c.csr + (if end.stop == Receive.TimedOut then {NI, XI, XL, RL}
                                   else (if idle then {RL} else {}) + (if end.rx.log != [] then {RI} else {}))
              && (Honest(c) && c.requested == Want(c) ==> r.requested == Want(r))
    {
      hide Receive.Walk, DelqaCsr.UpdateCsr, Want, Honest;
      var end := Receive.Walk(env, rx, start, 0);
      var rl := end.stop == Receive.ListEnded || end.stop == Receive.TooLong;
      SetDerives(c, {NI, XI, XL, RL});
      SetDerives(c, (if rl then {RL} else {}) + (if end.rx.log != [] then {RI} else {}));
      assert c.csr + {} == c.csr;
    }

    static lemma SetDerives(c: DelqaCsr.Controller, setBits: Csr)
      ensures var u := DelqaCsr.UpdateCsr(c, setBits, {});
              u.csr == c.csr + setBits && u.vector == c.vector && (Honest(c) ==> u.requested == Want(u))
    {
      if Honest(c) { UpdateDerivesLevel(c, setBits, {}); }
    }

    /** The exception happens: a walk delivers a frame, ends in a timeout, and raises no receive interrupt for it. */
    static lemma DeliveryUnreported(c: DelqaCsr.Controller, env: Receive.Env, n: nat)
      requires RI !in c.csr && n == 0
      ensures var end := Receive.Walk(env, DelqaFaults.ListStart(true), 0, n);
              |end.rx.log| == 1 && RI !in AfterWalk(c, end).csr
    {
      hide Receive.Walk, DelqaFaults.ListStart;
      DelqaFaults.DeliveredThenTimeout(env, n);
      ReportRaises(c, Receive.Walk(env, DelqaFaults.ListStart(true), 0, n));
    }

    /** The report after a receive walk clears nothing. */
    static lemma AfterWalkKeeps(c: DelqaCsr.Controller, end: Receive.End, b: CsrBit)
      requires b in c.csr
      ensures b in AfterWalk(c, end).csr
    {
    }
  }

  lemma FirstWordAnswers(m: Memory, ba: nat)
    requires ReadOk(m, ba, 2)
    ensures ReadOk(m, ba, 1)
  {
    AllAnswerParts(m, ba / 2, 2, 1);
  }
}
