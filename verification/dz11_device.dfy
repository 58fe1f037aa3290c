/** The DZ11 device code: one method per lock-held section, each proved to be a
step of the state machine in `Dz11`. */
module Dz11Device {
  import opened Dz11

  class Device {
    const lines: nat
    var csr: Control
    var rcv: Receiver
    var per: PerLine
    var xmt: Transmitter
    var bus: BusSide

    function State(): Dz
      reads this
    {
      Dz(csr, rcv, per, xmt, bus)
    }

    predicate Shape()
      reads this
    {
      && |per.txEnabled| == |per.rxEnabled| == |per.parityEnable| == |per.oddParity| == lines
      && lines > 0 && csr.tline < lines
    }

    constructor (lines: nat)
      ensures this.lines == lines && State() == Initial(lines)
    {
      this.lines := lines;
      csr := Control(false, false, false, false, false, false, 0, false);
      rcv := Receiver([], 0, []);
      var off := AllOff(lines);
      per := PerLine(off, off, off, off, {});
      xmt := Transmitter(false, 0, 0);
      bus := BusSide(CsrView(false, false, false, false, 0, false, false, false, false), false, false, false, false);
    }

    // --- interrupt evaluation ---------------------------------------------------

    /** A receiver level: unchanged it leaves the request alone, rising it makes one, falling it withdraws it. */
    method IntrRcv(level: bool)
      modifies this`bus
      ensures bus == old(bus).(rcvLevel := level,
                               rcvRequest := AfterEdge(old(bus).rcvRequest, old(bus).rcvLevel, level))
    {
      if bus.rcvLevel != level { bus := bus.(rcvRequest := level); }
      bus := bus.(rcvLevel := level);
    }

    method IntrXmt(level: bool)
      modifies this`bus
      ensures bus == old(bus).(xmtLevel := level,
                               xmtRequest := AfterEdge(old(bus).xmtRequest, old(bus).xmtLevel, level))
    {
      if bus.xmtLevel != level { bus := bus.(xmtRequest := level); }
      bus := bus.(xmtLevel := level);
    }

    method UpdateCsrAndIntr()
      modifies this`bus
      ensures State() == Update(old(State()))
    {
      hide AfterEdge;
      bus := bus.(csrReg := CsrView(csr.trdy, csr.tie, csr.sa, csr.sae, csr.tline, rcv.silo != [], csr.rie,
          csr.mse, csr.maint));
      var level := csr.rie && rcv.silo != [];
      IntrRcv(level);
      IntrXmt(csr.tie && csr.trdy && !level);
    }

    method SetRbufDati()
      modifies this`rcv
      ensures rcv == old(rcv).(rbufReg := Front(old(rcv).silo))
    {
      rcv := rcv.(rbufReg := if rcv.silo == [] then [] else [rcv.silo[0]]);
    }

    method SiloPush(line: nat, ch: Byte, framing: bool, parity: bool)
      modifies this`rcv, this`csr
      ensures State() == Push(old(State()), line, ch, framing, parity)
    {
      hide Front;
      var overrun := |rcv.silo| >= SILO_SIZE;
      var kept := if overrun then rcv.silo[..|rcv.silo| - 1] else rcv.silo;
      rcv := rcv.(silo := kept + [Entry(line, ch, overrun, framing, parity)]);
      var count := rcv.alarm + 1;
      if count >= ALARM_COUNT {
        count := 0;
        if csr.sae { csr := csr.(sa := true); }
      }
      rcv := rcv.(alarm := count);
      SetRbufDati();
    }

    // --- transmit scanner ---------------------------------------------------------

    /** `select_next_tx_line`: moves TLINE to the next enabled line, if there is one. */
    method SelectNextTxLine() returns (found: bool)
      requires Shape()
      modifies this`csr
      ensures var i := Next(per.txEnabled, old(csr).tline);
              found == (i < lines) && csr == if found then old(csr).(tline := i) else old(csr)
    {
      var n: nat, t: nat := 0, csr.tline;
      while n < lines
        invariant 0 <= n <= lines && t < lines && csr == old(csr)
        invariant Next(per.txEnabled, old(csr).tline) == Find(per.txEnabled, t, lines - n)
      {
        t := Inc(t, lines);
        if per.txEnabled[t] {
          csr := csr.(tline := t);
          return true;
        }
        n := n + 1;
      }
      return false;
    }

    /** Withdraws TRDY. */
    method DropTrdy()
      modifies this`csr, this`bus
      ensures State() == Drop(old(State()))
    {
      hide Update;
      csr := csr.(trdy := false);
      UpdateCsrAndIntr();
    }

    /** Presents TRDY for the next enabled line, if there is one. */
    method PresentNext()
      requires Shape() && csr.mse && !csr.trdy && !xmt.tdrPending
      modifies this`csr, this`bus
      ensures State() == Choose(old(State()))
    {
      hide Update, Next;
      var found := SelectNextTxLine();
      if found {
        csr := csr.(trdy := true);
        UpdateCsrAndIntr();
      }
    }

    method ScanTxTrdy()
      requires Shape()
      modifies this`csr, this`bus
      ensures State() == Scan(old(State()))
    {
      hide Drop, Present, Next;
      DropFacts(State());
      if !csr.mse {
        if csr.trdy { DropTrdy(); }
        return;
      }
      if csr.trdy && !xmt.tdrPending && !per.txEnabled[csr.tline] { DropTrdy(); }
      if !csr.trdy && !xmt.tdrPending { PresentNext(); }
    }

    // --- register writes -------------------------------------------------------------

    method EmptySilo()
      modifies this`rcv, this`csr
      ensures State() == Emptied(old(State()))
    {
      rcv := rcv.(silo := [], alarm := 0);
      csr := csr.(sa := false);
      SetRbufDati();
    }

    /** Master clear: everything but the line parameters. */
    method MasterClear()
      requires Shape()
      modifies this`csr, this`rcv, this`per, this`xmt
      ensures State() == Cleared(old(State()))
    {
      hide AllOff, Emptied;
      csr := csr.(tie := false, sae := false, rie := false, maint := false, mse := false);
      csr := csr.(trdy := false, tline := 0);
      xmt := xmt.(tdrPending := false);
      per := per.(txEnabled := AllOff(lines), txBreak := {});
      EmptySilo();
    }

    method EvalCsrDato(v: CsrWrite)
      requires Shape()
      modifies this`csr, this`rcv, this`per, this`xmt
      ensures State() == EvalCsr(old(State()), v)
    {
      hide Cleared, Emptied;
      if v.clr {
        MasterClear();
        return;
      }
      csr := csr.(tie := v.tie, sae := v.sae, rie := v.rie, maint := v.maint);
      var wasMse := csr.mse;
      csr := csr.(mse := v.mse);
      if wasMse && !csr.mse { EmptySilo(); }
    }

    method EvalLprDato(line: nat, rxOn: bool, penable: bool, odd: bool)
      requires Shape()
      modifies this`per
      ensures State() == EvalLpr(old(State()), line, rxOn, penable, odd)
    {
      if line < lines {
        per := per.(rxEnabled := per.rxEnabled[line := rxOn]);
        per := per.(parityEnable := per.parityEnable[line := penable]);
        per := per.(oddParity := per.oddParity[line := odd]);
      }
    }

    /** Maintenance mode: the load wraps to the receive side of the same line. */
    method WrapTdr(ch: Byte, rising: set<nat>)
      requires Shape()
      modifies this`rcv, this`csr
      ensures State() == Wrapped(old(State()), ch, rising)
    {
      hide Push, WrapBreaks;
      if rising != {} {
        ReportBreaks(rising);
        return;
      }
      if per.rxEnabled[csr.tline] { SiloPush(csr.tline, ch, false, false); }
      csr := csr.(trdy := false);
    }

    method EvalTdrDato(ch: Byte, breaks: set<nat>)
      requires Shape()
      modifies this`rcv, this`csr, this`per, this`xmt
      ensures State() == EvalTdr(old(State()), ch, breaks)
    {
      hide Wrapped;
      var rising := breaks - per.txBreak;
      per := per.(txBreak := breaks);
      if csr.maint {
        WrapTdr(ch, rising);
        return;
      }
      xmt := Transmitter(true, csr.tline, ch);
      csr := csr.(trdy := false);
    }

    /** Reports a break on each line just put into break whose receiver is on. */
    method ReportBreaks(rising: set<nat>)
      requires Shape()
      modifies this`rcv, this`csr
      ensures State() == WrapBreaks(old(State()), rising, 0)
    {
      hide Push;
      var i := 0;
      ghost var goal := WrapBreaks(State(), rising, 0);
      PushedAny();
      while i < lines
        invariant 0 <= i <= lines && Shape()
        invariant goal == WrapBreaks(State(), rising, i)
      {
        if i in rising && per.rxEnabled[i] {
          var parity := per.parityEnable[i] && per.oddParity[i];
          SiloPush(i, 0, true, parity);
        }
        i := i + 1;
      }
    }

    // --- the lock-held sections --------------------------------------------------------

    method CsrDato(v: CsrWrite)
      requires Shape()
      modifies this
      ensures State() == Step(old(State()), WriteCsr(v))
    {
      hide Update, Scan, EvalCsr;
      ghost var s := State();
      EvalCsrDato(v);
      EvalCsrShape(s, v);
      ScanTxTrdy();
      UpdateCsrAndIntr();
    }

    method LprDato(line: nat, rxOn: bool, penable: bool, odd: bool)
      requires Shape()
      modifies this
      ensures State() == Step(old(State()), WriteLpr(line, rxOn, penable, odd))
    {
      EvalLprDato(line, rxOn, penable, odd);
    }

    method RbufDati()
      modifies this
      ensures State() == Step(old(State()), ReadRbuf)
    {
      hide Update, Front;
      if rcv.silo != [] { rcv := rcv.(silo := rcv.silo[1..]); }
      csr := csr.(sa := false);
      rcv := rcv.(alarm := 0);
      SetRbufDati();
      UpdateCsrAndIntr();
    }

    method TcrDato(enabled: seq<bool>)
      requires Shape() && |enabled| == lines
      modifies this
      ensures State() == Step(old(State()), WriteTcr(enabled))
    {
      hide Scan;
      var i := 0;
      var bits := per.txEnabled;
      while i < lines
        invariant 0 <= i <= lines && |bits| == lines
        invariant bits[..i] == enabled[..i]
      {
        bits := bits[i := enabled[i]];
        i := i + 1;
      }
      assert bits == bits[..i] == enabled[..i] == enabled;
      per := per.(txEnabled := bits);
      ScanTxTrdy();
    }

    method TdrDato(ch: Byte, breaks: set<nat>)
      requires Shape()
      modifies this
      ensures State() == Step(old(State()), WriteTdr(ch, breaks))
    {
      hide Update, Scan, EvalTdr;
      ghost var s := State();
      EvalTdrDato(ch, breaks);
      EvalTdrShape(s, ch, breaks);
      ScanTxTrdy();
      UpdateCsrAndIntr();
    }

    /** One turn of the transmit worker; a character taken goes to its line once the lock is released. */
    method WorkerXmtTurn() returns (sent: seq<Char>)
      requires Shape()
      modifies this
      ensures State() == Step(old(State()), XmtTurn)
      ensures sent == Taken(old(State()), XmtTurn)
    {
      hide Update, Scan;
      ScanKeeps(State());
      ScanTxTrdy();
      sent := [];
      if xmt.tdrPending {
        sent := [Char(xmt.tdrLine, xmt.tdrChar)];
        xmt := xmt.(tdrPending := false);
        csr := csr.(trdy := false);
        UpdateCsrAndIntr();
      }
    }

    /** The receive worker hands in a character of a line. */
    method WorkerReceive(line: nat, ch: Byte)
      requires Shape() && line < lines
      modifies this
      ensures State() == Step(old(State()), Receive(line, ch))
    {
      hide Update, Push;
      SiloPush(line, ch, false, false);
      UpdateCsrAndIntr();
    }

    /** Bus INIT or power: the adapter has emptied its request tables, the device clears itself. */
    method ResetDevice()
      requires Shape()
      modifies this
      ensures State() == Step(old(State()), BusReset)
    {
      hide Update, AllOff;
      MasterClear();
      var off := AllOff(lines);
      per := per.(rxEnabled := off, parityEnable := off, oddParity := off);
      bus := bus.(rcvLevel := false, xmtLevel := false, rcvRequest := false, xmtRequest := false);
      UpdateCsrAndIntr();
    }
  }

  lemma PushedAny()
    ensures forall s, line, ch, framing, parity ::
              && Push(s, line, ch, framing, parity).per == s.per
              && Push(s, line, ch, framing, parity).csr.tline == s.csr.tline
  {
  }

  lemma EvalCsrShape(s: Dz, v: CsrWrite)
    ensures var r := EvalCsr(s, v);
            && |r.per.txEnabled| == |s.per.txEnabled|
            && r.per == s.per.(txEnabled := r.per.txEnabled, txBreak := r.per.txBreak)
            && (r.csr.tline == s.csr.tline || r.csr.tline == 0)
  {
    hide AllOff;
  }

  lemma EvalTdrShape(s: Dz, ch: Byte, breaks: set<nat>)
    ensures var r := EvalTdr(s, ch, breaks); r.per == s.per.(txBreak := breaks) && r.csr.tline == s.csr.tline
  {
    hide Push, WrapBreaks;
    PushedAny();
    WrapShape(s.(per := s.per.(txBreak := breaks)), breaks - s.per.txBreak, 0);
  }

  lemma {:induction false} WrapShape(s: Dz, rising: set<nat>, i: nat)
    ensures var r := WrapBreaks(s, rising, i); r.per == s.per && r.csr.tline == s.csr.tline
    decreases |s.per.rxEnabled| - i
  {
    hide Push;
    PushedAny();
    if i < |s.per.rxEnabled| {
      if i in rising && s.per.rxEnabled[i] {
        WrapShape(Push(s, i, 0, true, IsOn(s.per.parityEnable, i) && IsOn(s.per.oddParity, i)), rising, i + 1);
      } else {
        WrapShape(s, rising, i + 1);
      }
    }
  }
}
