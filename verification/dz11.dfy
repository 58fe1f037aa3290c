/** The DZ11 family multiplexer as a state machine over its lock-held sections.

The bus callback, the transmit worker and the receive worker each touch the
state only while they hold one mutex, so every run of the device is some
sequence of the steps below, in any order.  The lemmas hold for all of them. */
module Dz11 {
  type Byte = b: int | 0 <= b < 0x100

  const SILO_SIZE := 64
  const ALARM_COUNT := 16

  /** A receive silo entry; data valid is set in every one. */
  datatype Entry = Entry(line: nat, ch: Byte, overrun: bool, framing: bool, parity: bool)

  /** The CSR as the bus reads it. */
  datatype CsrView = CsrView(trdy: bool, tie: bool, sa: bool, sae: bool, tline: nat, rdone: bool,
                             rie: bool, mse: bool, maint: bool)

  /** CSR bits. */
  datatype Control = Control(tie: bool, sae: bool, sa: bool, rie: bool, mse: bool, maint: bool, tline: nat, trdy: bool)

  /** The receive silo, its alarm counter, and RBUF as it reads. */
  datatype Receiver = Receiver(silo: seq<Entry>, alarm: nat, rbufReg: seq<Entry>)

  /** Per-line state; the sequences are indexed by line. */
  datatype PerLine = PerLine(txEnabled: seq<bool>, rxEnabled: seq<bool>, parityEnable: seq<bool>, oddParity: seq<bool>,
                             txBreak: set<nat>)

  /** The character loaded and not yet taken. */
  datatype Transmitter = Transmitter(tdrPending: bool, tdrLine: nat, tdrChar: Byte)

  /** The CSR as it reads, the edge detectors, and the requests outstanding at the bus adapter. */
  datatype BusSide = BusSide(csrReg: CsrView, rcvLevel: bool, xmtLevel: bool, rcvRequest: bool, xmtRequest: bool)

  datatype Dz = Dz(csr: Control, rcv: Receiver, per: PerLine, xmt: Transmitter, bus: BusSide)

  /** A per-line flag cleared on every line. */
  function AllOff(n: nat): (r: seq<bool>)
    ensures |r| == n && forall i :: 0 <= i < n ==> !r[i]
  {
    seq(n, i => false)
  }

  // --- registers and interrupts ----------------------------------------------

  function View(s: Dz): CsrView {
    CsrView(s.csr.trdy, s.csr.tie, s.csr.sa, s.csr.sae, s.csr.tline, s.rcv.silo != [], s.csr.rie, s.csr.mse,
            s.csr.maint)
  }

  predicate RcvCondition(s: Dz) { s.csr.rie && s.rcv.silo != [] }

  predicate XmtCondition(s: Dz) { s.csr.tie && s.csr.trdy }

  /** A request after an edge of its level: raised, withdrawn, or left alone. */
  predicate AfterEdge(request: bool, was: bool, level: bool) {
    if was == level then request else level
  }

  /** New levels, and the requests their edges leave. */
  function Levels(b: BusSide, rcv: bool, xmt: bool): BusSide {
    b.(rcvLevel := rcv, xmtLevel := xmt,
       rcvRequest := AfterEdge(b.rcvRequest, b.rcvLevel, rcv), xmtRequest := AfterEdge(b.xmtRequest, b.xmtLevel, xmt))
  }

  /** `update_csr_and_INTR`: the receiver condition holds the transmitter interrupt off. */
  function Update(s: Dz): Dz {
    var rcv := RcvCondition(s);
    s.(bus := Levels(s.bus.(csrReg := View(s)), rcv, XmtCondition(s) && !rcv))
  }

  function Front(silo: seq<Entry>): seq<Entry> { if silo == [] then [] else silo[..1] }

  /** `silo_push`: a full silo gives up its newest entry for one marked overrun. */
  function Push(s: Dz, line: nat, ch: Byte, framing: bool, parity: bool): Dz {
    var full := |s.rcv.silo| >= SILO_SIZE;
    var kept := if full then s.rcv.silo[..|s.rcv.silo| - 1] else s.rcv.silo;
    var silo := kept + [Entry(line, ch, full, framing, parity)];
    var alarmed := s.rcv.alarm + 1 >= ALARM_COUNT;
    s.(rcv := Receiver(silo, if alarmed then 0 else s.rcv.alarm + 1, Front(silo)),
       csr := s.csr.(sa := s.csr.sa || (alarmed && s.csr.sae)))
  }

  // --- the transmit scanner -----------------------------------------------------

  /** The line after `t`, cyclically. */
  function Inc(t: nat, n: nat): nat { if t + 1 >= n then 0 else t + 1 }

  /** The first enabled line after `t` among the next `d`, or the number of lines if there is none. */
  function Find(enabled: seq<bool>, t: nat, d: nat): nat
    decreases d
  {
    var i := Inc(t, |enabled|);
    if d == 0 || i >= |enabled| then |enabled|
    else if enabled[i] then i
    else Find(enabled, i, d - 1)
  }

  function Next(enabled: seq<bool>, t: nat): nat { Find(enabled, t, |enabled|) }

  predicate AnyEnabled(enabled: seq<bool>) { exists i :: 0 <= i < |enabled| && enabled[i] }

  function Drop(s: Dz): Dz { Update(s.(csr := s.csr.(trdy := false))) }

  function Present(s: Dz, i: nat): Dz { Update(s.(csr := s.csr.(tline := i, trdy := true))) }

  predicate IsOn(flags: seq<bool>, line: nat) { line < |flags| && flags[line] }

  /** TRDY stands although the scanner is off, or for a line disabled without a character loaded. */
  predicate Stale(s: Dz) {
    s.csr.trdy && (!s.csr.mse || (!s.xmt.tdrPending && !IsOn(s.per.txEnabled, s.csr.tline)))
  }

  function Settle(s: Dz): Dz { if Stale(s) then Drop(s) else s }

  function Choose(s: Dz): Dz {
    var i := Next(s.per.txEnabled, s.csr.tline);
    if s.csr.mse && !s.csr.trdy && !s.xmt.tdrPending && i < |s.per.txEnabled| then Present(s, i) else s
  }

  /** `scan_tx_trdy`: drops a TRDY that no longer stands, then presents it for the next ready line. */
  function Scan(s: Dz): Dz { Choose(Settle(s)) }

  // --- register writes --------------------------------------------------------------

  /** A CSR word as a program writes it. */
  datatype CsrWrite = CsrWrite(clr: bool, tie: bool, sae: bool, rie: bool, mse: bool, maint: bool)

  /** Every control bit but SA off, the scanner at line 0. */
  function ControlOff(c: Control): Control { Control(false, false, c.sa, false, false, false, 0, false) }

  function Emptied(s: Dz): Dz { s.(rcv := Receiver([], 0, []), csr := s.csr.(sa := false)) }

  /** Master clear: everything but the line parameters. */
  function Cleared(s: Dz): Dz {
    Emptied(s.(csr := ControlOff(s.csr), xmt := s.xmt.(tdrPending := false),
               per := s.per.(txEnabled := AllOff(|s.per.txEnabled|), txBreak := {})))
  }

  function EvalCsr(s: Dz, v: CsrWrite): Dz {
    if v.clr then Cleared(s)
    else
      var s1 := s.(csr := s.csr.(tie := v.tie, sae := v.sae, rie := v.rie, maint := v.maint, mse := v.mse));
      if s.csr.mse && !v.mse then Emptied(s1) else s1
  }

  function EvalLpr(s: Dz, line: nat, rxOn: bool, penable: bool, odd: bool): Dz {
    if line < |s.per.rxEnabled| && line < |s.per.parityEnable| && line < |s.per.oddParity| then
      s.(per := s.per.(rxEnabled := s.per.rxEnabled[line := rxOn], parityEnable := s.per.parityEnable[line := penable],
                       oddParity := s.per.oddParity[line := odd]))
    else s
  }

  /** Maintenance wrap of breaks: each line in `rising` from `i` on receives a null with a framing error. */
  function WrapBreaks(s: Dz, rising: set<nat>, i: nat): Dz
    decreases |s.per.rxEnabled| - i
  {
    if i >= |s.per.rxEnabled| then s
    else if i in rising && s.per.rxEnabled[i] then
      WrapBreaks(Push(s, i, 0, true, IsOn(s.per.parityEnable, i) && IsOn(s.per.oddParity, i)), rising, i + 1)
    else WrapBreaks(s, rising, i + 1)
  }

  /** A load in maintenance mode comes straight back on the receive side of the same line. */
  function Wrapped(s: Dz, ch: Byte, rising: set<nat>): Dz {
    if rising != {} then WrapBreaks(s, rising, 0)
    else
      var s2 := if IsOn(s.per.rxEnabled, s.csr.tline) then Push(s, s.csr.tline, ch, false, false) else s;
      s2.(csr := s2.csr.(trdy := false))
  }

  function EvalTdr(s: Dz, ch: Byte, breaks: set<nat>): Dz {
    var s1 := s.(per := s.per.(txBreak := breaks));
    if s.csr.maint then Wrapped(s1, ch, breaks - s.per.txBreak)
    else s1.(xmt := s1.xmt.(tdrChar := ch, tdrLine := s.csr.tline, tdrPending := true), csr := s1.csr.(trdy := false))
  }

  /** The levels and requests a bus reset leaves: none. */
  function Silent(s: Dz): Dz {
    s.(bus := s.bus.(rcvLevel := false, xmtLevel := false, rcvRequest := false, xmtRequest := false))
  }

  function ParametersOff(s: Dz): Dz {
    var off := AllOff(|s.per.txEnabled|);
    s.(per := s.per.(rxEnabled := off, parityEnable := off, oddParity := off))
  }

  /** Bus reset: master clear, the line parameters and the interrupts as well. */
  function Reset(s: Dz): Dz {
    Update(Silent(ParametersOff(Cleared(s))))
  }

  // --- steps ----------------------------------------------------------------------------

  /** What can happen next: a register access, a worker's turn under the lock, the processor taking a request,
  or a bus reset (which also empties the adapter's request tables). */
  datatype Event =
    | WriteCsr(v: CsrWrite)
    | WriteLpr(line: nat, rxOn: bool, penable: bool, odd: bool)
    | ReadRbuf
    | WriteTcr(enabled: seq<bool>)
    | WriteTdr(ch: Byte, breaks: set<nat>)
    | XmtTurn
    | Receive(rline: nat, rch: Byte)
    | GrantRcv
    | GrantXmt
    | BusReset

  function OnCsrWrite(s: Dz, v: CsrWrite): Dz { Update(Scan(EvalCsr(s, v))) }

  function OnRbufRead(s: Dz): Dz {
    var silo := if s.rcv.silo == [] then [] else s.rcv.silo[1..];
    Update(s.(rcv := s.rcv.(silo := silo, alarm := 0, rbufReg := Front(silo)), csr := s.csr.(sa := false)))
  }

  function OnTcrWrite(s: Dz, enabled: seq<bool>): Dz {
    if |enabled| == |s.per.txEnabled| then Scan(s.(per := s.per.(txEnabled := enabled))) else s
  }

  function OnTdrWrite(s: Dz, ch: Byte, breaks: set<nat>): Dz { Update(Scan(EvalTdr(s, ch, breaks))) }

  /** One turn of the transmit worker: scan, then take the character if there is one. */
  function OnXmtTurn(s: Dz): Dz {
    var r := Scan(s);
    if r.xmt.tdrPending then Update(r.(xmt := r.xmt.(tdrPending := false), csr := r.csr.(trdy := false))) else r
  }

  function OnReceive(s: Dz, line: nat, ch: Byte): Dz {
    if line < |s.per.txEnabled| then Update(Push(s, line, ch, false, false)) else s
  }

  function Step(s: Dz, e: Event): Dz {
    match e
    case WriteCsr(v) => OnCsrWrite(s, v)
    case WriteLpr(line, rxOn, penable, odd) => EvalLpr(s, line, rxOn, penable, odd)
    case ReadRbuf => OnRbufRead(s)
    case WriteTcr(enabled) => OnTcrWrite(s, enabled)
    case WriteTdr(ch, breaks) => OnTdrWrite(s, ch, breaks)
    case XmtTurn => OnXmtTurn(s)
    case Receive(line, ch) => OnReceive(s, line, ch)
    case GrantRcv => s.(bus := s.bus.(rcvRequest := false))
    case GrantXmt => s.(bus := s.bus.(xmtRequest := false))
    case BusReset => Reset(s)
  }

  /** The device at power-up, with `n` lines. */
  function Initial(n: nat): Dz {
    var off := AllOff(n);
    Dz(Control(false, false, false, false, false, false, 0, false), Receiver([], 0, []),
       PerLine(off, off, off, off, {}), Transmitter(false, 0, 0),
       BusSide(CsrView(false, false, false, false, 0, false, false, false, false), false, false, false, false))
  }

  /** A character for a line. */
  datatype Char = Char(line: nat, ch: Byte)

  /** The character waiting to be sent. */
  function InFlight(s: Dz): seq<Char> {
    if s.xmt.tdrPending then [Char(s.xmt.tdrLine, s.xmt.tdrChar)] else []
  }

  // --- invariants ------------------------------------------------------------------------

  /** TRDY only for a running scanner, an enabled line and an empty transmit buffer. */
  predicate TrdyOk(s: Dz) {
    s.csr.trdy ==> s.csr.mse && !s.xmt.tdrPending && s.csr.tline < |s.per.txEnabled| && s.per.txEnabled[s.csr.tline]
  }

  /** Registers read what the state is; levels are the conditions; requests have their level behind them. */
  predicate RegistersOk(s: Dz) {
    && s.bus.csrReg == View(s) && s.rcv.rbufReg == Front(s.rcv.silo)
    && s.bus.rcvLevel == RcvCondition(s) && s.bus.xmtLevel == (XmtCondition(s) && !RcvCondition(s))
  }

  predicate RequestsOk(s: Dz) {
    (s.bus.rcvRequest ==> s.bus.rcvLevel) && (s.bus.xmtRequest ==> s.bus.xmtLevel)
  }

  predicate ShapeOk(s: Dz) {
    && |s.per.txEnabled| == |s.per.rxEnabled| == |s.per.parityEnable| == |s.per.oddParity|
    && |s.rcv.silo| <= SILO_SIZE && s.rcv.alarm < ALARM_COUNT
    && (|s.per.txEnabled| > 0 ==> s.csr.tline < |s.per.txEnabled|)
    && (s.xmt.tdrPending ==> |s.per.txEnabled| > 0 ==> s.xmt.tdrLine < |s.per.txEnabled|)
  }

  predicate Ok(s: Dz) {
    ShapeOk(s) && TrdyOk(s) && RegistersOk(s) && RequestsOk(s)
  }

  lemma FindFacts(enabled: seq<bool>, t: nat, d: nat)
    ensures var i := Find(enabled, t, d); i <= |enabled| && (i < |enabled| ==> enabled[i])
    decreases d
  {
  }

  /** How far after `t` line `x` comes round: 1 for the next line, all of them for `t` itself. */
  function Distance(t: nat, x: nat, n: nat): int { if x > t then x - t else x - t + n }

  /** An enabled line within reach is found. */
  lemma FindFinds(enabled: seq<bool>, t: nat, d: nat, x: nat)
    requires t < |enabled| && x < |enabled| && enabled[x] && Distance(t, x, |enabled|) <= d
    ensures Find(enabled, t, d) < |enabled|
    decreases d
  {
    var i := Inc(t, |enabled|);
    if x != i { FindFinds(enabled, i, d - 1, x); }
  }

  lemma NextExists(enabled: seq<bool>, t: nat)
    requires t < |enabled|
    ensures Next(enabled, t) < |enabled| <==> AnyEnabled(enabled)
  {
    FindFacts(enabled, t, |enabled|);
    if AnyEnabled(enabled) {
      var x :| 0 <= x < |enabled| && enabled[x];
      FindFinds(enabled, t, |enabled|, x);
    }
  }

  /** What the parts of a step must leave behind for the closing update to restore the invariants. */
  predicate Ready(s: Dz, n: nat) {
    ShapeOk(s) && s.rcv.rbufReg == Front(s.rcv.silo) && RequestsOk(s) && |s.per.txEnabled| == n
  }

  /** The fields an update leaves alone. */
  predicate SameCore(s: Dz, r: Dz) {
    r == s.(bus := r.bus)
  }

  lemma UpdateReady(s: Dz, n: nat)
    requires Ready(s, n)
    ensures Ready(Update(s), n) && RegistersOk(Update(s)) && SameCore(s, Update(s))
  {
  }

  lemma UpdateOk(s: Dz, n: nat)
    requires Ready(s, n) && TrdyOk(s)
    ensures Ok(Update(s)) && |Update(s).per.txEnabled| == n
  {
    hide Update, View, Front;
    UpdateReady(s, n);
  }

  /** After every scan TRDY stands exactly when the scanner is on, nothing is waiting to be sent and some line
  is enabled. */
  lemma ScanDecides(s: Dz)
    requires ShapeOk(s) && |s.per.txEnabled| > 0 && (s.csr.trdy ==> !s.xmt.tdrPending)
    ensures var r := Scan(s);
            && (r.csr.trdy <==> s.csr.mse && !s.xmt.tdrPending && AnyEnabled(s.per.txEnabled))
            && TrdyOk(r) && r.xmt.tdrPending == s.xmt.tdrPending && r.rcv.silo == s.rcv.silo
  {
    hide Drop, Present, Next;
    DropFacts(s);
    NextExists(s.per.txEnabled, s.csr.tline);
    NextBounds(s.per.txEnabled, s.csr.tline);
    PresentFacts(Settle(s), Next(s.per.txEnabled, s.csr.tline));
  }

  lemma DropReady(s: Dz, n: nat)
    requires Ready(s, n)
    ensures Ready(Drop(s), n) && RegistersOk(Drop(s)) && SameCore(s.(csr := s.csr.(trdy := false)), Drop(s))
  {
    hide Update, View, Front;
    UpdateReady(s.(csr := s.csr.(trdy := false)), n);
  }

  lemma PresentReady(s: Dz, n: nat, i: nat)
    requires Ready(s, n) && i < n
    ensures Ready(Present(s, i), n) && RegistersOk(Present(s, i))
    ensures SameCore(s.(csr := s.csr.(tline := i, trdy := true)), Present(s, i))
  {
    hide Update, View, Front;
    UpdateReady(s.(csr := s.csr.(tline := i, trdy := true)), n);
  }

  lemma SettleReady(s: Dz, n: nat)
    requires Ready(s, n) && (s.csr.trdy ==> !s.xmt.tdrPending)
    ensures var r := Settle(s);
            && Ready(r, n) && TrdyOk(r) && (RegistersOk(s) ==> RegistersOk(r))
            && (r.csr.trdy ==> !r.xmt.tdrPending)
  {
    hide Drop, RegistersOk, Front;
    DropReady(s, n);
  }

  lemma ChooseReady(s: Dz, n: nat)
    requires Ready(s, n) && TrdyOk(s)
    ensures var r := Choose(s); Ready(r, n) && TrdyOk(r) && (RegistersOk(s) ==> RegistersOk(r))
  {
    hide Present, RegistersOk, Front, Next;
    var i := Next(s.per.txEnabled, s.csr.tline);
    NextBounds(s.per.txEnabled, s.csr.tline);
    if i < n { PresentReady(s, n, i); }
  }

  lemma ScanReady(s: Dz, n: nat)
    requires Ready(s, n) && (s.csr.trdy ==> !s.xmt.tdrPending)
    ensures Ready(Scan(s), n) && TrdyOk(Scan(s))
    ensures RegistersOk(s) ==> RegistersOk(Scan(s))
  {
    hide Settle, Choose, Ready, RegistersOk, TrdyOk;
    SettleReady(s, n);
    ChooseReady(Settle(s), n);
  }

  lemma NextBounds(enabled: seq<bool>, t: nat)
    ensures Next(enabled, t) <= |enabled| && (Next(enabled, t) < |enabled| ==> enabled[Next(enabled, t)])
  {
    FindFacts(enabled, t, |enabled|);
  }

  /** What `Push` keeps, and what it leaves alone. */
  predicate Pushed(s: Dz, r: Dz) {
    && ShapeOk(r) && r.rcv.rbufReg == Front(r.rcv.silo)
    && r == s.(rcv := r.rcv, csr := s.csr.(sa := r.csr.sa))
  }

  lemma PushKeeps(s: Dz, line: nat, ch: Byte, framing: bool, parity: bool)
    requires ShapeOk(s)
    ensures Pushed(s, Push(s, line, ch, framing, parity))
  {
  }

  lemma PushedTwice(s: Dz, r: Dz, t: Dz)
    requires Pushed(s, r) && Pushed(r, t)
    ensures Pushed(s, t)
  {
  }

  lemma {:induction false} WrapKeeps(s: Dz, rising: set<nat>, i: nat)
    requires ShapeOk(s) && s.rcv.rbufReg == Front(s.rcv.silo)
    ensures Pushed(s, WrapBreaks(s, rising, i))
    decreases |s.per.rxEnabled| - i
  {
    hide Push, Front, Pushed;
    PushedNothing(s);
    if i < |s.per.rxEnabled| {
      if i in rising && s.per.rxEnabled[i] {
        var parity := s.per.parityEnable[i] && s.per.oddParity[i];
        PushKeeps(s, i, 0, true, parity);
        var p := Push(s, i, 0, true, parity);
        PushedShape(s, p);
        WrapKeeps(p, rising, i + 1);
        PushedTwice(s, p, WrapBreaks(p, rising, i + 1));
      } else {
        WrapKeeps(s, rising, i + 1);
      }
    }
  }

  lemma PushedNothing(s: Dz)
    requires ShapeOk(s) && s.rcv.rbufReg == Front(s.rcv.silo)
    ensures Pushed(s, s)
  {
  }

  lemma PushedShape(s: Dz, r: Dz)
    requires Pushed(s, r)
    ensures ShapeOk(r) && r.rcv.rbufReg == Front(r.rcv.silo) && r.per.rxEnabled == s.per.rxEnabled
  {
  }

  lemma TdrReady(s: Dz, ch: Byte, breaks: set<nat>)
    requires Ok(s)
    ensures var r := EvalTdr(s, ch, breaks);
            && Ready(r, |s.per.txEnabled|) && (r.csr.trdy ==> !r.xmt.tdrPending)
            && InFlight(r) == if s.csr.maint then InFlight(s) else [Char(s.csr.tline, ch)]
  {
    hide Push, WrapBreaks, Front;
    var s1 := s.(per := s.per.(txBreak := breaks));
    WrapKeeps(s1, breaks - s.per.txBreak, 0);
    PushKeeps(s1, s.csr.tline, ch, false, false);
  }

  lemma CsrReady(s: Dz, v: CsrWrite)
    requires Ok(s)
    ensures var r := EvalCsr(s, v);
            && Ready(r, |s.per.txEnabled|) && (r.csr.trdy ==> !r.xmt.tdrPending)
            && InFlight(r) == if v.clr then [] else InFlight(s)
  {
  }

  lemma DropFacts(s: Dz)
    ensures SameCore(s.(csr := s.csr.(trdy := false)), Drop(s))
  {
  }

  lemma PresentFacts(s: Dz, i: nat)
    ensures SameCore(s.(csr := s.csr.(tline := i, trdy := true)), Present(s, i))
  {
  }

  lemma ScanKeeps(s: Dz)
    ensures InFlight(Scan(s)) == InFlight(s) && Scan(s).xmt.tdrPending == s.xmt.tdrPending
  {
    hide View, Front, Next;
  }

  lemma UpdateKeeps(s: Dz)
    ensures InFlight(Update(s)) == InFlight(s)
  {
  }

  lemma CsrWriteOk(s: Dz, v: CsrWrite)
    requires Ok(s)
    ensures var r := OnCsrWrite(s, v);
            Ok(r) && |r.per.txEnabled| == |s.per.txEnabled| && InFlight(r) == if v.clr then [] else InFlight(s)
  {
    hide EvalCsr, Scan, Update, InFlight, Ok;
    var e, n := EvalCsr(s, v), |s.per.txEnabled|;
    CsrReady(s, v);
    ScanReady(e, n);
    ScanKeeps(e);
    UpdateOk(Scan(e), n);
    UpdateKeeps(Scan(e));
  }

  lemma TdrWriteOk(s: Dz, ch: Byte, breaks: set<nat>)
    requires Ok(s)
    ensures var r := OnTdrWrite(s, ch, breaks);
            && Ok(r) && |r.per.txEnabled| == |s.per.txEnabled|
            && InFlight(r) == if s.csr.maint then InFlight(s) else [Char(s.csr.tline, ch)]
  {
    hide EvalTdr, Scan, Update, InFlight, Ok;
    var e, n := EvalTdr(s, ch, breaks), |s.per.txEnabled|;
    TdrReady(s, ch, breaks);
    ScanReady(e, n);
    ScanKeeps(e);
    UpdateOk(Scan(e), n);
    UpdateKeeps(Scan(e));
  }

  lemma TcrWriteOk(s: Dz, enabled: seq<bool>)
    requires Ok(s)
    ensures var r := OnTcrWrite(s, enabled);
            Ok(r) && |r.per.txEnabled| == |s.per.txEnabled| && InFlight(r) == InFlight(s)
  {
    hide Scan, Front;
    var e := s.(per := s.per.(txEnabled := enabled));
    if |enabled| == |s.per.txEnabled| {
      ScanReady(e, |enabled|);
      ScanKeeps(e);
    }
  }

  lemma XmtTurnOk(s: Dz)
    requires Ok(s)
    ensures var r := OnXmtTurn(s);
            && Ok(r) && |r.per.txEnabled| == |s.per.txEnabled| && !r.xmt.tdrPending
  {
    hide Scan, Update, Front;
    var n := |s.per.txEnabled|;
    ScanReady(s, n);
    ScanKeeps(s);
    var r := Scan(s);
    if r.xmt.tdrPending {
      var t := r.(xmt := r.xmt.(tdrPending := false), csr := r.csr.(trdy := false));
      assert Ready(t, n) && TrdyOk(t);
      UpdateOk(t, n);
      UpdateKeeps(t);
      assert InFlight(t) == [];
    }
  }

  lemma ReceiveOk(s: Dz, line: nat, ch: Byte)
    requires Ok(s)
    ensures var r := OnReceive(s, line, ch);
            Ok(r) && |r.per.txEnabled| == |s.per.txEnabled| && InFlight(r) == InFlight(s)
  {
    hide Push, Update, Front;
    PushKeeps(s, line, ch, false, false);
    var p := Push(s, line, ch, false, false);
    UpdateOk(p, |s.per.txEnabled|);
    UpdateKeeps(p);
  }

  lemma RbufReadOk(s: Dz)
    requires Ok(s)
    ensures var r := OnRbufRead(s);
            Ok(r) && |r.per.txEnabled| == |s.per.txEnabled| && InFlight(r) == InFlight(s)
  {
    hide Update;
    var silo := if s.rcv.silo == [] then [] else s.rcv.silo[1..];
    var t := s.(rcv := s.rcv.(silo := silo, alarm := 0, rbufReg := Front(silo)), csr := s.csr.(sa := false));
    UpdateOk(t, |s.per.txEnabled|);
    UpdateKeeps(t);
  }

  lemma LprWriteOk(s: Dz, line: nat, rxOn: bool, penable: bool, odd: bool)
    requires Ok(s)
    ensures var r := EvalLpr(s, line, rxOn, penable, odd);
            Ok(r) && |r.per.txEnabled| == |s.per.txEnabled| && InFlight(r) == InFlight(s)
  {
  }

  lemma ResetOk(s: Dz)
    ensures Ok(Reset(s)) && |Reset(s).per.txEnabled| == |s.per.txEnabled| && InFlight(Reset(s)) == []
  {
  }

  /** Every step of every thread keeps the invariants. */
  lemma StepKeepsOk(s: Dz, e: Event)
    requires Ok(s)
    ensures Ok(Step(s, e)) && |Step(s, e).per.txEnabled| == |s.per.txEnabled|
  {
    hide OnCsrWrite, EvalLpr, OnRbufRead, OnTcrWrite, OnTdrWrite, OnXmtTurn, OnReceive, Reset;
    match e
    case WriteCsr(v) => CsrWriteOk(s, v);
    case WriteLpr(line, rxOn, penable, odd) => LprWriteOk(s, line, rxOn, penable, odd);
    case ReadRbuf => RbufReadOk(s);
    case WriteTcr(enabled) => TcrWriteOk(s, enabled);
    case WriteTdr(ch, breaks) => TdrWriteOk(s, ch, breaks);
    case XmtTurn => XmtTurnOk(s);
    case Receive(line, ch) => ReceiveOk(s, line, ch);
    case GrantRcv =>
    case GrantXmt =>
    case BusReset => ResetOk(s);
  }

  // --- runs -------------------------------------------------------------------------------

  function Run(s: Dz, es: seq<Event>): Dz
    decreases |es|
  {
    if es == [] then s else Step(Run(s, es[..|es| - 1]), es[|es| - 1])
  }

  /** In every state any interleaving can reach: TRDY is only shown for a running scanner, an enabled line and an
  empty buffer, the registers read the state, the silo holds at most 64 entries, and the transmitter's request
  is never outstanding while the receiver condition stands. */
  lemma {:induction false} RunKeepsOk(n: nat, es: seq<Event>)
    ensures var s := Run(Initial(n), es);
            && Ok(s) && |s.per.txEnabled| == n
            && (RcvCondition(s) ==> !s.bus.xmtRequest)
  {
    hide Step;
    if es == [] {
    } else {
      RunKeepsOk(n, es[..|es| - 1]);
      StepKeepsOk(Run(Initial(n), es[..|es| - 1]), es[|es| - 1]);
    }
  }

  // --- transmit is exactly-once -----------------------------------------------------------

  /** The character a step hands to the transmit buffer, tagged with the TLINE the CSR shows. */
  function Loaded(s: Dz, e: Event): seq<Char> {
    if e.WriteTdr? && !s.bus.csrReg.maint then [Char(s.bus.csrReg.tline, e.ch)] else []
  }

  /** The character a step hands to the line. */
  function Taken(s: Dz, e: Event): seq<Char> {
    if e.XmtTurn? && s.xmt.tdrPending then [Char(s.xmt.tdrLine, s.xmt.tdrChar)] else []
  }

  /** The steps that throw a waiting character away: a load on top of it, master clear, bus reset. */
  predicate Discards(s: Dz, e: Event) {
    s.xmt.tdrPending && ((e.WriteTdr? && !s.bus.csrReg.maint) || (e.WriteCsr? && e.v.clr) || e.BusReset?)
  }

  /** A step conserves characters - what waited or was loaded is sent or still waits - if and only if it
  discards nothing. */
  lemma StepConserves(s: Dz, e: Event)
    requires Ok(s)
    ensures InFlight(s) + Loaded(s, e) == Taken(s, e) + InFlight(Step(s, e)) <==> !Discards(s, e)
  {
    StepFlight(s, e);
    hide Step, Ok;
    var before, loaded, taken, after := InFlight(s), Loaded(s, e), Taken(s, e), InFlight(Step(s, e));
    assert |before + loaded| == |before| + |loaded|;
    assert [] + after == after && before + [] == before && [] + loaded == loaded && taken + [] == taken;
  }

  /** What is in flight after a step. */
  lemma StepFlight(s: Dz, e: Event)
    requires Ok(s)
    ensures InFlight(Step(s, e))
         == if e.WriteTdr? && !s.bus.csrReg.maint then [Char(s.bus.csrReg.tline, e.ch)]
            else if (e.WriteCsr? && e.v.clr) || e.BusReset? || e.XmtTurn? then []
            else InFlight(s)
  {
    hide OnCsrWrite, EvalLpr, OnRbufRead, OnTcrWrite, OnTdrWrite, OnXmtTurn, OnReceive, Reset;
    match e
    case WriteCsr(v) => CsrWriteOk(s, v);
    case WriteLpr(line, rxOn, penable, odd) => LprWriteOk(s, line, rxOn, penable, odd);
    case ReadRbuf => RbufReadOk(s);
    case WriteTcr(enabled) => TcrWriteOk(s, enabled);
    case WriteTdr(ch, breaks) => TdrWriteOk(s, ch, breaks);
    case XmtTurn => XmtTurnOk(s);
    case Receive(line, ch) => ReceiveOk(s, line, ch);
    case GrantRcv =>
    case GrantXmt =>
    case BusReset => ResetOk(s);
  }

  function AllLoaded(s: Dz, es: seq<Event>): seq<Char>
    decreases |es|
  {
    if es == [] then [] else AllLoaded(s, es[..|es| - 1]) + Loaded(Run(s, es[..|es| - 1]), es[|es| - 1])
  }

  function AllTaken(s: Dz, es: seq<Event>): seq<Char>
    decreases |es|
  {
    if es == [] then [] else AllTaken(s, es[..|es| - 1]) + Taken(Run(s, es[..|es| - 1]), es[|es| - 1])
  }

  /** A host that loads TDR only while the CSR shows TRDY, and neither clears nor resets the device. */
  predicate PatientStep(s: Dz, e: Event) {
    && (e.WriteTdr? && !s.bus.csrReg.maint ==> s.bus.csrReg.trdy)
    && !(e.WriteCsr? && e.v.clr)
    && !e.BusReset?
  }

  predicate Patient(s: Dz, es: seq<Event>)
    decreases |es|
  {
    es == [] || (Patient(s, es[..|es| - 1]) && PatientStep(Run(s, es[..|es| - 1]), es[|es| - 1]))
  }

  /** Under every interleaving of a patient host with both workers, the characters the transmit worker has taken,
  then the one in flight, are exactly those loaded, in order, each for the line TLINE showed when it was loaded. */
  lemma {:induction false} ExactlyOnce(n: nat, es: seq<Event>)
    requires Patient(Initial(n), es)
    ensures AllLoaded(Initial(n), es) == AllTaken(Initial(n), es) + InFlight(Run(Initial(n), es))
  {
    hide Step, Ok;
    if es != [] {
      var before, e := es[..|es| - 1], es[|es| - 1];
      var s := Run(Initial(n), before);
      ExactlyOnce(n, before);
      RunKeepsOk(n, before);
      PatientNeverDiscards(s, e);
      StepConserves(s, e);
      var taken, flying := AllTaken(Initial(n), before), InFlight(s);
      assert taken + flying + Loaded(s, e) == taken + (flying + Loaded(s, e));
      assert taken + (Taken(s, e) + InFlight(Step(s, e))) == taken + Taken(s, e) + InFlight(Step(s, e));
    }
  }

  lemma PatientNeverDiscards(s: Dz, e: Event)
    requires Ok(s) && PatientStep(s, e)
    ensures !Discards(s, e)
  {
  }

  /** A host that loads twice without waiting for TRDY in between always loses a character, whatever else holds. */
  lemma ImpatientLoses(s: Dz, a: Byte, b: Byte)
    requires Ok(s) && !s.csr.maint
    ensures var s1 := Step(s, WriteTdr(a, s.per.txBreak));
            && Discards(s1, WriteTdr(b, s.per.txBreak))
            && InFlight(s1) + Loaded(s1, WriteTdr(b, s.per.txBreak))
               != Taken(s1, WriteTdr(b, s.per.txBreak)) + InFlight(Step(s1, WriteTdr(b, s.per.txBreak)))
  {
    hide Step;
    var e := WriteTdr(a, s.per.txBreak);
    StepKeepsOk(s, e);
    StepFlight(s, e);
    LoadKeepsMode(s, a);
    StepConserves(Step(s, e), WriteTdr(b, s.per.txBreak));
  }

  lemma LoadKeepsMode(s: Dz, a: Byte)
    requires Ok(s) && !s.csr.maint
    ensures !Step(s, WriteTdr(a, s.per.txBreak)).csr.maint && !Step(s, WriteTdr(a, s.per.txBreak)).bus.csrReg.maint
  {
    hide Next, Front;
  }

  // --- the scanner is fair ----------------------------------------------------------------------

  /** `k` successive selections from `t` on, with the enable bits fixed. */
  function Selections(enabled: seq<bool>, t: nat, k: nat): seq<nat>
    decreases k
  {
    if k == 0 then [] else [Next(enabled, t)] + Selections(enabled, Next(enabled, t), k - 1)
  }

  /** The enabled lines among the next `m` after `t`, in the order they come round. */
  function Window(enabled: seq<bool>, t: nat, m: nat): seq<nat>
    requires t < |enabled|
    decreases m
  {
    if m == 0 then []
    else
      var i := Inc(t, |enabled|);
      (if enabled[i] then [i] else []) + Window(enabled, i, m - 1)
  }

  predicate Distinct(xs: seq<nat>) {
    forall i, j :: 0 <= i < j < |xs| ==> xs[i] != xs[j]
  }

  /** A window holds exactly the enabled lines within its reach, each once. */
  lemma {:induction false} WindowHolds(enabled: seq<bool>, t: nat, m: nat, x: nat)
    requires t < |enabled| && m <= |enabled| && x < |enabled|
    ensures x in Window(enabled, t, m) <==> enabled[x] && Distance(t, x, |enabled|) <= m
    decreases m
  {
    if m > 0 { WindowHolds(enabled, Inc(t, |enabled|), m - 1, x); }
  }

  lemma {:induction false} WindowDistinct(enabled: seq<bool>, t: nat, m: nat)
    requires t < |enabled| && m <= |enabled|
    ensures Distinct(Window(enabled, t, m))
    ensures forall x :: x in Window(enabled, t, m) ==> x < |enabled| && enabled[x]
    decreases m
  {
    if m > 0 {
      var i := Inc(t, |enabled|);
      WindowDistinct(enabled, i, m - 1);
      WindowHolds(enabled, i, m - 1, i);
    }
  }

  /** Looking further changes nothing once something is found. */
  lemma {:induction false} FindStable(enabled: seq<bool>, t: nat, d: nat, d2: nat)
    requires Find(enabled, t, d) < |enabled| && d <= d2
    ensures Find(enabled, t, d2) == Find(enabled, t, d)
    decreases d
  {
    if d > 0 && !enabled[Inc(t, |enabled|)] { FindStable(enabled, Inc(t, |enabled|), d - 1, d2 - 1); }
  }

  /** The first line of a non-empty window is the one found. */
  lemma {:induction false} WindowFirst(enabled: seq<bool>, t: nat, m: nat)
    requires t < |enabled| && m <= |enabled| && Window(enabled, t, m) != []
    ensures Next(enabled, t) == Window(enabled, t, m)[0]
    decreases m
  {
    var i := Inc(t, |enabled|);
    FindIsWindow(enabled, t, m);
    FindStable(enabled, t, m, |enabled|);
  }

  lemma {:induction false} FindIsWindow(enabled: seq<bool>, t: nat, m: nat)
    requires t < |enabled| && Window(enabled, t, m) != []
    ensures Find(enabled, t, m) == Window(enabled, t, m)[0] && Window(enabled, t, m)[0] < |enabled|
    decreases m
  {
    if !enabled[Inc(t, |enabled|)] { FindIsWindow(enabled, Inc(t, |enabled|), m - 1); }
  }

  /** Selections run through the window in order. */
  lemma {:induction false} SelectionsAreWindow(enabled: seq<bool>, t: nat, m: nat, k: nat)
    requires t < |enabled| && m <= |enabled| && k <= |Window(enabled, t, m)|
    ensures Selections(enabled, t, k) == Window(enabled, t, m)[..k]
    decreases m
  {
    if k > 0 {
      var i, w := Inc(t, |enabled|), Window(enabled, t, m);
      WindowFirst(enabled, t, m);
      if enabled[i] {
        SelectionsAreWindow(enabled, i, m - 1, k - 1);
        assert w[..k] == [i] + Window(enabled, i, m - 1)[..k - 1];
      } else {
        SelectionsAreWindow(enabled, i, m - 1, k);
        assert w == Window(enabled, i, m - 1);
        WindowFirst(enabled, i, m - 1);
      }
    }
  }

  /** How many lines are enabled. */
  function Count(enabled: seq<bool>): nat {
    if enabled == [] then 0 else (if enabled[|enabled| - 1] then 1 else 0) + Count(enabled[..|enabled| - 1])
  }

  ghost function EnabledSet(enabled: seq<bool>): (r: set<nat>)
    ensures |r| == Count(enabled)
    ensures forall x: nat :: x in r <==> x < |enabled| && enabled[x]
  {
    if enabled == [] then {}
    else
      var k := |enabled| - 1;
      var r := EnabledSet(enabled[..k]);
      if enabled[k] then r + {k} else r
  }

  ghost function Members(xs: seq<nat>): (r: set<nat>)
    ensures forall x :: x in r <==> x in xs
    ensures Distinct(xs) ==> |r| == |xs|
  {
    if xs == [] then {}
    else
      var rest := xs[1..];
      assert Distinct(xs) ==> Distinct(rest) && xs[0] !in rest;
      Members(rest) + {xs[0]}
  }

  /** With the enable bits fixed, as many selections as there are enabled lines choose every one of them exactly
  once. */
  lemma ScannerFair(enabled: seq<bool>, t: nat)
    requires t < |enabled|
    ensures var picks := Selections(enabled, t, Count(enabled));
            && |picks| == Count(enabled) && Distinct(picks)
            && forall x: nat :: x in picks <==> x < |enabled| && enabled[x]
  {
    var n := |enabled|;
    var w := Window(enabled, t, n);
    WindowDistinct(enabled, t, n);
    forall x: nat | x < n && enabled[x] ensures x in w { WindowHolds(enabled, t, n, x); }
    assert Members(w) == EnabledSet(enabled);
    SelectionsAreWindow(enabled, t, n, |w|);
    assert w[..|w|] == w;
  }
}
