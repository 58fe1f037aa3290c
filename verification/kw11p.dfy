/** The KW11-P programmable clock.  The counter is not ticked: its value is computed from the time elapsed since
the run began.  Every access and every turn of the worker holds one mutex, so a run is a sequence of events. */
module Kw11p {
  import WordArithmetic

  type Word = w: int | 0 <= w < 0x1_0000

  const FULL := 0x1_0000

  /** The CSR as a program writes it and as it reads. */
  datatype CsrWrite = CsrWrite(run: bool, rate: nat, repeat: bool, up: bool, fix: bool, enable: bool)
  datatype CsrView = CsrView(run: bool, rate: nat, repeat: bool, up: bool, enable: bool, done: bool, error: bool)

  /** The clock's state; `start` is the count loaded when the run began, at time `since`; `frozen` is the count while
  stopped; `request` is the interrupt outstanding at the bus adapter. */
  datatype Clk = Clk(
    running: bool, rate: nat, repeat: bool, up: bool, enable: bool, done: bool, error: bool,
    buf: Word, start: Word, frozen: Word, since: int, pending: bool,
    csrReg: CsrView, ctrReg: Word, request: bool)

  /** The clock's period in nanoseconds, for a line frequency `f`; 0 for the external rate. */
  function Period(rate: nat, f: nat): nat {
    if rate == 0 then 10_000
    else if rate == 1 then 100_000
    else if rate == 2 then 1_000_000_000 / (if f != 0 then f else 60)
    else 0
  }

  /** Counts from a loaded value to the underflow or overflow. */
  function TicksToEvent(start: Word, up: bool): nat {
    if up then FULL - start else if start != 0 then start else FULL
  }

  function EventPeriod(s: Clk, f: nat): nat { TicksToEvent(s.start, s.up) * Period(s.rate, f) }

  /** The count `ticks` whole ticks after `start`, in closed form; the tick count is a 32-bit word. */
  function CountAfter(start: Word, up: bool, ticks: int): Word {
    var t := ticks % 0x1_0000_0000;
    if up then (start + t) % FULL else (start - t) % FULL
  }

  function WholeTicks(elapsed: int, period: nat): nat
    requires period > 0
  {
    if elapsed < 0 then 0 else elapsed / period
  }

  /** `current_counter`. */
  function Current(s: Clk, f: nat, now: int): Word {
    var period := Period(s.rate, f);
    if !s.running || period == 0 then s.frozen
    else CountAfter(s.start, s.up, WholeTicks(now - s.since, period))
  }

  function View(s: Clk): CsrView { CsrView(s.running, s.rate, s.repeat, s.up, s.enable, s.done, s.error) }

  function UpdateCsr(s: Clk): Clk { s.(csrReg := View(s)) }

  /** The interrupt if it is enabled, and the CSR either way. */
  function Signal(s: Clk): Clk {
    UpdateCsr(if s.enable then s.(pending := true, request := true) else s)
  }

  function Reloaded(s: Clk, now: int): Clk { s.(start := s.buf, frozen := s.buf, since := now, ctrReg := s.buf) }

  function Stopped(s: Clk): Clk { s.(running := false, buf := 0, start := 0, frozen := 0, ctrReg := 0) }

  /** `fire_event`, at clock reading `now`. */
  function Fire(s: Clk, now: int): Clk {
    var s1 := s.(error := s.error || (s.repeat && s.pending), done := true);
    Signal(if s.repeat then Reloaded(s1, now) else Stopped(s1))
  }

  function Tick(v: Word, up: bool): Word { if up then (v + 1) % FULL else (v - 1) % FULL }

  /** `single_step`: one count, with the event of a wrap. */
  function SingleStep(s: Clk): Clk {
    var event := if s.up then s.frozen == 0xFFFF else s.frozen == 0;
    var v := Tick(s.frozen, s.up);
    var s1 := s.(frozen := v, start := v, ctrReg := v);
    if event then Signal(s1.(done := true)) else UpdateCsr(s1)
  }

  function Configure(s: Clk, v: CsrWrite): Clk {
    s.(rate := v.rate, repeat := v.repeat, up := v.up, error := false, enable := v.enable)
  }

  /** RUN turned on loads the stopped count and clears DONE; turned off it freezes the count. */
  function StartStop(s: Clk, run: bool, f: nat, now: int): Clk {
    if run && !s.running then s.(done := false, pending := false, start := s.frozen, since := now, running := true)
    else if !run && s.running then
      var v := Current(s, f, now);
      s.(frozen := v, running := false, ctrReg := v)
    else s
  }

  function Disarm(s: Clk): Clk { if s.enable then s else s.(pending := false, request := false) }

  function OnCsrWrite(s: Clk, v: CsrWrite, f: nat, now: int): Clk {
    var s1 := StartStop(Configure(s, v), v.run, f, now);
    UpdateCsr(Disarm(if v.fix then SingleStep(s1) else s1))
  }

  function OnCsrRead(s: Clk): Clk { UpdateCsr(s.(error := false, pending := false)) }

  function OnBufWrite(s: Clk, v: Word, now: int): Clk {
    s.(buf := v, start := v, frozen := v, ctrReg := v, since := if s.running then now else s.since)
  }

  /** The worker finds the event due. */
  predicate Due(s: Clk, f: nat, now: int) {
    s.running && Period(s.rate, f) > 0 && now - s.since >= EventPeriod(s, f)
  }

  /** A turn of the worker, which reads the clock at `now` and again, to reload or to show the count, at `later`. */
  function OnWorker(s: Clk, f: nat, now: int, later: int): Clk {
    if Due(s, f, now) then Fire(s, later)
    else if s.running && Period(s.rate, f) > 0 then s.(ctrReg := Current(s, f, later))
    else s
  }

  function Reset(): Clk {
    Clk(false, 0, false, false, false, false, false, 0, 0, 0, 0, false,
        CsrView(false, 0, false, false, false, false, false), 0, false)
  }

  datatype Event =
    | CsrDato(v: CsrWrite, at: int)
    | CsrDati
    | BufDato(count: Word, bufAt: int)
    | Turn(now: int, later: int)
    | Grant
    | BusReset

  function Step(s: Clk, e: Event, f: nat): Clk {
    match e
    case CsrDato(v, at) => OnCsrWrite(s, v, f, at)
    case CsrDati => OnCsrRead(s)
    case BufDato(count, at) => OnBufWrite(s, count, at)
    case Turn(now, later) => OnWorker(s, f, now, later)
    case Grant => s.(request := false)
    case BusReset => Reset()
  }

  function Run(s: Clk, es: seq<Event>, f: nat): Clk
    decreases |es|
  {
    if es == [] then s else Step(Run(s, es[..|es| - 1], f), es[|es| - 1], f)
  }

  // --- the flag machine -----------------------------------------------------------

  /** An interrupt unserviced implies enable and DONE; ERROR also implies repeat mode; the CSR reads the state. */
  predicate FlagsOk(s: Clk) {
    && (s.pending ==> s.enable && s.done)
    && (s.error ==> s.repeat && s.pending)
    && (s.request ==> s.enable)
    && s.csrReg == View(s)
  }

  /** A second event before the first was serviced. */
  predicate Overrun(s: Clk, e: Event, f: nat) {
    e.Turn? && Due(s, f, e.now) && s.repeat && s.pending
  }

  /** Every event keeps the flag invariants; ERROR rises with an overrun and only then, and every CSR access
  clears it. */
  lemma StepFlags(s: Clk, e: Event, f: nat)
    requires FlagsOk(s)
    ensures var r := Step(s, e, f);
            && FlagsOk(r)
            && (!s.error ==> (r.error <==> Overrun(s, e, f)))
            && (e.CsrDato? || e.CsrDati? ==> !r.error)
  {
    hide OnCsrWrite, Fire, Current, Period, EventPeriod;
    match e
    case CsrDato(v, at) => CsrWriteFlags(s, v, f, at);
    case CsrDati =>
    case BufDato(count, at) =>
    case Turn(now, later) => FireFlags(s, later);
    case Grant =>
    case BusReset =>
  }

  /** An event of the clock: the worker finds it due, or a single step wraps the count. */
  predicate Fires(s: Clk, e: Event, f: nat) {
    match e
    case Turn(now, later) => Due(s, f, now)
    case CsrDato(v, at) =>
      v.fix && StartStop(Configure(s, v), v.run, f, at).frozen == (if v.up then 0xFFFF else 0)
    case _ => false
  }

  /** RUN turned on. */
  predicate Starts(s: Clk, e: Event) { e.CsrDato? && e.v.run && !s.running }

  /** DONE rises with every event and falls when RUN is turned on; an event makes the request if interrupts are enabled,
  and only a grant, a CSR write that disables them or a bus reset takes it away. */
  lemma StepSignals(s: Clk, e: Event, f: nat)
    requires FlagsOk(s)
    ensures var r := Step(s, e, f);
            && (r.done <==> Fires(s, e, f) || (s.done && !Starts(s, e) && !e.BusReset?))
            && (r.request <==> match e
                  case Turn(now, later) => s.request || (s.enable && Fires(s, e, f))
                  case CsrDato(v, at) => v.enable && (s.request || Fires(s, e, f))
                  case Grant => false
                  case BusReset => false
                  case _ => s.request)
  {
    hide OnCsrWrite, Fire, Current, Period, EventPeriod;
    match e
    case CsrDato(v, at) => CsrWriteSignals(s, v, f, at);
    case Turn(now, later) => FireSignals(s, later);
    case _ =>
  }

  lemma CsrWriteSignals(s: Clk, v: CsrWrite, f: nat, at: int)
    requires FlagsOk(s)
    ensures var r, fires := OnCsrWrite(s, v, f, at), Fires(s, CsrDato(v, at), f);
            && (r.done <==> fires || (s.done && !(v.run && !s.running)))
            && (r.request <==> v.enable && (s.request || fires))
  {
    hide Current, View;
    var c := Configure(s, v);
    var t := StartStop(c, v.run, f, at);
    assert t.up == v.up && t.enable == v.enable && t.request == s.request;
    assert t.done == (s.done && !(v.run && !s.running));
    StepRaises(t);
  }

  lemma StepRaises(s: Clk)
    ensures var r, wraps := SingleStep(s), s.frozen == (if s.up then 0xFFFF else 0);
            && r.done == (s.done || wraps) && r.request == (s.request || (s.enable && wraps)) && r.enable == s.enable
  {
    hide Tick, View;
  }

  /** An event of the running clock: in repeat mode it goes on from the buffer, otherwise it stops with all at zero. */
  lemma FireSignals(s: Clk, now: int)
    ensures var r := Fire(s, now);
            && r.done && r.request == (s.request || s.enable) && r.running == (s.repeat && s.running)
            && (s.repeat ==> r.start == r.frozen == r.buf == r.ctrReg == s.buf && r.since == now)
            && (!s.repeat ==> r.start == r.frozen == r.buf == r.ctrReg == 0)
  {
    hide View, Signal, Reloaded, Stopped;
    var s1 := s.(error := s.error || (s.repeat && s.pending), done := true);
    Refilled(s1, now);
    SignalIs(if s.repeat then Reloaded(s1, now) else Stopped(s1));
  }

  lemma SignalIs(s: Clk)
    ensures var r := Signal(s);
            r == s.(pending := s.pending || s.enable, request := s.request || s.enable, csrReg := r.csrReg)
  {
  }

  lemma Refilled(s: Clk, now: int)
    ensures Reloaded(s, now) == s.(start := s.buf, frozen := s.buf, ctrReg := s.buf, since := now)
    ensures Stopped(s) == s.(running := false, buf := 0, start := 0, frozen := 0, ctrReg := 0)
  {
  }

  /** What the rates come to, in ticks of a second: 100 kHz, 10 kHz and the line frequency, 60 Hz if none is set. */
  lemma RatesPerSecond()
    ensures WholeTicks(1_000_000_000, Period(0, 60)) == 100_000
    ensures WholeTicks(1_000_000_000, Period(1, 60)) == 10_000
    ensures WholeTicks(1_000_000_000, Period(2, 60)) == WholeTicks(1_000_000_000, Period(2, 0)) == 60
    ensures WholeTicks(1_000_000_000, Period(2, 50)) == 50
    ensures forall f: nat :: Period(3, f) == 0
  {
  }

  /** What a CSR write programs.  A clock turned on counts on from its stopped count, from that moment; one that goes on
  running keeps its run; a single step moves the count by one and is shown at once. */
  lemma CsrPrograms(s: Clk, v: CsrWrite, f: nat, at: int)
    ensures var r := OnCsrWrite(s, v, f, at);
            && r.running == v.run && r.rate == v.rate && r.repeat == v.repeat && r.up == v.up && r.enable == v.enable
            && r.buf == s.buf && !r.error
            && (v.run && !s.running ==> r.since == at)
            && (v.run && !s.running && !v.fix ==> r.start == r.frozen == s.frozen && r.ctrReg == s.ctrReg)
            && (v.run && s.running ==> r.since == s.since)
            && (v.run && s.running && !v.fix ==> r.start == s.start && r.frozen == s.frozen && r.ctrReg == s.ctrReg)
            && (v.fix && !(s.running && !v.run) ==>
                  r.start == r.frozen == r.ctrReg == (s.frozen + (if v.up then 1 else 0xFFFF)) % 0x1_0000)
  {
    hide Current, View;
    var t := StartStop(Configure(s, v), v.run, f, at);
    StepMoves(t);
  }

  lemma StepMoves(s: Clk)
    ensures var r := SingleStep(s);
            && SameProgramming(s, r) && r.since == s.since
            && r.start == r.frozen == r.ctrReg == (s.frozen + (if s.up then 1 else 0xFFFF)) % 0x1_0000
  {
    hide Signal, UpdateCsr, Tick;
    var v := Tick(s.frozen, s.up);
    TickIs(s.frozen, s.up);
    FlagsOnly(s.(frozen := v, start := v, ctrReg := v, done := true));
    FlagsOnly(s.(frozen := v, start := v, ctrReg := v));
  }

  predicate SameProgramming(s: Clk, r: Clk) {
    && r.running == s.running && r.rate == s.rate && r.repeat == s.repeat && r.up == s.up && r.enable == s.enable
    && r.buf == s.buf && r.error == s.error
  }

  lemma TickIs(v: Word, up: bool)
    ensures Tick(v, up) == (v + (if up then 1 else 0xFFFF)) % 0x1_0000
  {
  }

  lemma FlagsOnly(s: Clk)
    ensures SameProgramming(s, UpdateCsr(s)) && SameCount(s, UpdateCsr(s))
    ensures SameProgramming(s, Signal(s)) && SameCount(s, Signal(s))
  {
  }

  lemma CsrWriteFlags(s: Clk, v: CsrWrite, f: nat, now: int)
    requires FlagsOk(s)
    ensures FlagsOk(OnCsrWrite(s, v, f, now)) && !OnCsrWrite(s, v, f, now).error
  {
    hide Configure, StartStop, SingleStep, Disarm;
    var s1 := StartStop(Configure(s, v), v.run, f, now);
    StartKeeps(s, v, f, now);
    StepKeeps(s1);
    DisarmKeeps(if v.fix then SingleStep(s1) else s1);
  }

  /** Between the stages of a CSR write: no ERROR, and an unserviced interrupt has its DONE. */
  predicate Halfway(s: Clk) { !s.error && (s.pending ==> s.done) }

  lemma StartKeeps(s: Clk, v: CsrWrite, f: nat, now: int)
    requires FlagsOk(s)
    ensures Halfway(StartStop(Configure(s, v), v.run, f, now))
  {
    hide Current;
  }

  lemma StepKeeps(s: Clk)
    requires Halfway(s)
    ensures Halfway(SingleStep(s))
  {
    hide Tick;
  }

  lemma DisarmKeeps(s: Clk)
    requires Halfway(s)
    ensures Halfway(Disarm(s)) && (Disarm(s).pending ==> Disarm(s).enable) && (Disarm(s).request ==> Disarm(s).enable)
  {
  }

  lemma FireFlags(s: Clk, now: int)
    requires FlagsOk(s)
    ensures FlagsOk(Fire(s, now)) && (Fire(s, now).error <==> s.error || (s.repeat && s.pending))
  {
  }

  lemma {:induction false} RunFlags(es: seq<Event>, f: nat)
    ensures FlagsOk(Run(Reset(), es, f))
  {
    hide Step, FlagsOk;
    if es == [] {
      ResetFlags();
    } else {
      RunFlags(es[..|es| - 1], f);
      StepFlags(Run(Reset(), es[..|es| - 1], f), es[|es| - 1], f);
    }
  }

  lemma ResetFlags()
    ensures FlagsOk(Reset())
  {
  }

  // --- the closed form is ticking -----------------------------------------------------

  /** The count after `n` single ticks: what the hardware counter would hold. */
  function Ticked(v: Word, up: bool, n: nat): Word {
    if n == 0 then v else Tick(Ticked(v, up, n - 1), up)
  }

  lemma {:induction false} ClosedForm(v: Word, up: bool, n: nat)
    ensures CountAfter(v, up, n) == Ticked(v, up, n)
  {
    if n > 0 {
      ClosedForm(v, up, n - 1);
      CountStep(v, up, n - 1);
    }
  }

  lemma CountStep(v: Word, up: bool, n: nat)
    ensures CountAfter(v, up, n + 1) == Tick(CountAfter(v, up, n), up)
  {
    var t := n % 0x1_0000_0000;
    NextTick(n);
    if up { ModStep(v + t); ModWrap(v); } else { ModBack(v - t); ModWrap(v - 0x1_0000_0000); }
  }

  lemma NextTick(n: nat)
    ensures (n + 1) % 0x1_0000_0000 == (if n % 0x1_0000_0000 == 0xFFFF_FFFF then 0 else n % 0x1_0000_0000 + 1)
  {
  }

  lemma ModStep(x: int)
    ensures (x + 1) % FULL == (x % FULL + 1) % FULL
  {
  }

  lemma ModBack(x: int)
    ensures (x - 1) % FULL == (x % FULL - 1) % FULL
  {
  }

  lemma ModWrap(x: int)
    ensures (x + 0x1_0000_0000) % FULL == x % FULL
  {
  }

  lemma {:induction false} TickedTwice(v: Word, up: bool, n: nat, m: nat)
    ensures Ticked(Ticked(v, up, n), up, m) == Ticked(v, up, n + m)
    decreases m
  {
    if m > 0 { TickedTwice(v, up, n, m - 1); }
  }

  /** At any time the computed count is the loaded one ticked once per whole period. */
  lemma CurrentTicks(s: Clk, f: nat, now: int)
    requires s.running && Period(s.rate, f) > 0
    ensures Current(s, f, now) == Ticked(s.start, s.up, WholeTicks(now - s.since, Period(s.rate, f)))
  {
    ClosedForm(s.start, s.up, WholeTicks(now - s.since, Period(s.rate, f)));
  }

  /** The event point is the first time ticking comes to zero. */
  lemma EventIsFirstZero(v: Word, up: bool, n: nat)
    requires 0 < n <= TicksToEvent(v, up)
    ensures Ticked(v, up, n) == 0 <==> n == TicksToEvent(v, up)
    ensures n < TicksToEvent(v, up) ==>
              && (up ==> Ticked(v, up, n) == v + n)
              && (!up ==> Ticked(v, up, n) == (if v == 0 then FULL else v) - n)
              && TicksToEvent(Ticked(v, up, n), up) == TicksToEvent(v, up) - n
  {
    hide Ticked;
    ClosedForm(v, up, n);
  }

  lemma TicksBelow(elapsed: nat, period: nat, ticks: nat)
    requires period > 0 && elapsed < ticks * period
    ensures WholeTicks(elapsed, period) < ticks
  {
    if elapsed / period >= ticks { Scaled(ticks, elapsed / period, period); }
  }

  lemma Scaled(a: nat, b: nat, p: nat)
    requires a <= b
    ensures a * p <= b * p
  {
  }

  /** Before its event a count up never wraps, and a count down from a non-zero load never reaches zero; a zero
  load is a full range, counted down from 65536. */
  lemma NoWrapBeforeEvent(s: Clk, f: nat, now: int)
    requires s.running && Period(s.rate, f) > 0 && !Due(s, f, now)
    ensures var v, n := Current(s, f, now), WholeTicks(now - s.since, Period(s.rate, f));
            && n < TicksToEvent(s.start, s.up)
            && (s.up ==> v == s.start + n)
            && (!s.up && s.start != 0 ==> v == s.start - n && v > 0)
            && (!s.up && s.start == 0 && n > 0 ==> v == FULL - n)
  {
    hide WholeTicks, TicksToEvent;
    var period := Period(s.rate, f);
    var n := WholeTicks(now - s.since, period);
    NoTicks(period);
    TicksPositive(s.start, s.up);
    if now >= s.since {
      TicksBelow(now - s.since, period, TicksToEvent(s.start, s.up));
    } else {
      Backwards(now - s.since, period);
    }
    CountBelow(s.start, s.up, n);
  }

  lemma NoTicks(period: nat)
    requires period > 0
    ensures WholeTicks(0, period) == 0
  {
  }

  lemma Backwards(elapsed: int, period: nat)
    requires period > 0 && elapsed < 0
    ensures WholeTicks(elapsed, period) == 0
  {
  }

  lemma TicksPositive(v: Word, up: bool)
    ensures 0 < TicksToEvent(v, up) <= FULL
  {
  }

  lemma CountBelow(v: Word, up: bool, n: nat)
    requires n < TicksToEvent(v, up)
    ensures var c := CountAfter(v, up, n);
            && (up ==> c == v + n) && (!up && v != 0 ==> c == v - n && c > 0)
            && (!up && v == 0 && n > 0 ==> c == FULL - n)
  {
  }

  // --- the count across stops and restarts ----------------------------------------------

  /** No reprogramming: CSR writes keep the rate and the direction and do not use FIX, the buffer is not written, and no
  event falls due. */
  predicate Quiet(s: Clk, e: Event, rate: nat, up: bool, f: nat) {
    match e
    case CsrDato(v, at) => v.rate == rate && v.up == up && !v.fix
    case CsrDati => true
    case BufDato(count, at) => false
    case Turn(now, later) => !Due(s, f, now)
    case Grant => true
    case BusReset => false
  }

  /** The whole ticks of a running interval that a step ends. */
  function TicksEnded(s: Clk, e: Event, f: nat): nat {
    if e.CsrDato? && !e.v.run && s.running && Period(s.rate, f) > 0 then WholeTicks(e.at - s.since, Period(s.rate, f))
    else 0
  }

  function TicksRun(s: Clk, es: seq<Event>, f: nat): nat
    decreases |es|
  {
    if es == [] then 0
    else TicksRun(s, es[..|es| - 1], f) + TicksEnded(Run(s, es[..|es| - 1], f), es[|es| - 1], f)
  }

  predicate QuietRun(s: Clk, es: seq<Event>, f: nat)
    decreases |es|
  {
    es == [] || (QuietRun(s, es[..|es| - 1], f) && Quiet(Run(s, es[..|es| - 1], f), es[|es| - 1], s.rate, s.up, f))
  }

  /** The count a clock stands at, or started its running interval from. */
  function Base(s: Clk): Word { if s.running then s.start else s.frozen }

  lemma QuietStep(s: Clk, e: Event, f: nat)
    requires Quiet(s, e, s.rate, s.up, f) && Period(s.rate, f) > 0
    ensures var r := Step(s, e, f);
            r.rate == s.rate && r.up == s.up && Base(r) == Ticked(Base(s), s.up, TicksEnded(s, e, f))
  {
    hide Period, WholeTicks, CountAfter, Due, Fire, OnCsrWrite, Ticked;
    NotTicked(Base(s), s.up);
    if e.CsrDato? { QuietWrite(s, e.v, f, e.at); }
  }

  lemma QuietWrite(s: Clk, v: CsrWrite, f: nat, at: int)
    requires v.rate == s.rate && v.up == s.up && !v.fix && Period(s.rate, f) > 0
    ensures var r := OnCsrWrite(s, v, f, at);
            r.rate == s.rate && r.up == s.up && Base(r) == Ticked(Base(s), s.up, TicksEnded(s, CsrDato(v, at), f))
  {
    hide Period, WholeTicks, CountAfter, SingleStep, Ticked, View;
    NotTicked(Base(s), s.up);
    if !v.run && s.running { CurrentTicks(s, f, at); }
  }

  /** From any state, at the selected internal rate and direction and with no event: however often the clock is stopped
  and restarted, its count is the initial one ticked once for every whole period it has run. */
  lemma {:induction false} TickingRefined(s: Clk, es: seq<Event>, f: nat)
    requires QuietRun(s, es, f) && Period(s.rate, f) > 0
    ensures var r := Run(s, es, f);
            r.rate == s.rate && r.up == s.up && Base(r) == Ticked(Base(s), s.up, TicksRun(s, es, f))
  {
    hide Step, Quiet, TicksEnded, Ticked, Period;
    if es == [] {
      NotTicked(Base(s), s.up);
    } else {
      var before, e := es[..|es| - 1], es[|es| - 1];
      TickingRefined(s, before, f);
      QuietStep(Run(s, before, f), e, f);
      TickedTwice(Base(s), s.up, TicksRun(s, before, f), TicksEnded(Run(s, before, f), e, f));
    }
  }

  lemma NotTicked(v: Word, up: bool)
    ensures Ticked(v, up, 0) == v
  {
  }

  /** The whole ticks of the interval still running. */
  function OpenTicks(s: Clk, f: nat, now: int): nat {
    if s.running && Period(s.rate, f) > 0 then WholeTicks(now - s.since, Period(s.rate, f)) else 0
  }

  /** The computed count at any later time adds the whole ticks of the running interval. */
  lemma CountAfterRun(s: Clk, es: seq<Event>, f: nat, now: int)
    requires QuietRun(s, es, f) && Period(s.rate, f) > 0
    ensures var r := Run(s, es, f);
            Current(r, f, now) == Ticked(Base(s), s.up, TicksRun(s, es, f) + OpenTicks(r, f, now))
  {
    hide Run, QuietRun, TicksRun, WholeTicks, Period, CountAfter;
    TickingRefined(s, es, f);
    var r := Run(s, es, f);
    if r.running {
      CurrentTicks(r, f, now);
      TickedTwice(Base(s), s.up, TicksRun(s, es, f), WholeTicks(now - r.since, Period(r.rate, f)));
    }
  }

  // --- repeat mode -------------------------------------------------------------------------

  /** Events that leave a running clock's program alone. */
  predicate Passive(e: Event) { e.CsrDati? || e.Turn? || e.Grant? }

  /** When each event was found due, and when the clock was reloaded for it. */
  datatype Firing = Firing(due: int, reloaded: int)

  function Fired(s: Clk, e: Event, f: nat): seq<Firing> {
    if e.Turn? && Due(s, f, e.now) then [Firing(e.now, e.later)] else []
  }

  function Firings(s: Clk, es: seq<Event>, f: nat): seq<Firing>
    decreases |es|
  {
    if es == [] then [] else Firings(s, es[..|es| - 1], f) + Fired(Run(s, es[..|es| - 1], f), es[|es| - 1], f)
  }

  /** A clock in repeat mode running from its buffer. */
  predicate Repeating(s: Clk) { s.running && s.repeat && s.start == s.buf }

  predicate SamePace(s: Clk, r: Clk) { r.buf == s.buf && r.rate == s.rate && r.up == s.up }

  /** The last firing is where the present interval began. */
  predicate Since(r: Clk, fs: seq<Firing>, begun: int) {
    r.since == Begun(fs, begun, |fs|)
  }

  /** When the interval before firing `i` began. */
  function Begun(fs: seq<Firing>, begun: int, i: nat): int
    requires i <= |fs|
  {
    if i == 0 then begun else fs[i - 1].reloaded
  }

  predicate Paced(fs: seq<Firing>, begun: int, period: nat) {
    forall i :: 0 <= i < |fs| ==> fs[i].due - Begun(fs, begun, i) >= period
  }

  lemma PacedMore(fs: seq<Firing>, begun: int, period: nat, x: Firing)
    requires Paced(fs, begun, period)
    requires x.due - Begun(fs, begun, |fs|) >= period
    ensures Paced(fs + [x], begun, period)
  {
    var all := fs + [x];
    forall i | 0 <= i < |all|
      ensures all[i].due - Begun(all, begun, i) >= period
    {
      assert Begun(all, begun, i) == Begun(fs, begun, i);
      if i < |fs| { assert all[i] == fs[i]; }
    }
  }

  lemma PassiveStep(s: Clk, e: Event, f: nat, fs: seq<Firing>, begun: int)
    requires Repeating(s) && Passive(e) && Since(s, fs, begun) && Paced(fs, begun, EventPeriod(s, f))
    ensures var r := Step(s, e, f);
            && Repeating(r) && SamePace(s, r) && Since(r, fs + Fired(s, e, f), begun)
            && Paced(fs + Fired(s, e, f), begun, EventPeriod(s, f))
  {
    hide Period, Current, TicksToEvent, Due, Paced;
    if e.Turn? && Due(s, f, e.now) {
      DueSince(s, f, e.now);
      PacedMore(fs, begun, EventPeriod(s, f), Firing(e.now, e.later));
    } else {
      assert fs + [] == fs;
    }
  }

  lemma DueSince(s: Clk, f: nat, now: int)
    requires Due(s, f, now)
    ensures now - s.since >= EventPeriod(s, f)
  {
  }

  /** In repeat mode, left alone, each event is found due at least a full period after the reload before it. */
  lemma {:induction false} EventsPaced(s: Clk, es: seq<Event>, f: nat)
    requires Repeating(s) && forall e :: e in es ==> Passive(e)
    ensures var r := Run(s, es, f);
            && Repeating(r) && SamePace(s, r) && Since(r, Firings(s, es, f), s.since)
            && Paced(Firings(s, es, f), s.since, EventPeriod(s, f))
  {
    hide Step, Fired, Repeating, Since, Paced, Passive;
    if es == [] {
      NothingFired(s, EventPeriod(s, f));
    } else {
      var before, e := es[..|es| - 1], es[|es| - 1];
      EventsPaced(s, before, f);
      SamePeriod(s, Run(s, before, f), f);
      PassiveStep(Run(s, before, f), e, f, Firings(s, before, f), s.since);
      SamePeriod(s, Run(s, es, f), f);
    }
  }

  lemma NothingFired(s: Clk, period: nat)
    ensures Since(s, [], s.since) && Paced([], s.since, period)
  {
  }

  lemma SamePeriod(s: Clk, r: Clk, f: nat)
    requires Repeating(s) && Repeating(r) && SamePace(s, r)
    ensures EventPeriod(r, f) == EventPeriod(s, f)
  {
  }

  // --- events lost to the host -------------------------------------------------------------

  /** An event is due exactly when as many whole ticks have passed as lead to it. */
  lemma DueIsTicks(s: Clk, f: nat, now: int)
    requires s.running && Period(s.rate, f) > 0
    ensures Due(s, f, now) <==> WholeTicks(now - s.since, Period(s.rate, f)) >= TicksToEvent(s.start, s.up)
  {
    hide Period, WholeTicks, TicksToEvent;
    var p, t, elapsed := Period(s.rate, f), TicksToEvent(s.start, s.up), now - s.since;
    TicksPositive(s.start, s.up);
    Positive(t, p);
    if elapsed < 0 {
      Backwards(elapsed, p);
    } else if elapsed < t * p {
      TicksBelow(elapsed, p, t);
    } else {
      TicksReached(elapsed, p, t);
    }
  }

  lemma Positive(a: nat, b: nat)
    requires a > 0 && b > 0
    ensures a * b > 0
  {
  }

  lemma TicksReached(elapsed: nat, period: nat, ticks: nat)
    requires period > 0 && elapsed >= ticks * period
    ensures WholeTicks(elapsed, period) >= ticks
  {
    WordArithmetic.DivModParts(elapsed, period);
    var q := elapsed / period;
    if q < ticks {
      Scaled(q + 1, ticks, period);
      WordArithmetic.MulAdd(q, 1, period);
    }
  }

  /** A CSR write that leaves rate and direction alone and does not use FIX. */
  predicate SameProgram(s: Clk, v: CsrWrite) { v.rate == s.rate && v.up == s.up && !v.fix }

  /** Stopping a running clock raises nothing.  It keeps the event if and only if the event was not due: the
  ticks run and the ticks the frozen count still has before it then add up to what the clock was started for;
  from the event point on they do not, and a restart begins anew. */
  lemma StopLosesDueEvent(s: Clk, v: CsrWrite, f: nat, at: int)
    requires s.running && Period(s.rate, f) > 0 && SameProgram(s, v) && !v.run
    ensures var r, n := OnCsrWrite(s, v, f, at), WholeTicks(at - s.since, Period(s.rate, f));
            && !r.running && r.up == s.up && r.done == s.done && (r.request ==> s.request)
            && r.frozen == Ticked(s.start, s.up, n)
            && (n + TicksToEvent(r.frozen, r.up) == TicksToEvent(s.start, s.up) <==> !Due(s, f, at))
  {
    hide Period, WholeTicks, TicksToEvent, Ticked, Due, SingleStep, View, CountAfter;
    var n := WholeTicks(at - s.since, Period(s.rate, f));
    CurrentTicks(s, f, at);
    DueIsTicks(s, f, at);
    var v2 := Ticked(s.start, s.up, n);
    TicksPositive(v2, s.up);
    if n == 0 {
      NotTicked(s.start, s.up);
      TicksPositive(s.start, s.up);
    } else if n < TicksToEvent(s.start, s.up) {
      EventIsFirstZero(s.start, s.up, n);
    }
  }

  /** Loading the buffer of a running clock raises nothing either, and starts a full interval: an event due is gone. */
  lemma LoadDropsEvent(s: Clk, count: Word, f: nat, at: int)
    requires s.running && Period(s.rate, f) > 0
    ensures var r := OnBufWrite(s, count, at);
            r.done == s.done && r.pending == s.pending && r.request == s.request && !Due(r, f, at)
  {
    hide Period, TicksToEvent;
    TicksPositive(count, s.up);
    Positive(TicksToEvent(count, s.up), Period(s.rate, f));
  }

  /** A host access at time `at`, single-stepping aside. */
  predicate HostAccess(e: Event, at: int) {
    match e
    case CsrDato(v, t) => t == at && !v.fix
    case CsrDati => true
    case BufDato(count, t) => t == at
    case _ => false
  }

  /** An event due before an access that afterwards is neither due nor done. */
  predicate Drops(s: Clk, e: Event, f: nat, at: int) {
    Due(s, f, at) && !Due(Step(s, e, f), f, at) && Step(s, e, f).done == s.done
  }

  /** Whether an access makes a due event go away: it clears RUN, loads the buffer, or selects a rate and
  direction at which the count started would not be due yet. */
  predicate TakesAway(s: Clk, e: Event, f: nat, at: int) {
    match e
    case CsrDato(v, t) =>
      !v.run || Period(v.rate, f) == 0 || at - s.since < TicksToEvent(s.start, v.up) * Period(v.rate, f)
    case BufDato(count, t) => true
    case _ => false
  }

  /** Exactly which host accesses drop an event: those that take it away while it is due. */
  lemma DropsExactly(s: Clk, e: Event, f: nat, at: int)
    requires s.running && Period(s.rate, f) > 0 && HostAccess(e, at)
    ensures Drops(s, e, f, at) <==> Due(s, f, at) && TakesAway(s, e, f, at)
    ensures Drops(s, e, f, at) && e.CsrDato? && SameProgram(s, e.v) ==> !e.v.run
  {
    hide Period, TicksToEvent, Current, View;
    match e
    case CsrDato(v, t) =>
    case CsrDati =>
    case BufDato(count, t) => LoadDropsEvent(s, count, f, at);
  }

  /** An event that leaves a running count alone: a CSR read, a CSR write that keeps the clock running as it is, or
  a grant. */
  predicate Spares(s: Clk, e: Event) {
    match e
    case CsrDato(v, t) => SameProgram(s, v) && v.run
    case CsrDati => true
    case Grant => true
    case _ => false
  }

  predicate SameRun(s: Clk, r: Clk) {
    r.running && r.rate == s.rate && r.up == s.up && r.start == s.start && r.since == s.since
  }

  lemma SparedKeeps(s: Clk, e: Event, f: nat)
    requires s.running && Spares(s, e)
    ensures SameRun(s, Step(s, e, f))
  {
    hide Period, TicksToEvent, CountAfter, WholeTicks;
  }

  /** An event once due waits for the worker: whatever comes in between that spares the count, the next turn
  fires it, however late. */
  lemma {:induction false} DueUntilTurn(s: Clk, es: seq<Event>, f: nat, at: int, now: int, later: int)
    requires Due(s, f, at) && at <= now && forall e :: e in es ==> Spares(s, e)
    ensures SameRun(s, Run(s, es, f)) && Due(Run(s, es, f), f, now)
    ensures Step(Run(s, es, f), Turn(now, later), f).done
  {
    hide Step, Period, TicksToEvent;
    if es != [] {
      var before, e := es[..|es| - 1], es[|es| - 1];
      DueUntilTurn(s, before, f, at, now, later);
      assert e in es;
      SparedKeeps(Run(s, before, f), e, f);
    }
    TurnFires(Run(s, es, f), f, now, later);
  }

  lemma TurnFires(s: Clk, f: nat, now: int, later: int)
    requires Due(s, f, now)
    ensures Step(s, Turn(now, later), f).done
  {
    hide Due;
  }

  // --- what CTR reads ------------------------------------------------------------------------

  /** The events that store the counter register; a read of it is answered from there. */
  predicate Shows(s: Clk, e: Event, f: nat) {
    match e
    case CsrDato(v, at) => v.fix || (!v.run && s.running)
    case BufDato(count, at) => true
    case Turn(now, later) => s.running && Period(s.rate, f) > 0
    case BusReset => true
    case _ => false
  }

  /** The moment whose count an event stores. */
  function ShownAt(s: Clk, e: Event, f: nat): int {
    match e
    case CsrDato(v, at) => at
    case BufDato(count, at) => at
    case Turn(now, later) => later
    case _ => 0
  }

  /** Single-stepping a clock that goes on running stores the step, not the running count. */
  predicate StepsRunning(e: Event) { e.CsrDato? && e.v.fix && e.v.run }

  lemma SameMoment(start: Word, up: bool, period: nat)
    requires period > 0
    ensures CountAfter(start, up, WholeTicks(0, period)) == start
  {
    NoTicks(period);
  }

  /** CTR changes only with an event that stores it, and then holds the count of that moment. */
  lemma CtrStep(s: Clk, e: Event, f: nat)
    ensures var r := Step(s, e, f);
            && (!Shows(s, e, f) ==> r.ctrReg == s.ctrReg)
            && (Shows(s, e, f) && !StepsRunning(e) ==> r.ctrReg == Current(r, f, ShownAt(s, e, f)))
            && (!r.running && (s.running || s.ctrReg == s.frozen) ==> r.ctrReg == r.frozen)
  {
    hide Period, WholeTicks, CountAfter, UpdateCsr, EventPeriod, OnCsrWrite, Fire;
    match e
    case CsrDato(v, at) => CtrWrite(s, v, f, at);
    case CsrDati => UpdateKeepsCount(s.(error := false, pending := false));
    case BufDato(count, at) =>
      if Period(s.rate, f) > 0 { SameMoment(count, s.up, Period(s.rate, f)); }
    case Turn(now, later) =>
      if s.running && Period(s.rate, f) > 0 { CtrFire(s, f, later); }
    case Grant =>
    case BusReset =>
  }

  /** The fields the count is computed from, and the register it is stored in. */
  predicate SameCount(s: Clk, r: Clk) {
    && r.running == s.running && r.rate == s.rate && r.up == s.up
    && r.start == s.start && r.since == s.since && r.frozen == s.frozen && r.ctrReg == s.ctrReg
  }

  lemma UpdateKeepsCount(s: Clk)
    ensures SameCount(s, UpdateCsr(s)) && SameCount(s, Signal(s)) && SameCount(s, Disarm(s))
  {
  }

  lemma CtrFire(s: Clk, f: nat, later: int)
    requires s.running && Period(s.rate, f) > 0
    ensures var r := Fire(s, later);
            r.ctrReg == Current(r, f, later) && (!r.running ==> r.ctrReg == r.frozen)
  {
    hide Period, WholeTicks, CountAfter, Signal, UpdateCsr, Disarm;
    var s1 := s.(error := s.error || (s.repeat && s.pending), done := true);
    UpdateKeepsCount(if s.repeat then Reloaded(s1, later) else Stopped(s1));
    SameMoment(s.buf, s.up, Period(s.rate, f));
  }

  lemma CtrWrite(s: Clk, v: CsrWrite, f: nat, at: int)
    ensures var r := OnCsrWrite(s, v, f, at);
            && (!v.fix && !(!v.run && s.running) ==> r.ctrReg == s.ctrReg)
            && ((v.fix || (!v.run && s.running)) && !(v.fix && v.run) ==> r.ctrReg == Current(r, f, at))
            && (!r.running && (s.running || s.ctrReg == s.frozen) ==> r.ctrReg == r.frozen)
  {
    hide Period, WholeTicks, CountAfter, UpdateCsr, Disarm, Signal, Tick;
    var s1 := StartStop(Configure(s, v), v.run, f, at);
    var s2 := if v.fix then SingleStep(s1) else s1;
    CtrFix(s1);
    UpdateKeepsCount(s2);
    UpdateKeepsCount(Disarm(s2));
  }

  lemma CtrFix(s: Clk)
    ensures var r := SingleStep(s); r.ctrReg == r.frozen && r.running == s.running && r.rate == s.rate
  {
    hide UpdateCsr, Signal, Disarm, Tick;
    var v := Tick(s.frozen, s.up);
    UpdateKeepsCount(s.(frozen := v, start := v, ctrReg := v));
    UpdateKeepsCount(s.(frozen := v, start := v, ctrReg := v, done := true));
  }

  /** In every reachable state a stopped clock's CTR reads its count. */
  lemma {:induction false} StoppedCtr(es: seq<Event>, f: nat)
    ensures var r := Run(Reset(), es, f); !r.running ==> r.ctrReg == r.frozen
  {
    hide Step;
    if es != [] {
      StoppedCtr(es[..|es| - 1], f);
      CtrStep(Run(Reset(), es[..|es| - 1], f), es[|es| - 1], f);
    }
  }

  /** The count the last storing event of a quiet run left in CTR: the initial one ticked for every whole period
  up to that event. */
  function LastShown(s: Clk, es: seq<Event>, f: nat): Word
    decreases |es|
  {
    if es == [] then s.ctrReg
    else
      var before, e := Run(s, es[..|es| - 1], f), es[|es| - 1];
      if Shows(before, e, f) then
        Ticked(Base(s), s.up, TicksRun(s, es, f) + OpenTicks(Run(s, es, f), f, ShownAt(before, e, f)))
      else LastShown(s, es[..|es| - 1], f)
  }

  /** What a guest reads in CTR after any quiet run: the ticked count of the last turn or stop, unchanged since. */
  lemma {:induction false} CtrReads(s: Clk, es: seq<Event>, f: nat)
    requires QuietRun(s, es, f) && Period(s.rate, f) > 0
    ensures Run(s, es, f).ctrReg == LastShown(s, es, f)
  {
    hide Step, Ticked, Period, TicksRun, OpenTicks, Shows, ShownAt, Current;
    if es != [] {
      var before, e := Run(s, es[..|es| - 1], f), es[|es| - 1];
      CtrReads(s, es[..|es| - 1], f);
      CtrStep(before, e, f);
      QuietSteps(s, es, f);
      if Shows(before, e, f) { CountAfterRun(s, es, f, ShownAt(before, e, f)); }
    }
  }

  lemma QuietSteps(s: Clk, es: seq<Event>, f: nat)
    requires es != [] && QuietRun(s, es, f)
    ensures !StepsRunning(es[|es| - 1])
  {
  }

  /** A turn that finds nothing due reads the clock again to show the count: if the event point lies between the
  two readings, CTR shows zero before DONE is up. */
  lemma ZeroShownEarly(s: Clk, f: nat, now: int, later: int)
    requires s.running && Period(s.rate, f) > 0 && !Due(s, f, now)
    requires 0 <= later - s.since - EventPeriod(s, f) < Period(s.rate, f)
    ensures var r := Step(s, Turn(now, later), f); r.ctrReg == 0 && r.done == s.done && Due(r, f, later)
  {
    hide Period, TicksToEvent, Ticked, CountAfter, WholeTicks;
    var t, p := TicksToEvent(s.start, s.up), Period(s.rate, f);
    TicksPositive(s.start, s.up);
    DueIsTicks(s, f, later);
    WordArithmetic.MulAdd(t, 1, p);
    Positive(t, p);
    TicksBelow(later - s.since, p, t + 1);
    CurrentTicks(s, f, later);
    EventIsFirstZero(s.start, s.up, t);
  }

  // --- the device --------------------------------------------------------------------------

  class Clock {
    const frequency: nat
    var running: bool
    var rate: nat
    var repeat: bool
    var up: bool
    var enable: bool
    var done: bool
    var error: bool
    var buf: Word
    var start: Word
    var frozen: Word
    var since: int
    var pending: bool
    var csrReg: CsrView
    var ctrReg: Word
    var request: bool

    function State(): Clk
      reads this
    {
      Clk(running, rate, repeat, up, enable, done, error, buf, start, frozen, since, pending, csrReg, ctrReg, request)
    }

    constructor (frequency: nat)
      ensures this.frequency == frequency && State() == Reset()
    {
      this.frequency := frequency;
      running, rate, repeat, up, enable, done, error := false, 0, false, false, false, false, false;
      buf, start, frozen, since, pending := 0, 0, 0, 0, false;
      csrReg, ctrReg, request := CsrView(false, 0, false, false, false, false, false), 0, false;
    }

    method UpdateCsrRegister()
      modifies this`csrReg
      ensures State() == UpdateCsr(old(State()))
    {
      csrReg := CsrView(running, rate, repeat, up, enable, done, error);
    }

    /** Raises the interrupt with the CSR, or only updates the CSR. */
    method Notify()
      modifies this`csrReg, this`pending, this`request
      ensures State() == Signal(old(State()))
    {
      hide View;
      if enable {
        pending := true;
        request := true;
      }
      UpdateCsrRegister();
    }

    /** Repeat mode: the counter takes the buffer again and runs on. */
    method Reload(now: int)
      modifies this`start, this`frozen, this`since, this`ctrReg
      ensures State() == Reloaded(old(State()), now)
    {
      start, frozen, since := buf, buf, now;
      ctrReg := frozen;
    }

    /** Single mode: the clock stops with counter and buffer clear. */
    method StopAndClear()
      modifies this`running, this`buf, this`start, this`frozen, this`ctrReg
      ensures State() == Stopped(old(State()))
    {
      running := false;
      buf, start, frozen := 0, 0, 0;
      ctrReg := 0;
    }

    method FireEvent(now: int)
      modifies this
      ensures State() == Fire(old(State()), now)
    {
      hide Signal, Reloaded, Stopped;
      if repeat && pending { error := true; }
      done := true;
      if repeat { Reload(now); } else { StopAndClear(); }
      Notify();
    }

    method FixStep()
      modifies this
      ensures State() == SingleStep(old(State()))
    {
      hide Signal, UpdateCsr;
      var event;
      if up {
        event := frozen == 0xFFFF;
        frozen := (frozen + 1) % FULL;
      } else {
        event := frozen == 0;
        frozen := (frozen - 1) % FULL;
      }
      start, ctrReg := frozen, frozen;
      if event {
        done := true;
        Notify();
      } else {
        UpdateCsrRegister();
      }
    }

    method RunBit(newRun: bool, now: int)
      modifies this
      ensures State() == StartStop(old(State()), newRun, frequency, now)
    {
      hide CountAfter, Period, WholeTicks;
      if newRun && !running {
        done, pending := false, false;
        start, since := frozen, now;
        running := true;
      } else if !newRun && running {
        frozen := Current(State(), frequency, now);
        running := false;
        ctrReg := frozen;
      }
    }

    method SetModes(v: CsrWrite)
      modifies this`rate, this`repeat, this`up, this`error, this`enable
      ensures State() == Configure(old(State()), v)
    {
      rate, repeat, up := v.rate, v.repeat, v.up;
      error := false;
      enable := v.enable;
    }

    method CancelIfDisabled()
      modifies this`pending, this`request
      ensures State() == Disarm(old(State()))
    {
      if !enable {
        pending := false;
        request := false;
      }
    }

    method CsrWritten(v: CsrWrite, now: int)
      modifies this
      ensures State() == Step(old(State()), CsrDato(v, now), frequency)
    {
      hide StartStop, SingleStep, Disarm, UpdateCsr;
      SetModes(v);
      RunBit(v.run, now);
      if v.fix { FixStep(); }
      CancelIfDisabled();
      UpdateCsrRegister();
    }

    method CsrRead()
      modifies this
      ensures State() == Step(old(State()), CsrDati, frequency)
    {
      error, pending := false, false;
      UpdateCsrRegister();
    }

    method BufWritten(count: Word, now: int)
      modifies this
      ensures State() == Step(old(State()), BufDato(count, now), frequency)
    {
      buf, start, frozen := count, count, count;
      if running { since := now; }
      ctrReg := count;
    }

    /** One turn of the worker; `wait` is how long it may sleep, which never runs past the next event. */
    method WorkerTurn(now: int, later: int) returns (wait: nat)
      modifies this
      ensures State() == Step(old(State()), Turn(now, later), frequency)
      ensures wait <= 20_000_000
      ensures old(Due(State(), frequency, now)) ==> wait == 0
      ensures !old(Due(State(), frequency, now)) && running && Period(rate, frequency) > 0
              ==> now + wait <= since + EventPeriod(State(), frequency)
    {
      hide CountAfter, Period, TicksToEvent, Fire;
      wait := 20_000_000;
      var period := Period(rate, frequency);
      if running && period > 0 {
        var event := TicksToEvent(start, up) * period;
        var elapsed := now - since;
        if elapsed >= event {
          FireEvent(later);
          wait := 0;
        } else {
          ctrReg := Current(State(), frequency, later);
          var remaining := event - elapsed;
          wait := if remaining < 20_000_000 then remaining else 20_000_000;
        }
      }
    }

    method OnInit()
      modifies this
      ensures State() == Step(old(State()), BusReset, frequency)
    {
      ClearModes();
      buf, start, frozen, since, pending := 0, 0, 0, 0, false;
      request, ctrReg := false, 0;
    }

    method ClearModes()
      modifies this`running, this`rate, this`repeat, this`up, this`enable, this`done, this`error, this`csrReg
      ensures !running && rate == 0 && !repeat && !up && !enable && !done && !error
      ensures csrReg == CsrView(false, 0, false, false, false, false, false)
    {
      running, rate, repeat, up, enable, done, error := false, 0, false, false, false, false, false;
      csrReg := CsrView(running, rate, repeat, up, enable, done, error);
    }
  }
}
