/** The DHV11 multiplexer's master reset: the self-test it reports, how long it takes, and what it leaves behind.

The register callback, the receive worker's 500 microsecond tick and the transmit worker hold one mutex, so a run is
a sequence of the events below, in any order. */
module Dhv11 {
  type Byte = b: int | 0 <= b < 0x100
  type Word = w: int | 0 <= w < 0x1_0000

  const LINES := 8
  const FIFO_SIZE := 256
  const POLLS := 800 * 220
  const SKIP_POLLS := 12 * 220
  const FALLBACK_TICKS := 5000
  const SKIP_FALLBACK_TICKS := 40
  const POLL_ACTIVE_TICKS := 4
  const SKIP_PATTERN := 0x5555

  /** A channel's stored registers and its transmit transfer. */
  datatype Channel = Channel(lpr: Word, lnctrl: Word, tbuffad1: Word, tbuffad2: Word, tbuffct: Word,
                             dmaAddr: nat, dmaCount: nat, dmaPending: bool)

  /** After a reset: 9600 baud, eight bits, receiver disabled, transmitter enabled, no transfer. */
  const DEFAULTS := Channel(0xDD18, 0, 0, 0x8000, 0, 0, 0, false)

  datatype CsrView = CsrView(txAct: bool, txIe: bool, diagFail: bool, txLine: nat, rxData: bool, rxIe: bool,
                             masterReset: bool, channel: nat)

  /** The self-test: the three bits that show it, whether a short one was asked for, and its timers. */
  datatype Test = Test(masterReset: bool, diagFail: bool, pending: bool, skip: bool,
                       polls: nat, target: nat, ticks: int, active: nat)

  /** The CSR's control bits and selected channel. */
  datatype Control = Control(rxIe: bool, txIe: bool, txAct: bool, txLine: nat, channel: nat)

  datatype Dhv = Dhv(test: Test, control: Control, fifo: seq<Word>, chans: seq<Channel>, csrReg: CsrView)

  const IDLE := Test(false, false, false, false, 0, POLLS, 0, 0)
  const QUIET := Control(false, false, false, 0, 0)

  function AllDefaults(): (r: seq<Channel>)
    ensures |r| == LINES && forall i :: 0 <= i < LINES ==> r[i] == DEFAULTS
  {
    seq(LINES, i => DEFAULTS)
  }

  function View(s: Dhv): CsrView {
    CsrView(s.control.txAct, s.control.txIe, s.test.diagFail, s.control.txLine, s.fifo != [], s.control.rxIe,
            s.test.masterReset, s.control.channel)
  }

  function Update(s: Dhv): Dhv { s.(csrReg := View(s)) }

  // --- the receive FIFO ---------------------------------------------------------------

  /** Bit 14, the overrun mark. */
  function Overrun(w: Word): Word { if w / 0x4000 % 2 == 1 then w else w + 0x4000 }

  /** `rx_fifo_push`: a full FIFO gives up its newest entry for one marked overrun. */
  function Pushed(fifo: seq<Word>, entry: Word): seq<Word> {
    if |fifo| >= FIFO_SIZE then fifo[..|fifo| - 1] + [Overrun(entry)] else fifo + [entry]
  }

  function CharEntry(line: nat, ch: Byte): Word { 0x8000 + line % 8 * 0x100 + ch }

  function PushedAll(fifo: seq<Word>, line: nat, bytes: seq<Byte>): seq<Word> {
    if bytes == [] then fifo
    else Pushed(PushedAll(fifo, line, bytes[..|bytes| - 1]), CharEntry(line, bytes[|bytes| - 1]))
  }

  /** The code of step `k` of a self-test: six fillers, then the two ROM versions. */
  function Code(skip: bool, k: nat): Byte {
    if k < 6 then (if skip then 0x83 else 0x81) else if k == 6 then 0x03 else 0x01
  }

  /** A diagnostic word: data valid, the three error bits, a sequence number, a code. */
  function CodeWord(skip: bool, k: nat): Word
    requires k < 8
  {
    0x8000 + 0x7000 + 0x100 * k + Code(skip, k)
  }

  function Codes(skip: bool): (r: seq<Word>)
    ensures |r| == 8
  {
    seq(8, k requires 0 <= k < 8 => CodeWord(skip, k))
  }

  // --- the self-test ------------------------------------------------------------------------

  /** `complete_selftest`: the channels at their defaults whatever was written meanwhile, and the codes in the FIFO. */
  function Complete(s: Dhv): Dhv {
    if !s.test.masterReset then s
    else s.(chans := AllDefaults(), fifo := Codes(s.test.skip),
            test := s.test.(diagFail := false, masterReset := false, pending := false))
  }

  const STARTED := Test(true, true, true, false, 0, POLLS, FALLBACK_TICKS, 0)

  function BeginReset(s: Dhv): Dhv {
    s.(test := STARTED, control := s.control.(txAct := false, txLine := 0), chans := AllDefaults(), fifo := [])
  }

  /** Any access during a reset holds the inactivity fallback off. */
  function Accessed(t: Test): Test { if t.masterReset then t.(active := POLL_ACTIVE_TICKS) else t }

  /** The skip pattern in a control register asks for a short test. */
  function SkipAsked(t: Test, v: Word): Test {
    if t.masterReset && !t.skip && v == SKIP_PATTERN then
      t.(skip := true, target := SKIP_POLLS,
         ticks := if t.ticks > SKIP_FALLBACK_TICKS then SKIP_FALLBACK_TICKS else t.ticks)
    else t
  }

  // --- events -------------------------------------------------------------------------------

  datatype CsrWrite = CsrWrite(rxIe: bool, txIe: bool, reset: bool, channel: nat)

  datatype Register = Lpr | Lnctrl | TbuffAd1 | TbuffAd2 | TbuffCt

  /** Register accesses, the receive worker's tick and characters, the transmit worker taking a transfer and
  completing one (`wrapped` when it loops back), and a bus reset. */
  datatype Event =
    | WriteCsr(v: CsrWrite)
    | ReadCsr
    | WriteRbuf(tx: Word)
    | ReadRbuf
    | ReadIndexed
    | WriteIndexed(register: Register, w: Word)
    | Tick
    | Wire(wire: nat, ch: Byte)
    | XmtTake(take: nat)
    | XmtDone(line: nat, bytes: seq<Byte>, wrapped: bool, nextAddr: nat)
    | BusReset

  function OnCsrWrite(s: Dhv, v: CsrWrite): Dhv {
    var s1 := s.(control := s.control.(rxIe := v.rxIe, txIe := v.txIe, channel := v.channel % 16));
    Update(if v.reset && !s.test.masterReset then BeginReset(s1) else s1)
  }

  /** A CSR read is a poll of a running test. */
  function Polled(s: Dhv): Dhv {
    if !s.test.masterReset then s
    else
      var s1 := s.(test := s.test.(polls := s.test.polls + 1));
      if s1.test.polls >= s.test.target then Update(Complete(s1)) else s1
  }

  /** It also clears TX.ACTION. */
  function OnCsrRead(s: Dhv): Dhv {
    var s1 := Polled(s);
    if s1.control.txAct then Update(s1.(control := s1.control.(txAct := false))) else s1
  }

  function ChannelAt(s: Dhv, c: nat): Channel { if c < |s.chans| then s.chans[c] else DEFAULTS }

  function WithChannel(s: Dhv, c: nat, x: Channel): Dhv {
    if c < |s.chans| then s.(chans := s.chans[c := x]) else s
  }

  function Report(s: Dhv, line: nat): Dhv { s.(control := s.control.(txLine := line % 8, txAct := true)) }

  /** A maintenance mode that wraps a programmed character back: local for a transmitter that is on, echo and
  remote for a receiver that is. */
  predicate WrapsBack(x: Channel) {
    var mode := x.lnctrl / 0x40 % 4;
    if mode == 2 then x.tbuffad2 >= 0x8000 else mode != 0 && x.lnctrl / 4 % 2 == 1
  }

  /** A programmed character; in a maintenance mode it wraps back to the FIFO. */
  function OnTxChar(s: Dhv, v: Word): Dhv {
    if v < 0x8000 then s
    else
      var line := s.control.channel;
      var fifo := if WrapsBack(ChannelAt(s, line)) then Pushed(s.fifo, CharEntry(line, v % 0x100)) else s.fifo;
      Update(Report(s.(fifo := fifo), line))
  }

  function OnLpr(s: Dhv, v: Word): Dhv {
    var x := ChannelAt(s, s.control.channel);
    if v / 2 % 4 == 1 then
      WithChannel(Update(s.(fifo := Pushed(s.fifo, 0xF000 + s.control.channel % 8 * 0x100 + 0xC5))),
          s.control.channel, x.(lpr := v - 2))
    else WithChannel(s, s.control.channel, x.(lpr := v))
  }

  /** The high address word; its start bit launches a transfer and reads back clear. */
  function StartTransfer(x: Channel, v: Word): Channel {
    var start := v / 0x80 % 2 == 1;
    var stored: Word := if start then v - 0x80 else v;
    if start && v >= 0x8000 && x.tbuffct > 0 then
      x.(tbuffad2 := stored, dmaAddr := v % 0x40 * 0x1_0000 + x.tbuffad1, dmaCount := x.tbuffct, dmaPending := true)
    else x.(tbuffad2 := stored)
  }

  function OnIndexed(s: Dhv, r: Register, v: Word): Dhv {
    var x := ChannelAt(s, s.control.channel);
    match r
    case Lpr => OnLpr(s, v)
    case Lnctrl => WithChannel(s, s.control.channel, x.(lnctrl := v))
    case TbuffAd1 => WithChannel(s, s.control.channel, x.(tbuffad1 := v))
    case TbuffAd2 => WithChannel(s, s.control.channel, StartTransfer(x, v))
    case TbuffCt => WithChannel(s, s.control.channel, x.(tbuffct := v))
  }

  function OnTick(s: Dhv): Dhv {
    if !s.test.pending then s
    else if s.test.active > 0 then s.(test := s.test.(active := s.test.active - 1))
    else
      var s1 := s.(test := s.test.(ticks := s.test.ticks - 1));
      if s1.test.ticks <= 0 then Update(Complete(s1)) else s1
  }

  function OnXmtDone(s: Dhv, line: nat, bytes: seq<Byte>, wrapped: bool, nextAddr: nat): Dhv {
    var s1 := if wrapped then s.(fifo := PushedAll(s.fifo, line, bytes)) else s;
    Update(Report(WithChannel(s1, line, ChannelAt(s1, line).(dmaCount := 0, tbuffct := 0, dmaAddr := nextAddr)), line))
  }

  /** Bus INIT and power run the test to its end at once. */
  function Reset(): Dhv {
    Update(Dhv(IDLE, QUIET, Codes(false), AllDefaults(), CsrView(false, false, false, 0, false, false, false, 0)))
  }

  function At(s: Dhv, t: Test): Dhv { s.(test := t) }

  function Step(s: Dhv, e: Event): Dhv {
    var t := Accessed(s.test);
    match e
    case WriteCsr(v) => OnCsrWrite(At(s, t), v)
    case ReadCsr => OnCsrRead(At(s, t))
    case WriteRbuf(v) => OnTxChar(At(s, SkipAsked(t, v)), v)
    case ReadIndexed => At(s, t)
    case ReadRbuf => Update(At(s, t).(fifo := if s.fifo == [] then [] else s.fifo[1..]))
    case WriteIndexed(r, v) => OnIndexed(At(s, SkipAsked(t, v)), r, v)
    case Tick => OnTick(s)
    case Wire(line, ch) => Update(s.(fifo := Pushed(s.fifo, CharEntry(line, ch))))
    case XmtTake(line) => WithChannel(s, line, ChannelAt(s, line).(dmaPending := false))
    case XmtDone(line, bytes, wrapped, nextAddr) => OnXmtDone(s, line, bytes, wrapped, nextAddr)
    case BusReset => Reset()
  }

  function Run(s: Dhv, es: seq<Event>): Dhv
    decreases |es|
  {
    if es == [] then s else Step(Run(s, es[..|es| - 1]), es[|es| - 1])
  }

  // --- invariants ----------------------------------------------------------------------------------

  /** Master reset, pending and diagnostic-fail are one condition; a running test has its fallback ahead of it and the
  target that goes with the length asked for. */
  predicate TestOk(t: Test) {
    && t.masterReset == t.pending == t.diagFail
    && (t.masterReset ==>
          && t.target == (if t.skip then SKIP_POLLS else POLLS) && t.polls < POLLS
          && 0 < t.ticks <= (if t.skip then SKIP_FALLBACK_TICKS else FALLBACK_TICKS) && t.active <= POLL_ACTIVE_TICKS)
  }

  /** Eight channels, a FIFO within its size, and a CSR that reads the state. */
  predicate Shape(s: Dhv) {
    |s.chans| == LINES && |s.fifo| <= FIFO_SIZE && s.csrReg == View(s)
  }

  predicate Ok(s: Dhv) { TestOk(s.test) && Shape(s) }

  /** What an event does to the test, and whether it ends it. */
  predicate Ends(t: Test, e: Event) {
    t.masterReset && ((e.ReadCsr? && t.polls + 1 >= t.target) || (e.Tick? && t.active == 0 && t.ticks == 1))
  }

  function TestAfter(t: Test, e: Event): Test {
    match e
    case WriteCsr(v) => if v.reset && !t.masterReset then STARTED else Accessed(t)
    case ReadCsr => if t.masterReset then Accessed(t).(polls := t.polls + 1) else t
    case WriteRbuf(v) => SkipAsked(Accessed(t), v)
    case ReadRbuf => Accessed(t)
    case ReadIndexed => Accessed(t)
    case WriteIndexed(r, v) => SkipAsked(Accessed(t), v)
    case Tick =>
      if !t.masterReset then t
      else if t.active > 0 then t.(active := t.active - 1) else t.(ticks := t.ticks - 1)
    case BusReset => IDLE
    case _ => t
  }

  lemma {:induction false} PushedAllFits(fifo: seq<Word>, line: nat, bytes: seq<Byte>)
    requires |fifo| <= FIFO_SIZE
    ensures |PushedAll(fifo, line, bytes)| <= FIFO_SIZE
    decreases |bytes|
  {
    if bytes != [] { PushedAllFits(fifo, line, bytes[..|bytes| - 1]); }
  }

  lemma PushFits(fifo: seq<Word>)
    requires |fifo| <= FIFO_SIZE
    ensures forall w :: |Pushed(fifo, w)| <= FIFO_SIZE
  {
  }

  lemma TimersKeep(t: Test, e: Event)
    requires TestOk(t) && !Ends(t, e)
    ensures TestOk(TestAfter(t, e))
  {
  }

  lemma TxCharKeeps(s: Dhv, v: Word)
    requires Shape(s)
    ensures Shape(OnTxChar(s, v)) && OnTxChar(s, v).test == s.test
  {
    hide Pushed, CharEntry;
    PushFits(s.fifo);
  }

  lemma IndexedKeeps(s: Dhv, r: Register, v: Word)
    requires Shape(s)
    ensures Shape(OnIndexed(s, r, v)) && OnIndexed(s, r, v).test == s.test
  {
    hide Pushed, StartTransfer;
    PushFits(s.fifo);
  }

  lemma XmtDoneKeeps(s: Dhv, line: nat, bytes: seq<Byte>, wrapped: bool, nextAddr: nat)
    requires Shape(s)
    ensures var r := OnXmtDone(s, line, bytes, wrapped, nextAddr); Shape(r) && r.test == s.test
  {
    hide PushedAll;
    PushedAllFits(s.fifo, line, bytes);
  }

  /** What a completed test leaves: exactly the eight codes, every channel at its defaults, the three bits clear. */
  predicate Finished(s: Dhv, skip: bool) {
    && !s.test.masterReset && !s.test.pending && !s.test.diagFail
    && s.fifo == Codes(skip) && s.chans == AllDefaults()
  }

  lemma CsrWriteKeeps(s: Dhv, v: CsrWrite)
    requires Ok(s)
    ensures var r := OnCsrWrite(At(s, Accessed(s.test)), v);
            && Shape(r) && r.test == TestAfter(s.test, WriteCsr(v))
            && (r.test == STARTED && !s.test.masterReset ==> r.fifo == [])
  {
    hide AllDefaults;
  }

  lemma CsrReadKeeps(s: Dhv)
    requires Ok(s)
    ensures var r := OnCsrRead(At(s, Accessed(s.test)));
            && Shape(r)
            && (if Ends(s.test, ReadCsr) then Finished(r, s.test.skip) else r.test == TestAfter(s.test, ReadCsr))
  {
    hide AllDefaults, Codes;
  }

  lemma TickKeeps(s: Dhv)
    requires Ok(s)
    ensures var r := OnTick(s);
            && Shape(r)
            && (if Ends(s.test, Tick) then Finished(r, s.test.skip) else r.test == TestAfter(s.test, Tick))
  {
    hide AllDefaults, Codes;
  }

  /** Short of a bus reset a running test ends exactly when a CSR read brings the polls to the target, or a tick
  of silence uses up the fallback; and then only the eight codes are in the FIFO and every channel is at its
  defaults, whatever the host wrote meanwhile.  Every other event runs the timers and ends nothing. */
  lemma StepEnds(s: Dhv, e: Event)
    requires Ok(s)
    ensures var r := Step(s, e);
            && Ok(r)
            && (if Ends(s.test, e) then Finished(r, s.test.skip) else r.test == TestAfter(s.test, e))
  {
    hide OnCsrWrite, OnCsrRead, OnTxChar, OnIndexed, OnTick, OnXmtDone, Codes, AllDefaults, Pushed, CharEntry,
        ChannelAt, Reset;
    var t := Accessed(s.test);
    if !Ends(s.test, e) { TimersKeep(s.test, e); }
    match e
    case WriteCsr(v) => CsrWriteKeeps(s, v);
    case ReadCsr => CsrReadKeeps(s);
    case WriteRbuf(v) => TxCharKeeps(At(s, SkipAsked(t, v)), v);
    case ReadRbuf =>
    case ReadIndexed =>
    case WriteIndexed(r, v) => IndexedKeeps(At(s, SkipAsked(t, v)), r, v);
    case Tick => TickKeeps(s);
    case Wire(line, ch) => PushFits(s.fifo);
    case XmtTake(line) =>
    case XmtDone(line, bytes, wrapped, nextAddr) => XmtDoneKeeps(s, line, bytes, wrapped, nextAddr);
    case BusReset => ResetOk();
  }

  lemma ResetOk()
    ensures Ok(Reset()) && Reset().test == IDLE && Finished(Reset(), false)
  {
  }

  /** In every state a run can reach, CSR<5>, pending and DIAG.FAIL are equal and the timers are in their ranges. */
  lemma {:induction false} RunKeepsOk(es: seq<Event>)
    ensures Ok(Run(Reset(), es))
  {
    hide Step, Ok;
    if es == [] {
      ResetOk();
    } else {
      RunKeepsOk(es[..|es| - 1]);
      StepEnds(Run(Reset(), es[..|es| - 1]), es[|es| - 1]);
    }
  }

  // --- what fills the FIFO meanwhile ---------------------------------------------------------

  /** The events that push into the FIFO: a character from a line, a request for a monitor report, a programmed
  character or a transfer that wraps back. */
  predicate Pushes(s: Dhv, e: Event) {
    match e
    case Wire(line, ch) => true
    case WriteIndexed(r, v) => r == Lpr && v / 2 % 4 == 1
    case WriteRbuf(v) => v >= 0x8000 && WrapsBack(ChannelAt(s, s.control.channel))
    case XmtDone(line, bytes, wrapped, nextAddr) => wrapped && bytes != []
    case _ => false
  }

  lemma PushedNotEmpty(fifo: seq<Word>, w: Word)
    ensures Pushed(fifo, w) != []
  {
    if |fifo| >= FIFO_SIZE { assert |Pushed(fifo, w)| == |fifo|; }
  }

  lemma PushedAllNotEmpty(fifo: seq<Word>, line: nat, bytes: seq<Byte>)
    ensures PushedAll(fifo, line, bytes) == [] <==> fifo == [] && bytes == []
  {
    hide Pushed;
    if bytes != [] {
      PushedNotEmpty(PushedAll(fifo, line, bytes[..|bytes| - 1]), CharEntry(line, bytes[|bytes| - 1]));
    }
  }

  /** While a test goes on, an empty FIFO stays empty over an event exactly if the event pushes nothing. */
  lemma StepFills(s: Dhv, e: Event)
    requires s.fifo == [] && s.test.masterReset && !Ends(s.test, e) && !e.BusReset? && TestOk(s.test)
    ensures Step(s, e).fifo == [] <==> !Pushes(s, e)
  {
    hide Pushed, PushedAll, AllDefaults, Codes, StartTransfer, CharEntry, WrapsBack, View;
    match e
    case Wire(line, ch) => PushedNotEmpty(s.fifo, CharEntry(line, ch));
    case WriteIndexed(r, v) => PushedNotEmpty(s.fifo, 0xF000 + s.control.channel % 8 * 0x100 + 0xC5);
    case WriteRbuf(v) => PushedNotEmpty(s.fifo, CharEntry(s.control.channel, v % 0x100));
    case XmtDone(line, bytes, wrapped, nextAddr) => PushedAllNotEmpty(s.fifo, line, bytes);
    case _ =>
  }

  /** The FIFO at every point of a run. */
  predicate AlwaysEmpty(s: Dhv, es: seq<Event>)
    decreases |es|
  {
    Run(s, es).fifo == [] && (es == [] || AlwaysEmpty(s, es[..|es| - 1]))
  }

  predicate NeverPushes(s: Dhv, es: seq<Event>)
    decreases |es|
  {
    es == [] || (NeverPushes(s, es[..|es| - 1]) && !Pushes(Run(s, es[..|es| - 1]), es[|es| - 1]))
  }

  /** From the start of a test and for as long as it goes on, the FIFO is empty throughout if and only if
  nothing is pushed: the first push comes with the first such event, and completion throws away what it finds.
  */
  lemma {:induction false} FifoFills(s: Dhv, es: seq<Event>)
    requires Ok(s) && s.test == STARTED && s.fifo == [] && StillTesting(s, es)
    ensures AlwaysEmpty(s, es) <==> NeverPushes(s, es)
  {
    hide Step, Ok, TestOk, Pushes, Finished;
    if es != [] {
      var before, e := es[..|es| - 1], es[|es| - 1];
      var r := Run(s, before);
      FifoFills(s, before);
      PollsAreReads(s, before);
      OkTest(r);
      if AlwaysEmpty(s, before) {
        StepEnds(r, e);
        EndsStops(r, e);
        StepFills(r, e);
      }
    }
  }

  lemma EndsStops(s: Dhv, e: Event)
    requires Ok(s) && Step(s, e).test.masterReset
    ensures !Ends(s.test, e)
  {
    hide Step;
    StepEnds(s, e);
  }

  /** The FIFO does fill: a reset, then a request for a monitor report, and a code waits in it while the test
  goes on. */
  lemma FifoFillsDuringTest(s: Dhv, v: CsrWrite)
    requires Ok(s) && !s.test.masterReset && v.reset
    ensures var t := Step(s, WriteCsr(v));
            var r := Step(t, WriteIndexed(Lpr, 2));
            t.fifo == [] && r.test.masterReset && r.fifo != []
  {
    hide View, AllDefaults, Pushed;
    PushedNotEmpty([], 0xF000 + v.channel % 16 % 8 * 0x100 + 0xC5);
  }

  // --- how long it takes --------------------------------------------------------------------

  /** The CSR reads in a run. */
  function Reads(es: seq<Event>): nat {
    if es == [] then 0 else Reads(es[..|es| - 1]) + (if es[|es| - 1].ReadCsr? then 1 else 0)
  }

  /** A run from the start of a test over which the test has not ended and the bus has not been reset. */
  predicate StillTesting(s: Dhv, es: seq<Event>)
    decreases |es|
  {
    && Run(s, es).test.masterReset
    && (es == [] || (StillTesting(s, es[..|es| - 1]) && !es[|es| - 1].BusReset?))
  }

  lemma PollsCount(t: Test, e: Event)
    requires TestOk(t) && t.masterReset && !Ends(t, e) && !e.BusReset?
    ensures var r := TestAfter(t, e);
            && r.masterReset && r.polls == t.polls + (if e.ReadCsr? then 1 else 0)
            && r.target <= t.target && (t.skip ==> r.skip) && r.ticks <= t.ticks
  {
  }

  /** While a test started by `s` runs, its polls are the CSR reads since: so it has ended by the 176000th,
  whatever else happens. */
  lemma {:induction false} PollsAreReads(s: Dhv, es: seq<Event>)
    requires Ok(s) && s.test == STARTED && StillTesting(s, es)
    ensures Ok(Run(s, es)) && Run(s, es).test.polls == Reads(es) < POLLS
  {
    hide Step, Ok, TestOk;
    if es == [] {
      OkTest(s);
    } else {
      var before, e := es[..|es| - 1], es[|es| - 1];
      PollsAreReads(s, before);
      var r := Run(s, before);
      OkTest(r);
      StepEnds(r, e);
      OkTest(Step(r, e));
      if !Ends(r.test, e) { PollsCount(r.test, e); }
    }
  }

  lemma OkTest(s: Dhv)
    requires Ok(s)
    ensures TestOk(s.test) && (s.test.masterReset ==> s.test.polls < POLLS)
  {
  }

  /** Once the target has been reached - as it is at once when a late skip request lowers it - the next CSR read
  ends the test. */
  lemma ReadEnds(s: Dhv)
    requires Ok(s) && s.test.masterReset && s.test.polls + 1 >= s.test.target
    ensures Finished(Step(s, ReadCsr), s.test.skip)
  {
    hide Step, Ok, Finished;
    StepEnds(s, ReadCsr);
  }

  function Ticks(n: nat): seq<Event> { seq(n, i => Tick) }

  /** Bus silence: the test runs on for as many ticks as the poll hold-off and the fallback still count, and
  ends with the last of them. */
  lemma {:induction false} SilenceEnds(s: Dhv, n: nat)
    requires Ok(s) && s.test.masterReset && n <= s.test.active + s.test.ticks
    ensures var r := Run(s, Ticks(n));
            && Ok(r)
            && (if n < s.test.active + s.test.ticks then
                  r.test.masterReset && r.test.active + r.test.ticks == s.test.active + s.test.ticks - n
                      && r.test.skip == s.test.skip
                else Finished(r, s.test.skip))
    decreases n
  {
    hide Step, Finished;
    if n > 0 {
      SilenceEnds(s, n - 1);
      assert Ticks(n)[..n - 1] == Ticks(n - 1);
      StepEnds(Run(s, Ticks(n - 1)), Tick);
    }
  }

  /** An untouched test ends with the 5000th tick; after any access a silent one ends within 5004. */
  lemma SilenceBound(s: Dhv)
    requires Ok(s) && s.test.masterReset
    ensures s.test.active + s.test.ticks <= POLL_ACTIVE_TICKS + FALLBACK_TICKS
    ensures s.test == STARTED ==> s.test.active + s.test.ticks == FALLBACK_TICKS
    ensures s.test.skip ==> s.test.active + s.test.ticks <= POLL_ACTIVE_TICKS + SKIP_FALLBACK_TICKS
  {
  }

  /** Each code word is valid, marked as diagnostic, and carries its sequence number; the fillers tell whether
  the test was skipped. */
  lemma CodesDecode(skip: bool, k: nat)
    requires k < 8
    ensures var w := Codes(skip)[k];
            && w / 0x8000 == 1 && w / 0x1000 % 8 == 7 && w / 0x100 % 16 == k
            && (k < 6 ==> w % 0x100 == (if skip then 0x83 else 0x81))
            && (k == 6 ==> w % 0x100 == 0x03) && (k == 7 ==> w % 0x100 == 0x01)
  {
    assert CodeWord(skip, k) / 0x100 == 0xF0 + k;
    assert CodeWord(skip, k) / 0x1000 == 0xF;
  }

  // --- the device ------------------------------------------------------------------------------

  class Multiplexer {
    var test: Test
    var control: Control
    var fifo: seq<Word>
    var csrReg: CsrView
    const chans: array<Channel>

    function State(): Dhv
      reads this, chans
    {
      Dhv(test, control, fifo, chans[..], csrReg)
    }

    constructor ()
      ensures fresh(chans) && State() == Reset()
    {
      test, control, fifo := IDLE, QUIET, Codes(false);
      csrReg := CsrView(false, false, false, 0, true, false, false, 0);
      chans := new Channel[LINES](i => DEFAULTS);
      new;
      assert chans[..] == AllDefaults();
    }

    method UpdateCsr()
      modifies this`csrReg
      ensures State() == Update(old(State()))
    {
      csrReg := CsrView(control.txAct, control.txIe, test.diagFail, control.txLine, fifo != [], control.rxIe,
                        test.masterReset, control.channel);
    }

    method RxFifoPush(entry: Word)
      modifies this`fifo
      ensures fifo == Pushed(old(fifo), entry)
    {
      var word := entry;
      if |fifo| >= FIFO_SIZE {
        word := Overrun(entry);
        fifo := fifo[..|fifo| - 1];
      }
      fifo := fifo + [word];
    }

    method SetAllDefaults()
      requires chans.Length == LINES
      modifies chans
      ensures chans[..] == AllDefaults()
    {
      var i := 0;
      while i < LINES
        invariant 0 <= i <= LINES
        invariant forall k :: 0 <= k < i ==> chans[k] == DEFAULTS
      {
        chans[i] := DEFAULTS;
        i := i + 1;
      }
    }

    method LoadSelftestCodes()
      modifies this`fifo
      ensures fifo == Codes(test.skip)
    {
      var filler: Byte := if test.skip then 0x83 else 0x81;
      var code: seq<Byte> := [filler, filler, filler, filler, filler, filler, 0x03, 0x01];
      fifo := [];
      var k := 0;
      while k < 8
        invariant 0 <= k <= 8 && fifo == Codes(test.skip)[..k] && test == old(test)
      {
        var value: int := code[k];
        fifo := fifo + [0x8000 + 0x7000 + 0x100 * k + value];
        k := k + 1;
      }
    }

    method CompleteSelftest()
      requires chans.Length == LINES
      modifies this`test, this`fifo, chans
      ensures State() == Complete(old(State()))
    {
      hide Codes, AllDefaults;
      if !test.masterReset { return; }
      SetAllDefaults();
      LoadSelftestCodes();
      test := test.(diagFail := false);
      test := test.(masterReset := false);
      test := test.(pending := false);
    }

    /** The part common to all accesses: the fallback is held off while a test runs. */
    method NoteAccess()
      modifies this`test
      ensures State() == At(old(State()), Accessed(old(test)))
    {
      if test.masterReset { test := test.(active := POLL_ACTIVE_TICKS); }
    }

    /** The part common to all control register writes: the skip pattern. */
    method NoteWrite(v: Word)
      modifies this`test
      ensures State() == At(old(State()), SkipAsked(Accessed(old(test)), v))
    {
      NoteAccess();
      if test.masterReset && !test.skip && v == SKIP_PATTERN {
        test := test.(skip := true, target := SKIP_POLLS);
        if test.ticks > SKIP_FALLBACK_TICKS { test := test.(ticks := SKIP_FALLBACK_TICKS); }
      }
    }

    method CsrDato(v: CsrWrite)
      requires chans.Length == LINES
      modifies this, chans
      ensures State() == Step(old(State()), WriteCsr(v))
    {
      hide AllDefaults;
      NoteAccess();
      control := control.(rxIe := v.rxIe, txIe := v.txIe, channel := v.channel % 16);
      if v.reset && !test.masterReset {
        test := test.(masterReset := true, diagFail := true);
        control := control.(txAct := false, txLine := 0);
        SetAllDefaults();
        fifo := [];
        test := test.(polls := 0, target := POLLS, ticks := FALLBACK_TICKS, active := 0, pending := true,
            skip := false);
      }
      UpdateCsr();
    }

    method CsrDati()
      requires chans.Length == LINES
      modifies this, chans
      ensures State() == Step(old(State()), ReadCsr)
    {
      hide Complete, View;
      NoteAccess();
      if test.masterReset {
        test := test.(polls := test.polls + 1);
        if test.polls >= test.target {
          CompleteSelftest();
          UpdateCsr();
        }
      }
      if control.txAct {
        control := control.(txAct := false);
        UpdateCsr();
      }
    }

    /** A read of an indexed register, as it was loaded; only its effect on a running test. */
    method IndexedDati()
      modifies this`test
      ensures State() == Step(old(State()), ReadIndexed)
    {
      NoteAccess();
    }

    method RbufDati()
      modifies this
      ensures State() == Step(old(State()), ReadRbuf)
    {
      NoteAccess();
      if fifo != [] { fifo := fifo[1..]; }
      UpdateCsr();
    }

    /** A write of an indexed register of the selected channel, other than LPR; channels above 7 do not exist. */
    method IndexedDato(r: Register, v: Word)
      requires chans.Length == LINES && r != Lpr
      modifies this`test, chans
      ensures State() == Step(old(State()), WriteIndexed(r, v))
    {
      hide StartTransfer;
      NoteWrite(v);
      var c := control.channel;
      if c >= LINES { return; }
      match r
      case Lnctrl => chans[c] := chans[c].(lnctrl := v);
      case TbuffAd1 => chans[c] := chans[c].(tbuffad1 := v);
      case TbuffAd2 => chans[c] := StartTransfer(chans[c], v);
      case TbuffCt => chans[c] := chans[c].(tbuffct := v);
    }

    /** LPR, with its request for a report of the background monitor. */
    method LprDato(v: Word)
      requires chans.Length == LINES
      modifies this, chans
      ensures State() == Step(old(State()), WriteIndexed(Lpr, v))
    {
      hide Pushed;
      NoteWrite(v);
      var c, lpr := control.channel, v;
      if v / 2 % 4 == 1 {
        lpr := v - 2;
        RxFifoPush(0xF000 + c % 8 * 0x100 + 0xC5);
        UpdateCsr();
      }
      if c < LINES { chans[c] := chans[c].(lpr := lpr); }
    }

    /** The receive worker's tick, every 500 microseconds. */
    method WorkerTick()
      requires chans.Length == LINES
      modifies this, chans
      ensures State() == Step(old(State()), Tick)
    {
      hide Complete, View;
      if test.pending {
        if test.active > 0 {
          test := test.(active := test.active - 1);
        } else {
          test := test.(ticks := test.ticks - 1);
          if test.ticks <= 0 {
            CompleteSelftest();
            UpdateCsr();
          }
        }
      }
    }

    method WorkerReceive(line: nat, ch: Byte)
      modifies this
      ensures State() == Step(old(State()), Wire(line, ch))
    {
      hide Pushed;
      RxFifoPush(CharEntry(line, ch));
      UpdateCsr();
    }
  }
}
