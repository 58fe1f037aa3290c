/** The DHV11 as a host uses it around the self-test: what it reads from the FIFO, what it is told of transmissions,
what its register writes leave, and what it sees of a test it asked to skip. */
module Dhv11Channels {
  import opened Dhv11

  // --- entries of the FIFO ------------------------------------------------------------

  /** A received character: data valid, its line, no error. */
  predicate IsChar(w: Word, line: nat, ch: Byte) {
    w / 0x8000 == 1 && w / 0x1000 % 8 == 0 && w / 0x100 % 16 == line % 8 && w % 0x100 == ch
  }

  /** A monitor report: valid, marked as diagnostic, its line, code 305 octal. */
  predicate IsReport(w: Word, line: nat) {
    w / 0x8000 == 1 && w / 0x1000 % 8 == 7 && w / 0x100 % 16 == line % 8 && w % 0x100 == 0xC5
  }

  lemma CharDecodes(line: nat, ch: Byte)
    ensures IsChar(CharEntry(line, ch), line, ch)
  {
    var n := line % 8;
    assert CharEntry(line, ch) / 0x100 == 0x80 + n;
    assert CharEntry(line, ch) / 0x1000 == 8;
  }

  function ReportWord(line: nat): Word { 0xF000 + line % 8 * 0x100 + 0xC5 }

  lemma ReportDecodes(line: nat)
    ensures IsReport(ReportWord(line), line)
  {
    var n := line % 8;
    assert ReportWord(line) / 0x100 == 0xF0 + n;
    assert ReportWord(line) / 0x1000 == 15;
  }

  /** The overrun mark is bit 14; the rest of the entry stays. */
  lemma OverrunDecodes(w: Word)
    ensures Overrun(w) / 0x4000 % 2 == 1 && Overrun(w) % 0x4000 == w % 0x4000 && Overrun(w) / 0x8000 == w / 0x8000
  {
  }

  // --- what the host reads --------------------------------------------------------------

  function Chars(line: nat, bytes: seq<Byte>): (r: seq<Word>)
    ensures |r| == |bytes|
  {
    seq(|bytes|, k requires 0 <= k < |bytes| => CharEntry(line, bytes[k]))
  }

  /** Local loopback wraps what an enabled transmitter sends, echo and remote loopback what an enabled receiver takes.
  */
  predicate Loops(x: Channel) {
    var mode := x.lnctrl / 0x40 % 4;
    (mode == 2 && x.tbuffad2 >= 0x8000) || ((mode == 1 || mode == 3) && x.lnctrl / 4 % 2 == 1)
  }

  /** The entries an event brings: a character from a line, a report asked for, a programmed character or a transfer
  that loops back. */
  function Arriving(s: Dhv, e: Event): seq<Word> {
    match e
    case Wire(line, ch) => [CharEntry(line, ch)]
    case WriteIndexed(r, v) => if r == Lpr && v / 2 % 4 == 1 then [ReportWord(s.control.channel)] else []
    case WriteRbuf(v) =>
      if v >= 0x8000 && s.control.channel < |s.chans| && Loops(s.chans[s.control.channel]) then
        [CharEntry(s.control.channel, v % 0x100)]
      else []
    case XmtDone(line, bytes, wrapped, nextAddr) => if wrapped then Chars(line, bytes) else []
    case _ => []
  }

  /** The events that throw away what waits: a reset that starts a test, the end of a test, a bus reset. */
  predicate Replaces(s: Dhv, e: Event) {
    (e.WriteCsr? && e.v.reset && !s.test.masterReset) || Ends(s.test, e) || e.BusReset?
  }

  /** What they put in its place. */
  function Replacement(s: Dhv, e: Event): seq<Word> {
    if e.BusReset? then Codes(false) else if Ends(s.test, e) then Codes(s.test.skip) else []
  }

  /** A FIFO that holds 256 at most: one more replaces the newest, marked as an overrun. */
  function Filled(fifo: seq<Word>, xs: seq<Word>): seq<Word>
    decreases |xs|
  {
    if xs == [] then fifo
    else if |fifo| < 256 then Filled(fifo + [xs[0]], xs[1..])
    else Filled(fifo[..|fifo| - 1] + [Overrun(xs[0])], xs[1..])
  }

  function Fed(s: Dhv, e: Event): seq<Word> {
    if Replaces(s, e) then Replacement(s, e) else Filled(s.fifo, Arriving(s, e))
  }

  lemma FilledOne(fifo: seq<Word>, w: Word)
    ensures Filled(fifo, [w]) == Pushed(fifo, w) && Filled(fifo, []) == fifo
  {
    assert [w][1..] == [];
    if |fifo| < 256 {
      assert Filled(fifo, [w]) == Filled(fifo + [w], []);
    } else {
      assert Filled(fifo, [w]) == Filled(fifo[..|fifo| - 1] + [Overrun(w)], []);
    }
  }

  lemma {:induction false} FilledMore(fifo: seq<Word>, xs: seq<Word>, w: Word)
    ensures Filled(fifo, xs + [w]) == Pushed(Filled(fifo, xs), w)
    decreases |xs|
  {
    hide Overrun, Pushed;
    if xs == [] {
      assert [] + [w] == [w];
      FilledOne(fifo, w);
    } else {
      assert (xs + [w])[1..] == xs[1..] + [w] && (xs + [w])[0] == xs[0];
      if |fifo| < 256 {
        FilledMore(fifo + [xs[0]], xs[1..], w);
      } else {
        FilledMore(fifo[..|fifo| - 1] + [Overrun(xs[0])], xs[1..], w);
      }
    }
  }

  lemma {:induction false} TransferFills(fifo: seq<Word>, line: nat, bytes: seq<Byte>)
    ensures PushedAll(fifo, line, bytes) == Filled(fifo, Chars(line, bytes))
    decreases |bytes|
  {
    hide Pushed, CharEntry;
    if bytes != [] {
      var k := |bytes| - 1;
      TransferFills(fifo, line, bytes[..k]);
      FilledMore(fifo, Chars(line, bytes[..k]), CharEntry(line, bytes[k]));
      assert Chars(line, bytes[..k]) + [CharEntry(line, bytes[k])] == Chars(line, bytes);
    }
  }

  lemma LoopsIs(x: Channel)
    ensures Loops(x) <==> WrapsBack(x)
  {
  }

  /** What an event does to the FIFO: a read takes the oldest entry, a test's beginning or end replaces all of it, and
  otherwise what arrives goes in at the end. */
  lemma StepFills(s: Dhv, e: Event)
    requires Ok(s)
    ensures var r := Step(s, e);
            r.fifo == if e.ReadRbuf? then (if s.fifo == [] then [] else s.fifo[1..])
                      else Fed(s, e)
  {
    hide Pushed, PushedAll, Filled, AllDefaults, Codes, StartTransfer, CharEntry, Loops, WrapsBack, View, Chars,
        Overrun;
    FilledOne(s.fifo, 0);
    match e
    case Wire(line, ch) => FilledOne(s.fifo, CharEntry(line, ch));
    case WriteIndexed(r, v) => FilledOne(s.fifo, ReportWord(s.control.channel));
    case WriteRbuf(v) =>
      LoopsIs(ChannelAt(s, s.control.channel));
      DefaultNeverWraps();
      FilledOne(s.fifo, CharEntry(s.control.channel, v % 0x100));
    case XmtDone(line, bytes, wrapped, nextAddr) => TransferFills(s.fifo, line, bytes);
    case _ =>
  }

  lemma DefaultNeverWraps()
    ensures !WrapsBack(DEFAULTS)
  {
  }

  function AllRead(s: Dhv, es: seq<Event>): seq<Word>
    decreases |es|
  {
    if es == [] then []
    else
      var r, e := Run(s, es[..|es| - 1]), es[|es| - 1];
      AllRead(s, es[..|es| - 1]) + (if e.ReadRbuf? && r.fifo != [] then [r.fifo[0]] else [])
  }

  /** The entries that came in and were kept. */
  function Kept(s: Dhv, es: seq<Event>): seq<Word>
    decreases |es|
  {
    if es == [] then s.fifo
    else
      var before, e := es[..|es| - 1], es[|es| - 1];
      var kept, r := Kept(s, before), Run(s, before);
      if |r.fifo| > |kept| then kept
      else
        kept[..|kept| - |r.fifo|] + Fed(r, e)
  }

  /** Under every interleaving the host reads the entries kept, in order, each once; those not yet read wait. */
  lemma {:induction false} HostReads(es: seq<Event>)
    ensures AllRead(Reset(), es) + Run(Reset(), es).fifo == Kept(Reset(), es)
  {
    hide Step, Ok, Fed, Reset;
    var s := Reset();
    if es == [] {
      assert [] + s.fifo == s.fifo;
    } else {
      var before, e := es[..|es| - 1], es[|es| - 1];
      var r := Run(s, before);
      HostReads(before);
      RunKeepsOk(before);
      StepFills(r, e);
      var done, fifo := AllRead(s, before), r.fifo;
      if e.ReadRbuf? {
        ReadsBringNothing(r, e);
        OneRead(done, fifo);
      } else {
        NoneRead(done, fifo, Fed(r, e));
      }
    }
  }

  lemma OneRead(done: seq<Word>, fifo: seq<Word>)
    ensures done + (if fifo != [] then [fifo[0]] else []) + (if fifo == [] then [] else fifo[1..])
         == (done + fifo)[..|done + fifo| - |fifo|] + fifo
  {
    if fifo != [] { assert [fifo[0]] + fifo[1..] == fifo; }
  }

  lemma NoneRead(done: seq<Word>, fifo: seq<Word>, fed: seq<Word>)
    ensures done + [] + fed == (done + fifo)[..|done + fifo| - |fifo|] + fed
  {
  }

  lemma ReadsBringNothing(s: Dhv, e: Event)
    requires e.ReadRbuf?
    ensures Fed(s, e) == s.fifo
  {
  }

  // --- what the host is told of transmissions ------------------------------------------------

  /** TX.ACTION after every event: raised, with the line, by a programmed character and by a transfer done, and taken
  down by a read of the CSR and by either reset. */
  lemma StepTells(s: Dhv, e: Event)
    requires Ok(s)
    ensures var r := Step(s, e).control;
            match e
            case WriteRbuf(v) =>
              if v >= 0x8000 then r.txAct && r.txLine == s.control.channel % 8
              else r.txAct == s.control.txAct && r.txLine == s.control.txLine
            case XmtDone(line, bytes, wrapped, nextAddr) => r.txAct && r.txLine == line % 8
            case ReadCsr => !r.txAct && r.txLine == s.control.txLine
            case WriteCsr(v) =>
              if v.reset && !s.test.masterReset then !r.txAct && r.txLine == 0
              else r.txAct == s.control.txAct && r.txLine == s.control.txLine
            case BusReset => !r.txAct && r.txLine == 0
            case _ => r == s.control
    ensures var r := Step(s, e).control;
            match e
            case WriteCsr(v) => r.rxIe == v.rxIe && r.txIe == v.txIe && r.channel == v.channel % 16
            case BusReset => !r.rxIe && !r.txIe && r.channel == 0
            case _ => r.rxIe == s.control.rxIe && r.txIe == s.control.txIe && r.channel == s.control.channel
  {
    hide Pushed, PushedAll, AllDefaults, Codes, StartTransfer, CharEntry, WrapsBack, View;
  }

  // --- channel registers -----------------------------------------------------------------------

  /** What a write of an indexed register makes of the selected channel: the register holds the word, but for the
  report request in LPR and the start bit in the high address word, which read back clear; a start with the
  transmitter on and a count set launches a transfer from the 22-bit address. */
  predicate Written(x: Channel, y: Channel, r: Register, v: Word) {
    match r
    case Lpr => y == x.(lpr := y.lpr) && y.lpr == (if v / 2 % 4 == 1 then v - 2 else v)
    case Lnctrl => y == x.(lnctrl := v)
    case TbuffAd1 => y == x.(tbuffad1 := v)
    case TbuffCt => y == x.(tbuffct := v)
    case TbuffAd2 =>
      var start := v / 0x80 % 2 == 1;
      && y.tbuffad2 == (if start then v - 0x80 else v)
      && (if start && v >= 0x8000 && x.tbuffct > 0 then
            y == x.(tbuffad2 := y.tbuffad2, dmaAddr := v % 0x40 * 0x1_0000 + x.tbuffad1, dmaCount := x.tbuffct,
                    dmaPending := true)
          else y == x.(tbuffad2 := y.tbuffad2))
  }

  /** Every channel register after every event that is not a reset or the end of a test. */
  lemma StepWrites(s: Dhv, e: Event, c: nat)
    requires Ok(s) && c < 8 && !Replaces(s, e)
    ensures var x, y := s.chans[c], Step(s, e).chans[c];
            match e
            case WriteIndexed(r, v) => if c == s.control.channel then Written(x, y, r, v) else y == x
            case XmtTake(line) => y == if c == line then x.(dmaPending := false) else x
            case XmtDone(line, bytes, wrapped, nextAddr) =>
              y == if c == line then x.(dmaCount := 0, tbuffct := 0, dmaAddr := nextAddr) else x
            case _ => y == x
  {
    hide Pushed, PushedAll, AllDefaults, Codes, CharEntry, WrapsBack, View;
  }

  /** A reset, the end of a test or a bus reset leaves every channel as at power-up: 9600 baud, eight bits, the
  transmitter on, the receiver off, no transfer. */
  lemma ReplacedChannels(s: Dhv, e: Event, c: nat)
    requires Ok(s) && c < 8 && Replaces(s, e)
    ensures Step(s, e).chans[c] == Channel(0xDD18, 0, 0, 0x8000, 0, 0, 0, false)
  {
    hide Codes, View;
  }

  // --- a test the host asked to skip -------------------------------------------------------------

  /** Some register but the CSR was written with the skip pattern. */
  predicate Asked(es: seq<Event>) {
    es != [] && (Asked(es[..|es| - 1])
                 || es[|es| - 1] == WriteRbuf(0x5555)
                 || (es[|es| - 1].WriteIndexed? && es[|es| - 1].w == 0x5555))
  }

  /** While a test runs it is a short one exactly if the host has asked for that since it began, and its target is the
  one that goes with it; so the codes it will leave tell the host exactly that. */
  lemma {:induction false} SkipTold(s: Dhv, es: seq<Event>)
    requires Ok(s) && s.test == STARTED && StillTesting(s, es)
    ensures var t := Run(s, es).test;
            (t.skip <==> Asked(es)) && t.target == (if Asked(es) then 12 * 220 else 800 * 220)
  {
    hide Step, Ok, TestOk;
    PollsAreReads(s, es);
    if es != [] {
      var before, e := es[..|es| - 1], es[|es| - 1];
      SkipTold(s, before);
      PollsAreReads(s, before);
      StepEnds(Run(s, before), e);
      EndsStops(Run(s, before), e);
      AskedStep(Run(s, before), e);
    }
  }

  lemma AskedStep(s: Dhv, e: Event)
    requires s.test.masterReset && !Ends(s.test, e) && !e.BusReset?
    ensures var t := TestAfter(s.test, e);
            var asks := e == WriteRbuf(0x5555) || (e.WriteIndexed? && e.w == 0x5555);
            && (t.skip <==> s.test.skip || asks)
            && t.target == (if asks && !s.test.skip then 12 * 220 else s.test.target)
  {
  }

  /** Every access during a test holds its fallback off for four ticks; a short test has at most forty left to it. */
  lemma AccessHolds(s: Dhv, e: Event)
    requires Ok(s) && s.test.masterReset && !Ends(s.test, e)
    requires e.WriteCsr? || e.ReadCsr? || e.WriteRbuf? || e.ReadRbuf? || e.WriteIndexed? || e.ReadIndexed?
    ensures Step(s, e).test.active == 4 && (Step(s, e).test.skip ==> Step(s, e).test.ticks <= 40)
  {
    hide Step;
    StepEnds(s, e);
  }

  /** A test begun by a host: the longest wait and the count of polls, nothing of the last one left. */
  lemma ResetBegins(s: Dhv, v: CsrWrite)
    requires Ok(s) && !s.test.masterReset && v.reset
    ensures var r := Step(s, WriteCsr(v));
            r.test == Test(true, true, true, false, 0, 800 * 220, 5000, 0) && r.fifo == []
  {
    hide AllDefaults, View;
  }
}
