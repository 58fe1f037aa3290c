/** The DZ11's receive side over its lock-held sections: what the host reads from the silo, when the alarm rises, and
what the register writes leave. */
module Dz11Silo {
  import opened Dz11

  // --- what comes in and what goes out -------------------------------------------------

  /** A null with a framing error for every line in `rising` with its receiver on, in the order of the lines; odd parity
  makes it a parity error as well. */
  function Nulls(s: Dz, rising: set<nat>, i: nat): seq<Entry>
    decreases |s.per.rxEnabled| - i
  {
    if i >= |s.per.rxEnabled| then []
    else
      (if i in rising && s.per.rxEnabled[i] then
         [Entry(i, 0, false, true, IsOn(s.per.parityEnable, i) && IsOn(s.per.oddParity, i))]
       else [])
      + Nulls(s, rising, i + 1)
  }

  /** The characters a step brings to the receive side: from a line, or wrapped back in maintenance mode, there new
  breaks or else the character loaded. */
  function Arriving(s: Dz, e: Event): seq<Entry> {
    match e
    case Receive(line, ch) => if line < |s.per.txEnabled| then [Entry(line, ch, false, false, false)] else []
    case WriteTdr(ch, breaks) =>
      if !s.csr.maint then []
      else if breaks - s.per.txBreak != {} then Nulls(s, breaks - s.per.txBreak, 0)
      else if IsOn(s.per.rxEnabled, s.csr.tline) then [Entry(s.csr.tline, ch, false, false, false)]
      else []
    case _ => []
  }

  /** Master clear, the scanner turned off, a bus reset: the silo is emptied. */
  predicate Empties(s: Dz, e: Event) {
    (e.WriteCsr? && (e.v.clr || (s.csr.mse && !e.v.mse))) || e.BusReset?
  }

  /** What a read of RBUF returns. */
  function ReadOut(s: Dz, e: Event): seq<Entry> { if e.ReadRbuf? then s.rcv.rbufReg else [] }

  /** A silo that holds 64 at most: one more replaces the newest, marked as an overrun. */
  function Filled(silo: seq<Entry>, xs: seq<Entry>): seq<Entry>
    decreases |xs|
  {
    if xs == [] then silo
    else if |silo| < 64 then Filled(silo + [xs[0]], xs[1..])
    else Filled(silo[..|silo| - 1] + [xs[0].(overrun := true)], xs[1..])
  }

  /** The receive side between two states: silo, alarm counter and alarm after `xs` came in. */
  predicate Took(s: Dz, r: Dz, xs: seq<Entry>) {
    && r.rcv.silo == Filled(s.rcv.silo, xs) && r.rcv.alarm == (s.rcv.alarm + |xs|) % 16
    && (r.csr.sa <==> s.csr.sa || (s.csr.sae && s.rcv.alarm + |xs| >= 16))
    && r.csr.sae == s.csr.sae && r.per == s.per && r.csr.maint == s.csr.maint
  }

  lemma PushTakes(s: Dz, line: nat, ch: Byte, framing: bool, parity: bool)
    requires |s.rcv.silo| <= 64 && s.rcv.alarm < 16
    ensures var r := Push(s, line, ch, framing, parity);
            Took(s, r, [Entry(line, ch, false, framing, parity)]) && |r.rcv.silo| <= 64 && r.rcv.alarm < 16
  {
    var x := Entry(line, ch, false, framing, parity);
    assert [x][1..] == [];
    if |s.rcv.silo| < 64 {
      assert Filled(s.rcv.silo, [x]) == Filled(s.rcv.silo + [x], []);
    } else {
      assert Filled(s.rcv.silo, [x]) == Filled(s.rcv.silo[..63] + [x.(overrun := true)], []);
    }
  }

  lemma {:induction false} FilledJoin(silo: seq<Entry>, xs: seq<Entry>, ys: seq<Entry>)
    requires |silo| <= 64
    ensures Filled(silo, xs + ys) == Filled(Filled(silo, xs), ys) && |Filled(silo, xs)| <= 64
    decreases |xs|
  {
    if xs == [] {
      assert [] + ys == ys;
    } else {
      assert (xs + ys)[1..] == xs[1..] + ys;
      if |silo| < 64 {
        FilledJoin(silo + [xs[0]], xs[1..], ys);
      } else {
        FilledJoin(silo[..|silo| - 1] + [xs[0].(overrun := true)], xs[1..], ys);
      }
    }
  }

  lemma TookTwice(s: Dz, m: Dz, r: Dz, xs: seq<Entry>, ys: seq<Entry>)
    requires |s.rcv.silo| <= 64 && s.rcv.alarm < 16 && |xs| <= 1 && Took(s, m, xs) && Took(m, r, ys)
    ensures Took(s, r, xs + ys)
  {
    hide Filled;
    FilledJoin(s.rcv.silo, xs, ys);
    var a, n := s.rcv.alarm, |ys|;
    if |xs| == 1 { if a == 15 { ModAdd(n); } }
  }

  lemma ModAdd(n: nat)
    ensures n % 16 == (16 + n) % 16
  {
  }

  lemma {:induction false} WrapTakes(s: Dz, t: Dz, rising: set<nat>, i: nat)
    requires |t.rcv.silo| <= 64 && t.rcv.alarm < 16 && t.per == s.per
    ensures Took(t, WrapBreaks(t, rising, i), Nulls(t, rising, i)) && Nulls(t, rising, i) == Nulls(s, rising, i)
    decreases |s.per.rxEnabled| - i
  {
    hide Push, Filled, Took;
    if i >= |t.per.rxEnabled| {
      TookNothing(t);
    } else {
      var parity := IsOn(t.per.parityEnable, i) && IsOn(t.per.oddParity, i);
      if i in rising && t.per.rxEnabled[i] {
        var p := Push(t, i, 0, true, parity);
        PushTakes(t, i, 0, true, parity);
        TookKeeps(t, p, [Entry(i, 0, false, true, parity)]);
        WrapTakes(s, p, rising, i + 1);
        TookTwice(t, p, WrapBreaks(p, rising, i + 1), [Entry(i, 0, false, true, parity)], Nulls(p, rising, i + 1));
        WrapTakes(s, t, rising, i + 1);
      } else {
        WrapTakes(s, t, rising, i + 1);
        assert [] + Nulls(t, rising, i + 1) == Nulls(t, rising, i + 1);
      }
    }
  }

  lemma TookNothing(s: Dz)
    requires s.rcv.alarm < 16
    ensures Took(s, s, [])
  {
  }

  lemma TookKeeps(s: Dz, r: Dz, xs: seq<Entry>)
    requires Took(s, r, xs)
    ensures r.per == s.per
  {
  }

  // --- steps ------------------------------------------------------------------------

  /** Scans and updates leave the receive side alone. */
  lemma ScanSpares(s: Dz)
    ensures var r := Update(Scan(s)); SameReceive(s, r) && SameReceive(s, Scan(s))
  {
    hide Next;
  }

  predicate SameReceive(s: Dz, r: Dz) {
    r.rcv == s.rcv && r.per == s.per && r.csr == s.csr.(tline := r.csr.tline, trdy := r.csr.trdy)
  }

  lemma TookOn(s: Dz, m: Dz, r: Dz, xs: seq<Entry>)
    requires Took(s, m, xs) && SameReceive(m, r)
    ensures Took(s, r, xs)
  {
  }

  lemma LoadTakes(s: Dz, ch: Byte, breaks: set<nat>)
    requires Ok(s)
    ensures var e := EvalTdr(s, ch, breaks);
            && e.rcv.silo == Filled(s.rcv.silo, Arriving(s, WriteTdr(ch, breaks)))
            && e.rcv.alarm == (s.rcv.alarm + |Arriving(s, WriteTdr(ch, breaks))|) % 16
            && (e.csr.sa <==> s.csr.sa || (s.csr.sae && s.rcv.alarm + |Arriving(s, WriteTdr(ch, breaks))| >= 16))
  {
    hide Push, Filled, View, Front;
    var s1, rising := s.(per := s.per.(txBreak := breaks)), breaks - s.per.txBreak;
    WrapTakes(s1, s1, rising, 0);
    NullsSame(s, s1, rising, 0);
    PushTakes(s1, s.csr.tline, ch, false, false);
    TookNothing(s);
  }

  lemma NullsSame(s: Dz, t: Dz, rising: set<nat>, i: nat)
    requires t.per == s.per.(txBreak := t.per.txBreak)
    ensures Nulls(t, rising, i) == Nulls(s, rising, i)
    decreases |s.per.rxEnabled| - i
  {
  }

  /** What a step does to the receive side: a read of RBUF takes the oldest entry and the alarm off, a clear empties the
  silo, and otherwise what arrives goes in at the end and the alarm rises with every sixteenth character since the
  last read, if it is enabled. */
  lemma StepReceives(s: Dz, e: Event)
    requires Ok(s)
    ensures var r, xs := Step(s, e), Arriving(s, e);
            if e.ReadRbuf? then
              r.rcv.silo == (if s.rcv.silo == [] then [] else s.rcv.silo[1..]) && r.rcv.alarm == 0 && !r.csr.sa
            else if Empties(s, e) then r.rcv.silo == [] && r.rcv.alarm == 0 && !r.csr.sa
            else
              && r.rcv.silo == Filled(s.rcv.silo, xs) && r.rcv.alarm == (s.rcv.alarm + |xs|) % 16
              && (r.csr.sa <==> s.csr.sa || (s.csr.sae && s.rcv.alarm + |xs| >= 16))
  {
    hide Update, Scan, Push, Filled, View, Front, EvalTdr;
    TookNothing(s);
    assert Filled(s.rcv.silo, []) == s.rcv.silo by { NothingFilled(s.rcv.silo); }
    match e
    case WriteCsr(v) => ScanSpares(EvalCsr(s, v));
    case WriteTcr(enabled) => ScanSpares(s.(per := s.per.(txEnabled := enabled)));
    case WriteTdr(ch, breaks) =>
      LoadTakes(s, ch, breaks);
      ScanSpares(EvalTdr(s, ch, breaks));
    case XmtTurn => TurnSpares(s);
    case Receive(line, ch) =>
      if line < |s.per.txEnabled| {
        PushTakes(s, line, ch, false, false);
        UpdateSpares(Push(s, line, ch, false, false));
      }
    case ReadRbuf => ReadTakes(s);
    case BusReset => ResetEmpties(s);
    case _ =>
  }

  lemma NothingFilled(silo: seq<Entry>)
    ensures Filled(silo, []) == silo
  {
  }

  lemma UpdateSpares(s: Dz)
    ensures SameReceive(s, Update(s))
  {
  }

  lemma ReadTakes(s: Dz)
    ensures var r := OnRbufRead(s);
            r.rcv.silo == (if s.rcv.silo == [] then [] else s.rcv.silo[1..]) && r.rcv.alarm == 0 && !r.csr.sa
  {
  }

  lemma ResetEmpties(s: Dz)
    ensures Reset(s).rcv.silo == [] && Reset(s).rcv.alarm == 0 && !Reset(s).csr.sa
  {
  }

  lemma TurnSpares(s: Dz)
    ensures SameReceive(s, OnXmtTurn(s))
  {
    hide Update, Scan;
    ScanSpares(s);
    var r := Scan(s);
    UpdateSpares(r.(xmt := r.xmt.(tdrPending := false), csr := r.csr.(trdy := false)));
  }

  // --- runs --------------------------------------------------------------------------

  function AllRead(n: nat, es: seq<Event>): seq<Entry>
    decreases |es|
  {
    if es == [] then []
    else AllRead(n, es[..|es| - 1]) + ReadOut(Run(Initial(n), es[..|es| - 1]), es[|es| - 1])
  }

  /** The characters that arrived and were kept: a clear takes back those still waiting, an arrival on a full silo takes
  the place of the newest. */
  function Kept(n: nat, es: seq<Event>): seq<Entry>
    decreases |es|
  {
    if es == [] then []
    else
      var before, e := es[..|es| - 1], es[|es| - 1];
      var kept, s := Kept(n, before), Run(Initial(n), before);
      if |s.rcv.silo| > |kept| then kept
      else
        var read := kept[..|kept| - |s.rcv.silo|];
        if Empties(s, e) then read else read + Filled(s.rcv.silo, Arriving(s, e))
  }

  /** Under every interleaving the host reads the characters kept, in order, each once; those not yet read wait in the
  silo. */
  lemma {:induction false} SiloFifo(n: nat, es: seq<Event>)
    ensures AllRead(n, es) + Run(Initial(n), es).rcv.silo == Kept(n, es)
  {
    hide Step, Ok, Filled, Arriving, Empties;
    if es != [] {
      var before, e := es[..|es| - 1], es[|es| - 1];
      var s := Run(Initial(n), before);
      SiloFifo(n, before);
      RunKeepsOk(n, before);
      StepReceives(s, e);
      RbufReads(s);
      var done, silo := AllRead(n, before), s.rcv.silo;
      assert (done + silo)[..|done + silo| - |silo|] == done;
      if e.ReadRbuf? {
        ReadsBringNothing(s, e);
        if silo != [] { assert done + ([silo[0]] + silo[1..]) == done + [silo[0]] + silo[1..]; }
      } else {
        assert done + [] == done;
      }
    }
  }

  lemma RbufReads(s: Dz)
    requires Ok(s)
    ensures s.rcv.rbufReg == if s.rcv.silo == [] then [] else [s.rcv.silo[0]]
  {
  }

  lemma ReadsBringNothing(s: Dz, e: Event)
    requires e.ReadRbuf?
    ensures Arriving(s, e) == [] && !Empties(s, e) && Filled(s.rcv.silo, []) == s.rcv.silo
  {
  }

  function AllArrived(n: nat, es: seq<Event>): seq<Entry>
    decreases |es|
  {
    if es == [] then []
    else AllArrived(n, es[..|es| - 1]) + Arriving(Run(Initial(n), es[..|es| - 1]), es[|es| - 1])
  }

  /** No clear comes, and nothing arrives that the silo has no room for. */
  predicate Roomy(n: nat, es: seq<Event>)
    decreases |es|
  {
    es == []
    || (&& Roomy(n, es[..|es| - 1])
        && var s, e := Run(Initial(n), es[..|es| - 1]), es[|es| - 1];
           !Empties(s, e) && |s.rcv.silo| + |Arriving(s, e)| <= 64)
  }

  lemma {:induction false} RoomFills(silo: seq<Entry>, xs: seq<Entry>)
    requires |silo| + |xs| <= 64
    ensures Filled(silo, xs) == silo + xs
    decreases |xs|
  {
    if xs == [] {
      assert silo + [] == silo;
    } else {
      var more, rest := silo + [xs[0]], xs[1..];
      RoomFills(more, rest);
      assert more + rest == silo + xs;
    }
  }

  /** With room for all of them, the characters read and those waiting are exactly those that arrived, in order. */
  lemma {:induction false} AllReceived(n: nat, es: seq<Event>)
    requires Roomy(n, es)
    ensures AllRead(n, es) + Run(Initial(n), es).rcv.silo == AllArrived(n, es)
  {
    hide Step, Filled, Arriving, Empties;
    SiloFifo(n, es);
    KeptAll(n, es);
  }

  lemma {:induction false} KeptAll(n: nat, es: seq<Event>)
    requires Roomy(n, es)
    ensures Kept(n, es) == AllArrived(n, es)
  {
    hide Step, Filled, Arriving, Empties;
    if es != [] {
      var before, e := es[..|es| - 1], es[|es| - 1];
      var s := Run(Initial(n), before);
      KeptAll(n, before);
      SiloFifo(n, before);
      RoomFills(s.rcv.silo, Arriving(s, e));
      var kept, silo := Kept(n, before), s.rcv.silo;
      assert kept[|kept| - |silo|..] == silo;
      assert kept[..|kept| - |silo|] + (silo + Arriving(s, e)) == kept + Arriving(s, e);
    }
  }

  // --- register writes -----------------------------------------------------------------

  /** What a CSR write leaves: the bits written, or after master clear none, with the silo empty and no line enabled or
  in break; the line parameters stay. */
  lemma CsrWritten(s: Dz, v: CsrWrite)
    requires Ok(s)
    ensures var r := Step(s, WriteCsr(v));
            && (v.clr ==>
                  && !r.csr.tie && !r.csr.sae && !r.csr.sa && !r.csr.rie && !r.csr.mse && !r.csr.maint && !r.csr.trdy
                  && r.csr.tline == 0 && r.rcv.silo == [] && !r.xmt.tdrPending && r.per.txBreak == {}
                  && forall i :: 0 <= i < |r.per.txEnabled| ==> !r.per.txEnabled[i])
            && (!v.clr ==>
                  && r.csr.tie == v.tie && r.csr.sae == v.sae && r.csr.rie == v.rie && r.csr.mse == v.mse
                  && r.csr.maint == v.maint && r.per == s.per && r.xmt == s.xmt)
            && r.per.rxEnabled == s.per.rxEnabled && r.per.parityEnable == s.per.parityEnable
            && r.per.oddParity == s.per.oddParity
  {
    hide Update, View, Front, Next;
    ScanSpares(EvalCsr(s, v));
    ScanKeeps(EvalCsr(s, v));
    UpdateKeeps(Scan(EvalCsr(s, v)));
    if v.clr { ClearedScan(s); }
    XmtSpared(EvalCsr(s, v));
  }

  lemma ClearedScan(s: Dz)
    ensures var c := Cleared(s); Update(Scan(c)).csr == c.csr
  {
    hide Next, View;
  }

  lemma XmtSpared(s: Dz)
    ensures Update(Scan(s)).xmt == s.xmt
  {
    hide Next, View;
  }

  /** A line parameter write reaches the three parameters of its line, a TCR write every enable bit; a load in
  maintenance mode or not takes the break bits; nothing else of the lines changes. */
  lemma LinesWritten(s: Dz, e: Event)
    requires Ok(s) && !e.WriteCsr? && !e.BusReset?
    ensures var r := Step(s, e);
            match e
            case WriteLpr(line, on, parity, odd) =>
              && r == s.(per := r.per) && r.per.txEnabled == s.per.txEnabled && r.per.txBreak == s.per.txBreak
              && |r.per.rxEnabled| == |r.per.parityEnable| == |r.per.oddParity| == |s.per.rxEnabled|
              && forall i :: 0 <= i < |s.per.rxEnabled| ==>
                   && r.per.rxEnabled[i] == (if i == line then on else s.per.rxEnabled[i])
                   && r.per.parityEnable[i] == (if i == line then parity else s.per.parityEnable[i])
                   && r.per.oddParity[i] == (if i == line then odd else s.per.oddParity[i])
            case WriteTcr(enabled) => |enabled| == |s.per.txEnabled| ==> r.per == s.per.(txEnabled := enabled)
            case WriteTdr(ch, breaks) => r.per == s.per.(txBreak := breaks)
            case _ => r.per == s.per
  {
    hide Update, Scan, Push, View, Front, EvalTdr;
    match e
    case WriteTcr(enabled) => ScanSpares(s.(per := s.per.(txEnabled := enabled)));
    case WriteTdr(ch, breaks) =>
      ScanSpares(EvalTdr(s, ch, breaks));
      LoadSpares(s, ch, breaks);
    case XmtTurn => TurnSpares(s);
    case Receive(line, ch) =>
      if line < |s.per.txEnabled| {
        PushKeeps(s, line, ch, false, false);
        UpdateSpares(Push(s, line, ch, false, false));
      }
    case ReadRbuf => ReadSpares(s);
    case _ =>
  }

  lemma ReadSpares(s: Dz)
    ensures OnRbufRead(s).per == s.per
  {
  }

  lemma LoadSpares(s: Dz, ch: Byte, breaks: set<nat>)
    requires Ok(s)
    ensures EvalTdr(s, ch, breaks).per == s.per.(txBreak := breaks)
  {
    hide Push, View, Front;
    var s1 := s.(per := s.per.(txBreak := breaks));
    WrapKeeps(s1, breaks - s.per.txBreak, 0);
    PushKeeps(s1, s.csr.tline, ch, false, false);
  }
}
