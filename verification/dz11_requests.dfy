/** The DZ11's two interrupt requests over its lock-held sections: when they are made, and until when they stand. */
module Dz11Requests {
  import opened Dz11

  /** The transmitter's level: its condition, held off while the receiver's stands. */
  predicate XmtLevel(s: Dz) { s.csr.tie && s.csr.trdy && !(s.csr.rie && s.rcv.silo != []) }

  predicate RcvLevel(s: Dz) { s.csr.rie && s.rcv.silo != [] }

  /** A request made by a level that stands: it was outstanding, or the level has risen. */
  predicate Follows(request: bool, was: bool, level: bool, next: bool) {
    next <==> level && (request || !was)
  }

  /** Both requests from one state to another; `again` says that the transmitter's level fell and rose between. */
  predicate Edges(s: Dz, r: Dz, again: bool) {
    && r.bus.rcvLevel == RcvLevel(r) && r.bus.xmtLevel == XmtLevel(r)
    && Follows(s.bus.rcvRequest, s.bus.rcvLevel, RcvLevel(r), r.bus.rcvRequest)
    && Follows(s.bus.xmtRequest, s.bus.xmtLevel && !again, XmtLevel(r), r.bus.xmtRequest)
  }

  lemma UpdateEdges(s: Dz)
    requires RequestsOk(s)
    ensures Edges(s, Update(s), false) && RequestsOk(Update(s)) && SameCore(s, Update(s))
  {
  }

  /** One update after another, with the same receiver condition in between. */
  lemma EdgesJoin(s: Dz, m: Dz, r: Dz, again: bool)
    requires Edges(s, m, false) && Edges(m, r, false) && RcvLevel(m) == RcvLevel(r)
    requires XmtLevel(m) == XmtLevel(r) || !XmtLevel(m)
    requires again <==> !XmtLevel(m)
    ensures Edges(s, r, again)
  {
  }

  /** The scan over a state whose levels may be out of date: at most a drop and a presentation. */
  lemma SettleEdges(s: Dz)
    requires RequestsOk(s)
    ensures RequestsOk(Settle(s)) && Settle(s) == s.(csr := Settle(s).csr, bus := Settle(s).bus)
    ensures if Stale(s) then Edges(s, Settle(s), false) && !Settle(s).csr.trdy else Settle(s) == s
    ensures Settle(s).csr == s.csr.(trdy := Settle(s).csr.trdy)
  {
    hide Update;
    UpdateEdges(s.(csr := s.csr.(trdy := false)));
  }

  lemma ChooseEdges(s: Dz)
    requires RequestsOk(s)
    ensures var r := Choose(s);
            && RequestsOk(r) && (r != s ==> Edges(s, r, false) && !s.csr.trdy && r.csr.trdy)
            && RcvLevel(r) == RcvLevel(s)
  {
    hide Update, Next;
    var i := Next(s.per.txEnabled, s.csr.tline);
    UpdateEdges(s.(csr := s.csr.(tline := i, trdy := true)));
  }

  /** A section that scans and updates. */
  lemma ScanUpdateEdges(s: Dz)
    requires RequestsOk(s) && (Stale(s) ==> !s.bus.xmtLevel || !Scan(s).csr.trdy)
    ensures Edges(s, Update(Scan(s)), false)
  {
    hide Update, Settle, Choose, Stale;
    SettleEdges(s);
    ChooseEdges(Settle(s));
    UpdateEdges(Scan(s));
  }

  /** A state no update is due in. */
  lemma StillEdges(s: Dz, r: Dz)
    requires RegistersOk(s) && RequestsOk(s) && r.bus == s.bus
    requires RcvLevel(r) == RcvLevel(s) && XmtLevel(r) == XmtLevel(s)
    ensures Edges(s, r, false)
  {
  }

  /** Edges depend on the bus side of the first state only. */
  lemma SameBus(s: Dz, t: Dz, r: Dz, again: bool)
    requires Edges(t, r, again) && s.bus == t.bus
    ensures Edges(s, r, again)
  {
  }

  // --- steps ------------------------------------------------------------------------

  /** The line TRDY is shown for is disabled: TRDY falls, and rises again if another line is enabled. */
  predicate Reselects(s: Dz, e: Event) {
    e.WriteTcr? && |e.enabled| == |s.per.txEnabled| && s.csr.trdy && !IsOn(e.enabled, s.csr.tline)
  }

  lemma CsrEdges(s: Dz, v: CsrWrite)
    requires Ok(s)
    ensures Edges(s, OnCsrWrite(s, v), false)
  {
    hide Update, Scan, Front, View;
    var e := EvalCsr(s, v);
    CsrReady(s, v);
    assert e.bus == s.bus;
    if Stale(e) { StoppedScan(e); }
    ScanUpdateEdges(e);
    SameBus(s, e, OnCsrWrite(s, v), false);
  }

  lemma StoppedScan(s: Dz)
    requires !s.csr.mse && s.csr.trdy
    ensures !Scan(s).csr.trdy
  {
    hide Next;
  }

  lemma TdrEdges(s: Dz, ch: Byte, breaks: set<nat>)
    requires Ok(s)
    ensures Edges(s, OnTdrWrite(s, ch, breaks), false)
  {
    hide Update, Scan, Front, View, EvalTdr;
    var e := EvalTdr(s, ch, breaks);
    TdrReady(s, ch, breaks);
    TdrSame(s, ch, breaks);
    ScanUpdateEdges(e);
    SameBus(s, e, OnTdrWrite(s, ch, breaks), false);
  }

  lemma TdrSame(s: Dz, ch: Byte, breaks: set<nat>)
    requires Ok(s)
    ensures var e := EvalTdr(s, ch, breaks); e.bus == s.bus && !Stale(e)
  {
    hide Update, Front, View, Push;
    var s1 := s.(per := s.per.(txBreak := breaks));
    WrapKeeps(s1, breaks - s.per.txBreak, 0);
    PushKeeps(s1, s.csr.tline, ch, false, false);
  }

  lemma TcrEdges(s: Dz, enabled: seq<bool>)
    requires Ok(s) && |enabled| == |s.per.txEnabled|
    ensures Edges(s, OnTcrWrite(s, enabled), Reselects(s, WriteTcr(enabled)))
  {
    hide Update, Settle, Choose, Front, View;
    var e := s.(per := s.per.(txEnabled := enabled));
    var m := Settle(e);
    SettleEdges(e);
    ChooseEdges(m);
    StillEdges(s, e);
    if Stale(e) {
      SameBus(s, e, m, false);
      if Choose(m) == m { StillSelected(s, m); } else { EdgesJoin(s, m, Choose(m), true); }
    } else if Choose(m) != m {
      SameBus(s, m, Choose(m), false);
    }
  }

  /** A level that has fallen and not risen again. */
  lemma StillSelected(s: Dz, m: Dz)
    requires Edges(s, m, false) && !XmtLevel(m)
    ensures Edges(s, m, true)
  {
  }

  lemma XmtTurnEdges(s: Dz)
    requires Ok(s)
    ensures Edges(s, OnXmtTurn(s), false)
  {
    hide Update, Settle, Choose, Front, View;
    SettleEdges(s);
    ChooseEdges(s);
    var r := Scan(s);
    StillEdges(s, s);
    if s.xmt.tdrPending {
      var t := s.(xmt := s.xmt.(tdrPending := false), csr := s.csr.(trdy := false));
      BusyStays(s);
      UpdateEdges(t);
      SameBus(s, t, Update(t), false);
    } else {
      TurnIsScan(s);
    }
  }

  lemma BusyStays(s: Dz)
    requires s.xmt.tdrPending && !Stale(s)
    ensures Scan(s) == s
  {
    hide Next, Update;
  }

  lemma TurnIsScan(s: Dz)
    requires !s.xmt.tdrPending
    ensures OnXmtTurn(s) == Scan(s)
  {
    hide Next, Update;
    ScanKeeps(s);
  }

  /** Every step but a grant makes the receiver's request exactly when its condition rises, the transmitter's
  exactly when its level rises, keeps either while its level stands, and withdraws it when the level falls. */
  lemma StepRequests(s: Dz, e: Event)
    requires Ok(s) && !e.GrantRcv? && !e.GrantXmt?
    ensures Edges(s, Step(s, e), Reselects(s, e))
  {
    hide OnCsrWrite, OnTdrWrite, OnXmtTurn, OnTcrWrite, Update, Front, View, Push, Reset;
    match e
    case WriteCsr(v) => CsrEdges(s, v);
    case WriteLpr(line, rxOn, penable, odd) => StillEdges(s, Step(s, e));
    case ReadRbuf =>
      var silo := if s.rcv.silo == [] then [] else s.rcv.silo[1..];
      var t := s.(rcv := s.rcv.(silo := silo, alarm := 0, rbufReg := Front(silo)), csr := s.csr.(sa := false));
      UpdateEdges(t);
      SameBus(s, t, Update(t), false);
    case WriteTcr(enabled) =>
      if |enabled| == |s.per.txEnabled| { TcrEdges(s, enabled); } else { TcrRefused(s, enabled); }
    case WriteTdr(ch, breaks) => TdrEdges(s, ch, breaks);
    case XmtTurn => XmtTurnEdges(s);
    case Receive(line, ch) =>
      if line < |s.per.txEnabled| {
        PushKeeps(s, line, ch, false, false);
        var p := Push(s, line, ch, false, false);
        UpdateEdges(p);
        SameBus(s, p, Update(p), false);
      } else {
        StillEdges(s, s);
      }
    case BusReset => ResetEdges(s);
  }

  lemma TcrRefused(s: Dz, enabled: seq<bool>)
    requires Ok(s) && |enabled| != |s.per.txEnabled|
    ensures Edges(s, OnTcrWrite(s, enabled), false)
  {
    StillEdges(s, s);
  }

  lemma ResetEdges(s: Dz)
    requires Ok(s)
    ensures Edges(s, Reset(s), false)
  {
  }

  // --- runs -----------------------------------------------------------------------------

  /** The receiver's level stands, and no grant has come since it last rose. */
  predicate RcvDue(n: nat, es: seq<Event>)
    decreases |es|
  {
    && es != [] && RcvLevel(Run(Initial(n), es)) && !es[|es| - 1].GrantRcv?
    && (!RcvLevel(Run(Initial(n), es[..|es| - 1])) || RcvDue(n, es[..|es| - 1]))
  }

  /** The same of the transmitter's level, which also falls and rises when another line is selected. */
  predicate XmtDue(n: nat, es: seq<Event>)
    decreases |es|
  {
    && es != [] && XmtLevel(Run(Initial(n), es)) && !es[|es| - 1].GrantXmt?
    && var s := Run(Initial(n), es[..|es| - 1]);
       !XmtLevel(s) || Reselects(s, es[|es| - 1]) || XmtDue(n, es[..|es| - 1])
  }

  lemma LevelsRead(s: Dz)
    requires Ok(s)
    ensures s.bus.rcvLevel == RcvLevel(s) && s.bus.xmtLevel == XmtLevel(s) && RequestsOk(s)
  {
  }

  /** Under every interleaving each request is outstanding exactly while its level stands and no grant has come
  since the level last rose. */
  lemma {:induction false} RequestsExact(n: nat, es: seq<Event>)
    ensures var s := Run(Initial(n), es);
            (s.bus.rcvRequest <==> RcvDue(n, es)) && (s.bus.xmtRequest <==> XmtDue(n, es))
  {
    hide Step, Ok, RequestsOk;
    if es == [] {
    } else {
      var before, e := es[..|es| - 1], es[|es| - 1];
      var s := Run(Initial(n), before);
      RequestsExact(n, before);
      RunKeepsOk(n, before);
      RunKeepsOk(n, es);
      LevelsRead(s);
      LevelsRead(Step(s, e));
      RequestNeedsLevel(s);
      if e.GrantRcv? || e.GrantXmt? { GrantTakes(s, e); } else { StepRequests(s, e); }
    }
  }

  lemma RequestNeedsLevel(s: Dz)
    requires RequestsOk(s)
    ensures (s.bus.rcvRequest ==> s.bus.rcvLevel) && (s.bus.xmtRequest ==> s.bus.xmtLevel)
  {
  }

  /** A grant takes its own request and nothing else. */
  lemma GrantTakes(s: Dz, e: Event)
    requires e.GrantRcv? || e.GrantXmt?
    ensures var r := Step(s, e);
            && r.bus.rcvRequest == (s.bus.rcvRequest && !e.GrantRcv?)
            && r.bus.xmtRequest == (s.bus.xmtRequest && !e.GrantXmt?)
            && RcvLevel(r) == RcvLevel(s) && XmtLevel(r) == XmtLevel(s)
  {
  }

  /** A load that wraps in maintenance mode takes TRDY away and gives it back within one section: the level never
  falls, so a transmit request granted before is not made again. */
  lemma WrapLoadSilent(s: Dz, ch: Byte)
    requires Ok(s) && XmtLevel(s) && s.csr.maint && !s.bus.xmtRequest
    ensures !Step(s, WriteTdr(ch, s.per.txBreak)).bus.xmtRequest
  {
    hide Step, Ok;
    LevelsRead(s);
    StepRequests(s, WriteTdr(ch, s.per.txBreak));
  }
}
