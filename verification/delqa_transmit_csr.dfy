/** What a DELQA transmit walk leaves in the CSR, and the interrupt it asks for. */
module DelqaTransmitCsr {
  import opened GuestMemory
  import opened ByteDma
  import opened DelqaQueue
  import opened DelqaDescriptor
  import opened DelqaFilter
  import opened DelqaCsr
  import opened T = DelqaTransmit

  function XlReports(events: seq<TxEvent>): nat {
    if events == [] then 0
    else
      var e := events[|events| - 1];
      XlReports(events[..|events| - 1]) + (if e.Report? && e.xl then 1 else 0)
  }

  lemma CountsNext(events: seq<TxEvent>, e: TxEvent)
    ensures XiReports(events + [e]) == XiReports(events) + (if e.Report? && e.xi then 1 else 0)
    ensures XlReports(events + [e]) == XlReports(events) + (if e.Report? && e.xl then 1 else 0)
    ensures Messages(events + [e]) == Messages(events) + (if e.Message? then 1 else 0)
  {
    assert (events + [e])[..|events|] == events;
  }

  /** The bits that steps of a walk have set: XI and XL by a report of theirs, CA by a message that a connector on
  the port returns. */
  function SetBetween(connector: bool, tx: Tx, r: Tx): Csr {
    (if XiReports(r.events) > XiReports(tx.events) then {XI} else {})
    + (if XlReports(r.events) > XlReports(tx.events) then {XL} else {})
    + (if connector && IL in tx.ctrl.csr && Messages(r.events) > Messages(tx.events) then {CA} else {})
  }

  /** Steps of a walk set those bits and no other, and leave the request derived if they found it so. */
  predicate Moved(connector: bool, tx: Tx, r: Tx) {
    && XiReports(r.events) >= XiReports(tx.events) && XlReports(r.events) >= XlReports(tx.events)
    && Messages(r.events) >= Messages(tx.events)
    && r.ctrl.csr == tx.ctrl.csr + SetBetween(connector, tx, r) && r.ctrl.vector == tx.ctrl.vector
    && (Honest(tx.ctrl) ==> Honest(r.ctrl))
    && (Honest(tx.ctrl) && tx.ctrl.requested == Want(tx.ctrl) ==> r.ctrl.requested == Want(r.ctrl))
  }

  lemma MovedTwice(connector: bool, tx: Tx, m: Tx, r: Tx)
    requires Moved(connector, tx, m) && Moved(connector, m, r)
    ensures Moved(connector, tx, r)
  {
    hide Honest, Want;
    assert IL in m.ctrl.csr <==> IL in tx.ctrl.csr;
  }

  /** Nothing but memory, place, buffer, queue or filter changes. */
  lemma MovedNot(connector: bool, tx: Tx, r: Tx)
    requires r.ctrl == tx.ctrl && r.events == tx.events
    ensures Moved(connector, tx, r)
  {
    assert tx.ctrl.csr + {} == tx.ctrl.csr;
  }

  lemma ReportMoves(connector: bool, tx: Tx, xi: bool, xl: bool)
    ensures Moved(connector, tx, Reported(tx, xi, xl))
    ensures Honest(tx.ctrl) ==> Reported(tx, xi, xl).ctrl.requested == Want(Reported(tx, xi, xl).ctrl)
  {
    hide UpdateCsr, Want, Honest;
    CountsNext(tx.events, Report(xi, xl));
    var setBits := (if xl then {XL} else {}) + (if xi then {XI} else {});
    assert SetBetween(connector, tx, Reported(tx, xi, xl)) == setBits;
    UpdateSets(tx.ctrl, setBits);
  }

  lemma UpdateSets(c: Controller, setBits: Csr)
    ensures var u := UpdateCsr(c, setBits, {});
            && u.csr == c.csr + setBits && u.vector == c.vector
            && (Honest(c) ==> Honest(u) && u.requested == Want(u))
  {
    if Honest(c) { UpdateDerivesLevel(c, setBits, {}); }
  }

  lemma HandMoves(env: TxEnv, tx: Tx, flags: Word)
    ensures Moved(env.connector, tx, HandedOn(env, tx, flags))
  {
    hide UpdateCsr, Want, Honest, Enqueue, AfterSetup, Padded;
    HandedOnEvents(env, tx, flags);
    var route := RouteOf(env, tx.ctrl, flags);
    CountsNext(tx.events, Message(tx.buffer, route));
    UpdateSets(tx.ctrl, {CA});
    UpdateSets(UpdateCsr(tx.ctrl, {CA}, {}), {CA});
    var r := HandedOn(env, tx, flags);
    assert SetBetween(env.connector, tx, r) == if env.connector && IL in tx.ctrl.csr then {CA} else {};
  }

  lemma GatherMoves(env: TxEnv, tx: Tx, flags: Word, low: Word, count: Word)
    ensures Moved(env.connector, tx, Gather(env, tx, flags, low, count).tx)
  {
    hide HandedOn, RouteOf, Reported, Written, ReadOk, TxStatus, BytesAnswer, BufferLength, BufferAddress, Moved;
    var t := if tx.pendingXi then Reported(tx, true, false) else tx;
    if tx.pendingXi { ReportMoves(env.connector, tx, true, false); } else { MovedNot(env.connector, tx, t); }
    var address, len := BufferAddress(flags, low), BufferLength(flags, count);
    if BytesAnswer(t.mem, address, len) {
      BytesAnswerHold(t.mem, address, len);
      var bytes := BytesAt(t.mem, address, len);
      var g := t.(buffer := t.buffer + bytes, events := t.events + [Buffer(bytes)]);
      BufferMoves(env.connector, t, bytes);
      MovedTwice(env.connector, tx, t, g);
      var h := if DscE(flags) then HandedOn(env, g, flags) else g;
      if DscE(flags) { HandMoves(env, g, flags); } else { MovedNot(env.connector, g, h); }
      MovedTwice(env.connector, tx, g, h);
      var r := Gather(env, tx, flags, low, count).tx;
      MovedNot(env.connector, h, r);
      MovedTwice(env.connector, tx, h, r);
    }
  }

  lemma BufferMoves(connector: bool, t: Tx, bytes: seq<Byte>)
    ensures Moved(connector, t, t.(buffer := t.buffer + bytes, events := t.events + [Buffer(bytes)]))
  {
    CountsNext(t.events, Buffer(bytes));
    assert t.ctrl.csr + {} == t.ctrl.csr;
  }

  lemma VisitMoves(env: TxEnv, tx: Tx)
    ensures Moved(env.connector, tx, TxVisit(env, tx).tx)
    ensures TxVisit(env, tx).TxDone? && Honest(tx.ctrl) ==>
              TxVisit(env, tx).tx.ctrl.requested == Want(TxVisit(env, tx).tx.ctrl)
  {
    hide Gather, Reported, Written, Moved, Honest, Want;
    MovedNot(env.connector, tx, tx);
    if ReadOk(tx.mem, tx.ba, 6) {
      var bd := WordsAt(tx.mem, tx.ba / 2, 6);
      var marked := TxMarked(tx);
      MovedNot(env.connector, tx, marked);
      var r := TxVisit(env, tx).tx;
      if DscC(bd[1]) {
        MovedNot(env.connector, tx, r);
      } else if !DscV(bd[1]) {
        ReportMoves(env.connector, marked, tx.pendingXi, true);
        MovedTwice(env.connector, tx, marked, r);
      } else {
        GatherMoves(env, marked, bd[1], bd[2], bd[3]);
        MovedTwice(env.connector, tx, marked, r);
        GatherNeverDone(env, marked);
      }
    }
  }

  /** The CSR after a transmit walk, every bit of it: XI if it reported a completion, XL if it reported the end of
  the list, CA if a connector returned a message of it, and the four bits of a bus timeout if one stopped it. */
  predicate LeftBy(connector: bool, tx: Tx, end: TxEnd) {
    && end.tx.ctrl.vector == tx.ctrl.vector
    && end.tx.ctrl.csr == tx.ctrl.csr + SetBetween(connector, tx, end.tx)
                          + (if end.stop == Nxm then {NI, XI, XL, RL} else {})
    && XiReports(end.tx.events) >= XiReports(tx.events) && XlReports(end.tx.events) >= XlReports(tx.events)
    && Messages(end.tx.events) >= Messages(tx.events)
    && (Honest(tx.ctrl) ==> Honest(end.tx.ctrl) && end.tx.ctrl.requested == Want(end.tx.ctrl))
  }

  lemma {:induction false} WalkLeaves(connector: bool, wire: nat -> bool, tx: Tx, start: nat, n: nat)
    requires n <= MAX_DESCRIPTORS + 1
    ensures LeftBy(connector, tx, TxWalk(connector, wire, tx, start, n))
    decreases MAX_DESCRIPTORS + 1 - n
  {
    hide TxVisit, TxWalk, Reported, Moved, LeftBy;
    TxWalkTurn(connector, wire, tx, start, n);
    var end := TxWalk(connector, wire, tx, start, n);
    if n > 0 && (tx.ba == start || n > MAX_DESCRIPTORS) {
      ReportMoves(connector, tx, tx.pendingXi, true);
      LeftAtOnce(connector, tx, end);
    } else {
      var pass := TxVisit(TxEnv(connector, wire(n)), tx);
      VisitMoves(TxEnv(connector, wire(n)), tx);
      match TxOutcomeOf(pass)
      case Goes =>
        WalkLeaves(connector, wire, pass.tx, start, n + 1);
        LeftLater(connector, tx, pass.tx, end);
      case Ends => LeftAtOnce(connector, tx, end);
      case Faults => LeftByFault(connector, tx, pass.tx);
    }
  }

  lemma LeftAtOnce(connector: bool, tx: Tx, end: TxEnd)
    requires end.stop != Nxm && Moved(connector, tx, end.tx)
    requires Honest(tx.ctrl) ==> end.tx.ctrl.requested == Want(end.tx.ctrl)
    ensures LeftBy(connector, tx, end)
  {
    hide Honest, Want;
  }

  lemma LeftLater(connector: bool, tx: Tx, m: Tx, end: TxEnd)
    requires Moved(connector, tx, m) && LeftBy(connector, m, end)
    ensures LeftBy(connector, tx, end)
  {
    hide Honest, Want;
    assert IL in m.ctrl.csr <==> IL in tx.ctrl.csr;
    assert SetBetween(connector, tx, end.tx) == SetBetween(connector, tx, m) + SetBetween(connector, m, end.tx);
  }

  lemma LeftByFault(connector: bool, tx: Tx, m: Tx)
    requires Moved(connector, tx, m)
    ensures forall n :: LeftBy(connector, tx, TxEnd(m.(ctrl := NxmError(m.ctrl)), Nxm, n))
  {
    hide Honest, Want, UpdateCsr;
    UpdateSets(m.ctrl, {NI, XI, XL, RL});
  }

  /** When a transmit walk leaves XI standing, whatever it walked over. */
  lemma XiAfterWalk(connector: bool, wire: nat -> bool, tx: Tx, start: nat, n: nat)
    requires n <= MAX_DESCRIPTORS + 1
    ensures var end := TxWalk(connector, wire, tx, start, n);
            XI in end.tx.ctrl.csr <==>
              XI in tx.ctrl.csr || end.stop == Nxm || XiReports(end.tx.events) > XiReports(tx.events)
  {
    hide TxWalk;
    WalkLeaves(connector, wire, tx, start, n);
  }

  /** Every message completed is announced: a walk that no timeout stops leaves XI standing exactly if it stood or a
  message was completed, CA exactly if it stood or a connector returned a message, and XL; then the interrupt is
  requested exactly if it is enabled, has a vector and RI or XI stands. */
  lemma MessagesInterrupt(connector: bool, wire: nat -> bool, tx: Tx, start: nat)
    requires TxOk(tx) && !tx.pendingXi && TxWalk(connector, wire, tx, start, 0).stop != Nxm
    ensures var end, c := TxWalk(connector, wire, tx, start, 0), tx.ctrl;
            var r, sent := end.tx.ctrl, Messages(end.tx.events) > Messages(tx.events);
            && (XI in r.csr <==> XI in c.csr || sent)
            && (CA in r.csr <==> CA in c.csr || (sent && connector && IL in c.csr))
            && XL in r.csr && (forall b :: b != XI && b != XL && b != CA ==> (b in r.csr <==> b in c.csr))
            && (Honest(c) ==> (r.requested <==> IE in c.csr && c.vector != 0 && (XI in r.csr || RI in c.csr)))
  {
    hide TxWalk, Disciplined, Due;
    WalkLeaves(connector, wire, tx, start, 0);
    TxWalkDisciplined(connector, wire, tx, start, 0);
    TxWalkEnds(connector, wire, tx, start, 0);
    OneInterruptPerMessage(tx.events);
    OneInterruptPerMessage(TxWalk(connector, wire, tx, start, 0).tx.events);
  }

  /** A bus timeout announces itself, with the interrupt if that is enabled and has a vector. */
  lemma TimeoutInterrupts(connector: bool, wire: nat -> bool, tx: Tx, start: nat)
    requires TxWalk(connector, wire, tx, start, 0).stop == Nxm
    ensures var r, c := TxWalk(connector, wire, tx, start, 0).tx.ctrl, tx.ctrl;
            && {NI, XI, XL, RL} <= r.csr && (forall b :: b !in {NI, XI, XL, RL, CA} ==> (b in r.csr <==> b in c.csr))
            && (Honest(c) ==> (r.requested <==> IE in c.csr && c.vector != 0))
  {
    hide TxWalk;
    WalkLeaves(connector, wire, tx, start, 0);
  }
}
