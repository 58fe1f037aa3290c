/** The DELQA transmit walk: descriptors gathered into messages, each handed to
the setup logic, the loopback path or the wire, and reported to the host.

As for reception the walk is a function of guest memory (`TxWalk`); the lemmas
hold for every memory, cyclic lists included. */
module DelqaTransmit {
  import opened GuestMemory
  import opened ByteDma
  import opened DelqaFilter
  import opened DelqaQueue
  import opened DelqaDescriptor
  import opened DelqaCsr

  /** Where a message went. */
  datatype Route = ToSetup | Looped | LoopLost | Wire(sent: bool)

  /** What a walk does that others can see. */
  datatype TxEvent = Buffer(bytes: seq<Byte>) | Message(data: seq<Byte>, route: Route) | Report(xi: bool, xl: bool)

  /** The transceiver port: whether a loopback connector sits on it, and whether the host interface takes what
  is sent. */
  datatype TxEnv = TxEnv(connector: bool, sent: bool)

  datatype Tx = Tx(mem: Memory, ba: nat, buffer: seq<Byte>, pendingXi: bool, ctrl: Controller,
                   queue: seq<Packet>, loss: nat, filter: Filter, events: seq<TxEvent>)

  datatype TxPass = TxMore(tx: Tx) | TxDone(tx: Tx) | TxTimeout(tx: Tx)

  /** A CSR update that reports completion, list end, or both at once. */
  function Reported(tx: Tx, xi: bool, xl: bool): Tx {
    tx.(ctrl := UpdateCsr(tx.ctrl, (if xl then {XL} else {}) + (if xi then {XI} else {}), {}),
        pendingXi := false,
        events := tx.events + [Report(xi, xl)])
  }

  predicate InLoopback(c: Controller) { IL !in c.csr || EL in c.csr }

  predicate ListReady(c: Controller) { RL !in c.csr || EL in c.csr }

  /** The route a message takes. */
  function RouteOf(env: TxEnv, c: Controller, flags: Word): Route {
    if DscS(flags) then ToSetup
    else if InLoopback(c) then (if ListReady(c) then Looped else LoopLost)
    else Wire(env.connector || env.sent)
  }

  /** Frames returned by a loopback connector are padded as the wire pads them. */
  function Padded(data: seq<Byte>): seq<Byte> {
    if |data| < ETH_MIN_PACKET then data + seq(ETH_MIN_PACKET - |data|, i => 0) else data
  }

  /** A message leaves: carrier on the port, the reflection queued, the filter loaded. */
  function HandedOn(env: TxEnv, tx: Tx, flags: Word): Tx {
    var carrier := if env.connector && IL in tx.ctrl.csr then UpdateCsr(tx.ctrl, {CA}, {}) else tx.ctrl;
    var route := RouteOf(env, tx.ctrl, flags);
    var t := tx.(ctrl := carrier, events := tx.events + [Message(tx.buffer, route)]);
    match route
    case ToSetup =>
      var (q, l) := Enqueue(tx.queue, tx.loss, Setup, tx.buffer);
      t.(filter := AfterSetup(tx.filter, tx.buffer), queue := q, loss := l)
    case Looped =>
      var (q, l) := Enqueue(tx.queue, tx.loss, Loopback, tx.buffer);
      t.(queue := q, loss := l)
    case LoopLost => t.(loss := tx.loss + 1)
    case Wire(sent) =>
      if env.connector then
        var (q, l) := Enqueue(tx.queue, tx.loss, Normal, Padded(tx.buffer));
        t.(ctrl := UpdateCsr(carrier, {CA}, {}), queue := q, loss := l)
      else t
  }

  /** The two status words of a message's last buffer. */
  function TxStatus(route: Route, size: nat): seq<Word> {
    match route
    case Wire(sent) => [if sent then 0 else 0x4000, (100 + size * 8) % 0x400]
    case _ => [0x200c, 0x0860]
  }

  /** Disposes of the buffer just gathered: a whole message is handed on, then the status is written. */
  function Finish(env: TxEnv, tx: Tx, flags: Word): TxPass {
    var t := if DscE(flags) then HandedOn(env, tx, flags) else tx;
    var st := if DscE(flags) then TxStatus(RouteOf(env, tx.ctrl, flags), |tx.buffer|) else [0xffff, 0xffff];
    var w := t.(mem := Written(t.mem, t.ba + 8, st));
    if !ReadOk(t.mem, t.ba + 8, 2) then TxTimeout(w)
    else
      TxMore(w.(ba := t.ba + 12,
                buffer := if DscE(flags) then [] else tx.buffer,
                pendingXi := DscE(flags)))
  }

  /** A descriptor that holds a buffer: report what is still pending, then gather the bytes. */
  function Gather(env: TxEnv, tx: Tx, flags: Word, low: Word, count: Word): TxPass {
    var t := if tx.pendingXi then Reported(tx, true, false) else tx;
    var address, len := BufferAddress(flags, low), BufferLength(flags, count);
    if !BytesAnswer(t.mem, address, len) then TxTimeout(t)
    else
      BytesAnswerHold(t.mem, address, len);
      var bytes := BytesAt(t.mem, address, len);
      Finish(env, t.(buffer := t.buffer + bytes, events := t.events + [Buffer(bytes)]), flags)
  }

  function TxMarked(tx: Tx): Tx { tx.(mem := Written(tx.mem, tx.ba, [0xffff])) }

  /** One descriptor of the transmit list. */
  function TxVisit(env: TxEnv, tx: Tx): TxPass {
    if !ReadOk(tx.mem, tx.ba, 6) then TxTimeout(tx)
    else
      var bd := WordsAt(tx.mem, tx.ba / 2, 6);
      var marked := TxMarked(tx);
      if DscC(bd[1]) then TxMore(marked.(ba := Address22(bd[1], bd[2])))
      else if !DscV(bd[1]) then TxDone(Reported(marked, tx.pendingXi, true))
      else Gather(env, marked, bd[1], bd[2], bd[3])
  }

  datatype TxStop = Abandoned | Finished | Nxm

  datatype TxEnd = TxEnd(tx: Tx, stop: TxStop, fetched: nat)

  /** The walk from `tx.ba`, with `n` descriptors behind it; `wire(n)` says whether the interface would take a
  message completed by the next one. */
  function TxWalk(connector: bool, wire: nat -> bool, tx: Tx, start: nat, n: nat): TxEnd
    requires n <= MAX_DESCRIPTORS + 1
    decreases MAX_DESCRIPTORS + 1 - n
  {
    if n > 0 && (tx.ba == start || n > MAX_DESCRIPTORS) then TxEnd(Reported(tx, tx.pendingXi, true), Abandoned, n)
    else
      match TxVisit(TxEnv(connector, wire(n)), tx)
      case TxMore(t) => TxWalk(connector, wire, t, start, n + 1)
      case TxDone(t) => TxEnd(t, Finished, n + 1)
      case TxTimeout(t) => TxEnd(t.(ctrl := NxmError(t.ctrl)), Nxm, n + 1)
  }

  datatype TxOutcome = Goes | Ends | Faults

  function TxOutcomeOf(p: TxPass): TxOutcome {
    match p
    case TxMore(_) => Goes
    case TxDone(_) => Ends
    case TxTimeout(_) => Faults
  }

  /** One turn of the walk. */
  lemma TxWalkTurn(connector: bool, wire: nat -> bool, tx: Tx, start: nat, n: nat)
    requires n <= MAX_DESCRIPTORS + 1
    ensures var end := TxWalk(connector, wire, tx, start, n);
            if n > 0 && (tx.ba == start || n > MAX_DESCRIPTORS) then
              end == TxEnd(Reported(tx, tx.pendingXi, true), Abandoned, n)
            else
              var p := TxVisit(TxEnv(connector, wire(n)), tx);
              end == match TxOutcomeOf(p)
                     case Goes => TxWalk(connector, wire, p.tx, start, n + 1)
                     case Ends => TxEnd(p.tx, Finished, n + 1)
                     case Faults => TxEnd(p.tx.(ctrl := NxmError(p.tx.ctrl)), Nxm, n + 1)
  {
    hide TxVisit, Reported;
  }

  // --- every walk ends, with the list reported idle ------------------------------

  /** At most 257 descriptors are fetched, and XL is set at the end, whatever the list looks like. */
  lemma {:induction false} TxWalkEnds(connector: bool, wire: nat -> bool, tx: Tx, start: nat, n: nat)
    requires n <= MAX_DESCRIPTORS + 1
    ensures var end := TxWalk(connector, wire, tx, start, n);
            && end.fetched <= MAX_DESCRIPTORS + 1
            && XL in end.tx.ctrl.csr
            && (end.stop == Nxm ==> {NI, XI, RL} <= end.tx.ctrl.csr)
    decreases MAX_DESCRIPTORS + 1 - n
  {
    hide TxVisit;
    if !(n > 0 && (tx.ba == start || n > MAX_DESCRIPTORS)) {
      TxVisitDone(TxEnv(connector, wire(n)), tx);
      var pass := TxVisit(TxEnv(connector, wire(n)), tx);
      if pass.TxMore? { TxWalkEnds(connector, wire, pass.tx, start, n + 1); }
    }
  }

  lemma TxVisitDone(env: TxEnv, tx: Tx)
    ensures TxVisit(env, tx).TxDone? ==> XL in TxVisit(env, tx).tx.ctrl.csr
  {
    hide Gather;
    if TxVisit(env, tx).TxDone? {
      GatherNeverDone(env, TxMarked(tx));
    }
  }

  lemma GatherNeverDone(env: TxEnv, tx: Tx)
    ensures forall flags, low, count :: !Gather(env, tx, flags, low, count).TxDone?
  {
  }

  /** Whether a walk has queued a reflection for the receive list. */
  predicate Reflects(events: seq<TxEvent>) {
    events != [] &&
    (Reflects(events[..|events| - 1]) || ReflectsHere(events[|events| - 1]))
  }

  predicate ReflectsHere(e: TxEvent) {
    e.Message? && (e.route.ToSetup? || e.route.Looped?)
  }

  lemma NoReflects()
    ensures !Reflects([])
  {
  }

  lemma ReflectsNext(events: seq<TxEvent>, e: TxEvent)
    ensures Reflects(events + [e]) == (Reflects(events) || ReflectsHere(e))
  {
    assert (events + [e])[..|events|] == events;
  }

  // --- messages are the buffers since the last one ---------------------------------

  function OpenAfter(open: seq<Byte>, e: TxEvent): seq<Byte> {
    match e
    case Buffer(bytes) => open + bytes
    case Message(_, _) => []
    case Report(_, _) => open
  }

  predicate DueAfter(due: bool, e: TxEvent) {
    match e
    case Buffer(_) => due
    case Message(_, _) => true
    case Report(xi, _) => !xi && due
  }

  /** The bytes gathered since the last message. */
  function Open(events: seq<TxEvent>): seq<Byte> {
    if events == [] then [] else OpenAfter(Open(events[..|events| - 1]), events[|events| - 1])
  }

  /** A message has been completed and not yet reported. */
  predicate Due(events: seq<TxEvent>) {
    events != [] && DueAfter(Due(events[..|events| - 1]), events[|events| - 1])
  }

  /** One more event keeps the protocol: a message is exactly the buffers since the last one, and the interrupt
  for a message goes out before the next buffer is fetched, once, and never without a message. */
  predicate Follows(events: seq<TxEvent>, e: TxEvent) {
    match e
    case Buffer(_) => !Due(events)
    case Message(data, _) => data == Open(events) && !Due(events)
    case Report(xi, _) => xi == Due(events)
  }

  predicate Disciplined(events: seq<TxEvent>) {
    forall i :: 0 <= i < |events| ==> Follows(events[..i], events[i])
  }

  predicate TxOk(tx: Tx) {
    Disciplined(tx.events) && tx.buffer == Open(tx.events) && tx.pendingXi == Due(tx.events)
  }

  lemma AddEvent(events: seq<TxEvent>, e: TxEvent)
    requires Disciplined(events) && Follows(events, e)
    ensures Disciplined(events + [e])
    ensures Open(events + [e]) == OpenAfter(Open(events), e)
    ensures Due(events + [e]) == DueAfter(Due(events), e)
  {
    var es := events + [e];
    assert es[..|events|] == events;
    forall i | 0 <= i < |es| ensures Follows(es[..i], es[i]) {
      if i < |events| { assert es[..i] == events[..i] && Follows(events[..i], events[i]); }
    }
  }

  lemma ReportedOk(tx: Tx, xl: bool)
    requires TxOk(tx)
    ensures TxOk(Reported(tx, tx.pendingXi, xl))
  {
    hide Disciplined, Open, Due;
    AddEvent(tx.events, Report(tx.pendingXi, xl));
  }

  lemma HandedOnEvents(env: TxEnv, tx: Tx, flags: Word)
    ensures var t := HandedOn(env, tx, flags);
            && t.events == tx.events + [Message(tx.buffer, RouteOf(env, tx.ctrl, flags))]
            && t.mem == tx.mem && t.ba == tx.ba
  {
    hide RouteOf, Enqueue, AfterSetup, UpdateCsr;
  }

  lemma FinishOk(env: TxEnv, tx: Tx, flags: Word)
    requires TxOk(tx) && !tx.pendingXi
    ensures var pass := Finish(env, tx, flags); Disciplined(pass.tx.events) && (pass.TxMore? ==> TxOk(pass.tx))
  {
    hide Disciplined, Open, Due, HandedOn, RouteOf;
    if DscE(flags) {
      HandedOnEvents(env, tx, flags);
      AddEvent(tx.events, Message(tx.buffer, RouteOf(env, tx.ctrl, flags)));
    }
  }

  lemma GatherOk(env: TxEnv, tx: Tx, flags: Word, low: Word, count: Word)
    requires TxOk(tx)
    ensures var pass := Gather(env, tx, flags, low, count);
            Disciplined(pass.tx.events) && (pass.TxMore? ==> TxOk(pass.tx))
  {
    hide Disciplined, Open, Due, Finish, BufferLength, BufferAddress, BytesAnswer;
    var t := if tx.pendingXi then Reported(tx, true, false) else tx;
    if tx.pendingXi { ReportedOk(tx, false); AddEvent(tx.events, Report(true, false)); }
    var address, len := BufferAddress(flags, low), BufferLength(flags, count);
    if BytesAnswer(t.mem, address, len) {
      BytesAnswerHold(t.mem, address, len);
      var bytes := BytesAt(t.mem, address, len);
      AddEvent(t.events, Buffer(bytes));
      FinishOk(env, t.(buffer := t.buffer + bytes, events := t.events + [Buffer(bytes)]), flags);
    }
  }

  lemma TxVisitOk(env: TxEnv, tx: Tx)
    requires TxOk(tx)
    ensures var pass := TxVisit(env, tx);
            && Disciplined(pass.tx.events)
            && (pass.TxMore? ==> TxOk(pass.tx))
            && (pass.TxDone? ==> TxOk(pass.tx) && pass.tx.events == tx.events + [Report(tx.pendingXi, true)])
  {
    hide Disciplined, Open, Due, Gather;
    if ReadOk(tx.mem, tx.ba, 6) {
      var bd := WordsAt(tx.mem, tx.ba / 2, 6);
      if !DscC(bd[1]) && !DscV(bd[1]) {
        ReportedOk(TxMarked(tx), true);
      } else if !DscC(bd[1]) {
        GatherOk(env, TxMarked(tx), bd[1], bd[2], bd[3]);
        GatherNeverDone(env, TxMarked(tx));
      }
    }
  }

  /** In every walk the events follow the protocol; a walk that ends without a bus timeout ends with one CSR
  update that sets XL, and sets XI with it exactly when a message is still unreported. */
  lemma {:induction false} TxWalkDisciplined(connector: bool, wire: nat -> bool, tx: Tx, start: nat, n: nat)
    requires n <= MAX_DESCRIPTORS + 1 && TxOk(tx)
    ensures var end := TxWalk(connector, wire, tx, start, n);
            && Disciplined(end.tx.events)
            && (end.stop != Nxm ==>
                  var k := |end.tx.events| - 1;
                  k >= 0 && end.tx.events[k] == Report(Due(end.tx.events[..k]), true) && !Due(end.tx.events))
    decreases MAX_DESCRIPTORS + 1 - n
  {
    hide Disciplined, Open, Due, TxVisit;
    if n > 0 && (tx.ba == start || n > MAX_DESCRIPTORS) {
      ReportedOk(tx, true);
      assert (tx.events + [Report(tx.pendingXi, true)])[..|tx.events|] == tx.events;
    } else {
      TxVisitOk(TxEnv(connector, wire(n)), tx);
      var pass := TxVisit(TxEnv(connector, wire(n)), tx);
      if pass.TxMore? { TxWalkDisciplined(connector, wire, pass.tx, start, n + 1); }
      if pass.TxDone? {
        assert (tx.events + [Report(tx.pendingXi, true)])[..|tx.events|] == tx.events;
        AddEvent(tx.events, Report(tx.pendingXi, true));
      }
    }
  }

  function Messages(events: seq<TxEvent>): nat {
    if events == [] then 0 else Messages(events[..|events| - 1]) + (if events[|events| - 1].Message? then 1 else 0)
  }

  function XiReports(events: seq<TxEvent>): nat {
    if events == [] then 0
    else
      var e := events[|events| - 1];
      XiReports(events[..|events| - 1]) + (if e.Report? && e.xi then 1 else 0)
  }

  /** Each completed message gets an interrupt of its own: their numbers agree but for the one still due. */
  lemma {:induction false} OneInterruptPerMessage(events: seq<TxEvent>)
    requires Disciplined(events)
    ensures Messages(events) == XiReports(events) + (if Due(events) then 1 else 0)
  {
    if events != [] {
      var k := |events| - 1;
      forall i | 0 <= i < k ensures Follows(events[..k][..i], events[..k][i]) {
        assert events[..k][..i] == events[..i];
      }
      OneInterruptPerMessage(events[..k]);
      assert Follows(events[..k], events[k]);
    }
  }

  // --- the queue keeps its limits ------------------------------------------------------

  lemma HandedOnKeepsGood(env: TxEnv, tx: Tx, flags: Word)
    requires QueueGood(tx.queue)
    ensures QueueGood(HandedOn(env, tx, flags).queue)
  {
    hide QueueGood, Enqueue, UpdateCsr, AfterSetup;
    EnqueueKeeps(tx.queue, tx.loss, Setup, tx.buffer);
    EnqueueKeeps(tx.queue, tx.loss, Loopback, tx.buffer);
    EnqueueKeeps(tx.queue, tx.loss, Normal, Padded(tx.buffer));
  }

  lemma TxVisitKeepsGood(env: TxEnv, tx: Tx)
    requires QueueGood(tx.queue)
    ensures QueueGood(TxVisit(env, tx).tx.queue)
  {
    hide QueueGood, HandedOn, RouteOf, TxStatus, Written, BytesAnswer, BufferLength, UpdateCsr;
    if ReadOk(tx.mem, tx.ba, 6) {
      var bd := WordsAt(tx.mem, tx.ba / 2, 6);
      var t := if tx.pendingXi then Reported(TxMarked(tx), true, false) else TxMarked(tx);
      var address, len := BufferAddress(bd[1], bd[2]), BufferLength(bd[1], bd[3]);
      if BytesAnswer(t.mem, address, len) {
        BytesAnswerHold(t.mem, address, len);
        var bytes := BytesAt(t.mem, address, len);
        HandedOnKeepsGood(env, t.(buffer := t.buffer + bytes, events := t.events + [Buffer(bytes)]), bd[1]);
      }
    }
  }

  lemma {:induction false} TxWalkKeepsGood(connector: bool, wire: nat -> bool, tx: Tx, start: nat, n: nat)
    requires QueueGood(tx.queue) && n <= MAX_DESCRIPTORS + 1
    ensures QueueGood(TxWalk(connector, wire, tx, start, n).tx.queue)
    decreases MAX_DESCRIPTORS + 1 - n
  {
    hide TxVisit, TxWalk, QueueGood;
    TxWalkTurn(connector, wire, tx, start, n);
    if !(n > 0 && (tx.ba == start || n > MAX_DESCRIPTORS)) {
      TxVisitKeepsGood(TxEnv(connector, wire(n)), tx);
      var pass := TxVisit(TxEnv(connector, wire(n)), tx);
      if pass.TxMore? { TxWalkKeepsGood(connector, wire, pass.tx, start, n + 1); }
    }
  }

  // --- routes ------------------------------------------------------------------------

  /** A message reaches the wire exactly when it is no setup packet and the controller is in no loopback. */
  lemma WireOnlyOutsideLoopback(env: TxEnv, c: Controller, flags: Word)
    ensures RouteOf(env, c, flags).Wire? <==> !DscS(flags) && IL in c.csr && EL !in c.csr
  {
  }

  /** The messages from event `k` on took the route of a controller in loopback, or not: setup packets apart, the wire
  exactly outside loopback. */
  predicate RoutesAre(events: seq<TxEvent>, k: nat, loopback: bool) {
    forall i :: k <= i < |events| && events[i].Message? && !events[i].route.ToSetup? ==>
      (events[i].route.Wire? <==> !loopback)
  }

  /** A step that adds events of the right routes and leaves IL and EL alone. */
  predicate Routed(tx: Tx, r: Tx) {
    && InLoopback(r.ctrl) == InLoopback(tx.ctrl) && tx.events <= r.events
    && RoutesAre(r.events, |tx.events|, InLoopback(tx.ctrl))
  }

  lemma RoutedTwice(tx: Tx, r: Tx, t: Tx)
    requires Routed(tx, r) && Routed(r, t)
    ensures Routed(tx, t)
  {
    forall i | |tx.events| <= i < |t.events| && t.events[i].Message? && !t.events[i].route.ToSetup?
      ensures t.events[i].route.Wire? <==> !InLoopback(tx.ctrl)
    {
      if i < |r.events| { assert t.events[i] == r.events[i]; }
    }
  }

  lemma UpdateKeepsMode(c: Controller, setBits: Csr, clearBits: Csr)
    requires IL !in setBits + clearBits && EL !in setBits + clearBits
    ensures InLoopback(UpdateCsr(c, setBits, clearBits)) == InLoopback(c)
  {
  }

  lemma ReportedRoutes(tx: Tx, xi: bool, xl: bool)
    ensures Routed(tx, Reported(tx, xi, xl))
  {
    hide UpdateCsr, InLoopback;
    UpdateKeepsMode(tx.ctrl, (if xl then {XL} else {}) + (if xi then {XI} else {}), {});
  }

  lemma HandedOnRoutes(env: TxEnv, tx: Tx, flags: Word)
    ensures Routed(tx, HandedOn(env, tx, flags))
  {
    hide Enqueue, AfterSetup, UpdateCsr;
    UpdateKeepsMode(tx.ctrl, {CA}, {});
    UpdateKeepsMode(UpdateCsr(tx.ctrl, {CA}, {}), {CA}, {});
    HandedOnEvents(env, tx, flags);
    WireOnlyOutsideLoopback(env, tx.ctrl, flags);
  }

  lemma GatherRoutes(env: TxEnv, tx: Tx, flags: Word, low: Word, count: Word)
    ensures Routed(tx, Gather(env, tx, flags, low, count).tx)
  {
    hide HandedOn, RouteOf, Reported, Written, ReadOk, TxStatus, BytesAnswer, BufferLength, BufferAddress, InLoopback;
    var t := if tx.pendingXi then Reported(tx, true, false) else tx;
    ReportedRoutes(tx, true, false);
    var address, len := BufferAddress(flags, low), BufferLength(flags, count);
    if BytesAnswer(t.mem, address, len) {
      BytesAnswerHold(t.mem, address, len);
      var bytes := BytesAt(t.mem, address, len);
      var g := t.(buffer := t.buffer + bytes, events := t.events + [Buffer(bytes)]);
      assert Routed(t, g);
      HandedOnRoutes(env, g, flags);
      RoutedTwice(tx, t, g);
      RoutedTwice(tx, g, HandedOn(env, g, flags));
    }
  }

  lemma TxVisitRoutes(env: TxEnv, tx: Tx)
    ensures Routed(tx, TxVisit(env, tx).tx)
  {
    hide Gather, Reported, Written, InLoopback;
    if ReadOk(tx.mem, tx.ba, 6) {
      var bd := WordsAt(tx.mem, tx.ba / 2, 6);
      ReportedRoutes(TxMarked(tx), tx.pendingXi, true);
      GatherRoutes(env, TxMarked(tx), bd[1], bd[2], bd[3]);
    }
  }

  /** No walk changes the loopback mode it begins in, and every message of the walk that is no setup packet goes
  to the wire exactly when that mode is no loopback: a walk begun in loopback never reaches the wire, one begun
  outside never loops. */
  lemma {:induction false} WalkRoutes(connector: bool, wire: nat -> bool, tx: Tx, start: nat, n: nat)
    requires n <= MAX_DESCRIPTORS + 1
    ensures Routed(tx, TxWalk(connector, wire, tx, start, n).tx)
    decreases MAX_DESCRIPTORS + 1 - n
  {
    hide TxVisit, TxWalk, Reported, Routed;
    TxWalkTurn(connector, wire, tx, start, n);
    if n > 0 && (tx.ba == start || n > MAX_DESCRIPTORS) {
      ReportedRoutes(tx, tx.pendingXi, true);
    } else {
      var pass := TxVisit(TxEnv(connector, wire(n)), tx);
      TxVisitRoutes(TxEnv(connector, wire(n)), tx);
      if pass.TxMore? {
        WalkRoutes(connector, wire, pass.tx, start, n + 1);
        RoutedTwice(tx, pass.tx, TxWalk(connector, wire, pass.tx, start, n + 1).tx);
      }
      if pass.TxTimeout? { NxmRoutes(tx, pass.tx); }
    }
  }

  lemma NxmRoutes(tx: Tx, r: Tx)
    requires Routed(tx, r)
    ensures Routed(tx, r.(ctrl := NxmError(r.ctrl)))
  {
    UpdateKeepsMode(r.ctrl, {NI, XI, XL, RL}, {});
  }

  // --- what memory holds afterwards -----------------------------------------------------

  /** The status bytes of a message's last buffer. */
  function MessageStatus(e: TxEvent): (r: seq<Byte>)
    requires e.Message?
    ensures |r| == 4
  {
    StatusTwoWords(e.route, |e.data|);
    Unpack(TxStatus(e.route, |e.data|))
  }

  /** A descriptor visited without a timeout is marked used; one that holds a buffer also gets its status, all ones or
  that of the message it completes; nothing else in memory changes, the buffer included. */
  lemma TxVisitInMemory(env: TxEnv, tx: Tx, a: nat)
    requires ReadOk(tx.mem, tx.ba, 6) && a in tx.mem && !TxVisit(env, tx).TxTimeout?
    ensures var pass, slot, flags := TxVisit(env, tx), tx.ba / 2 * 2, WordsAt(tx.mem, tx.ba / 2, 6)[1];
            && a in pass.tx.mem
            && (In(a, slot + 8, 4) ==> DscC(flags) || !DscV(flags) || DscE(flags) || pass.tx.mem[a] == 0xff)
            && (DscV(flags) && !DscC(flags) && DscE(flags) ==>
                  var k := |pass.tx.events| - 1;
                  && k >= 0 && pass.tx.events[k].Message?
                  && (In(a, slot + 8, 4) ==> pass.tx.mem[a] == MessageStatus(pass.tx.events[k])[a - (slot + 8)]))
            && (!(In(a, slot + 8, 4) && DscV(flags) && !DscC(flags)) ==>
                  pass.tx.mem[a] == if In(a, slot, 2) then 0xff else tx.mem[a])
  {
    hide HandedOn, RouteOf, TxStatus, Unpack, BytesAnswer, BufferLength, BufferAddress, Written;
    MarkInMemory(tx.mem, tx.ba, a);
    var bd := WordsAt(tx.mem, tx.ba / 2, 6);
    if !DscC(bd[1]) && DscV(bd[1]) {
      GatherInMemory(env, TxMarked(tx), bd[1], bd[2], bd[3], a);
    }
  }

  lemma GatherInMemory(env: TxEnv, tx: Tx, flags: Word, low: Word, count: Word, a: nat)
    requires a in tx.mem && Gather(env, tx, flags, low, count).TxMore?
    ensures var r, at := Gather(env, tx, flags, low, count).tx, tx.ba / 2 * 2 + 8;
            && a in r.mem
            && (!In(a, at, 4) ==> r.mem[a] == tx.mem[a])
            && (In(a, at, 4) && !DscE(flags) ==> r.mem[a] == 0xff)
            && (DscE(flags) ==>
                  var k := |r.events| - 1;
                  && k >= 0 && r.events[k].Message?
                  && (In(a, at, 4) ==> r.mem[a] == MessageStatus(r.events[k])[a - at]))
  {
    hide HandedOn, RouteOf, BytesAnswer, BufferLength, BufferAddress, Written, TxStatus, WithBytes, Unpack;
    var t := if tx.pendingXi then Reported(tx, true, false) else tx;
    var address, len := BufferAddress(flags, low), BufferLength(flags, count);
    BytesAnswerHold(t.mem, address, len);
    var bytes := BytesAt(t.mem, address, len);
    var g := t.(buffer := t.buffer + bytes, events := t.events + [Buffer(bytes)]);
    HandedOnEvents(env, g, flags);
    var st := if DscE(flags) then TxStatus(RouteOf(env, g.ctrl, flags), |g.buffer|) else [0xffff, 0xffff];
    StatusTwoWords(RouteOf(env, g.ctrl, flags), |g.buffer|);
    WrittenAll(tx.mem, tx.ba + 8, st);
    WithBytesAt(tx.mem, (tx.ba + 8) / 2 * 2, Unpack(st), a);
    assert (tx.ba + 8) / 2 * 2 == tx.ba / 2 * 2 + 8;
    AllOnes();
  }

  lemma StatusTwoWords(route: Route, size: nat)
    ensures |TxStatus(route, size)| == 2
  {
  }

  lemma AllOnes()
    ensures Unpack([0xffff, 0xffff]) == [0xff, 0xff, 0xff, 0xff]
  {
    assert Unpack([0xffff, 0xffff][1..]) == [0xff, 0xff] + Unpack([]);
  }
}
