/** What a DELQA transmit walk makes of its messages: the status the host reads, the packets queued for reception, and
the filter a setup packet loads. */
module DelqaTransmitMessages {
  import opened GuestMemory
  import opened ByteDma
  import opened DelqaFilter
  import opened DelqaQueue
  import opened DelqaDescriptor
  import opened DelqaCsr
  import opened T = DelqaTransmit

  // --- status words -----------------------------------------------------------------

  /** The two status words of a message's last buffer: for the wire bits 15:14 tell whether the interface took it and
  the second word holds a reflectometer reading of ten bits; a message that never went there has the fixed pair. */
  lemma StatusTells(route: Route, size: nat)
    ensures var st := TxStatus(route, size);
            && |st| == 2
            && (route.Wire? ==>
                  && st[0] / 0x4000 == (if route.sent then 0 else 1) && st[0] % 0x4000 == 0
                  && st[1] < 1024 && (st[1] - 100 - 8 * size) % 1024 == 0)
            && (!route.Wire? ==> st == [0x200c, 0x0860])
  {
    var n := 100 + size * 8;
    assert n % 0x400 == n - 0x400 * (n / 0x400);
    Multiple(-(n / 0x400));
  }

  lemma Multiple(k: int)
    ensures (1024 * k) % 1024 == 0
  {
  }

  // --- where messages go ----------------------------------------------------------------

  /** The route of a message by the controller's modes: setup packets to the filter; in loopback, internal or external,
  back to the receive list, or nowhere when that list is empty and the loopback internal; else to the wire. */
  predicate RoutedBy(connector: bool, c: Controller, route: Route) {
    match route
    case ToSetup => true
    case Looped => (IL !in c.csr || EL in c.csr) && (RL !in c.csr || EL in c.csr)
    case LoopLost => IL !in c.csr && EL !in c.csr && RL in c.csr
    case Wire(sent) => IL in c.csr && EL !in c.csr && (connector ==> sent)
  }

  /** The receive queue and loss count, and the filter, after messages: a setup packet is loaded and reflected, a looped
  one reflected, one with nowhere to go counted as lost, one a connector returns queued as a frame from the wire,
  padded with zeros to 60 bytes; every other leaves them alone. */
  datatype Side = Side(queue: seq<Packet>, loss: nat, filter: Filter)

  function Pad(data: seq<Byte>): seq<Byte> {
    data + seq(if |data| < 60 then 60 - |data| else 0, i => 0)
  }

  function Put(s: Side, kind: Kind, data: seq<Byte>): Side {
    var (q, l) := Enqueue(s.queue, s.loss, kind, data);
    s.(queue := q, loss := l)
  }

  function AfterEvent(connector: bool, s: Side, e: TxEvent): Side {
    if !e.Message? then s
    else
      match e.route
      case ToSetup => Put(s, Setup, e.data).(filter := AfterSetup(s.filter, e.data))
      case Looped => Put(s, Loopback, e.data)
      case LoopLost => s.(loss := s.loss + 1)
      case Wire(sent) => if connector then Put(s, Normal, Pad(e.data)) else s
  }

  function AfterEvents(connector: bool, s: Side, events: seq<TxEvent>, k: nat): Side
    decreases |events|
  {
    if |events| <= k then s
    else AfterEvent(connector, AfterEvents(connector, s, events[..|events| - 1], k), events[|events| - 1])
  }

  function SideOf(tx: Tx): Side { Side(tx.queue, tx.loss, tx.filter) }

  /** Steps of a walk: their messages take the routes of the controller's modes, and do that to the side. */
  predicate Disposed(connector: bool, tx: Tx, r: Tx) {
    && tx.events <= r.events && SameModes(tx.ctrl, r.ctrl)
    && SideOf(r) == AfterEvents(connector, SideOf(tx), r.events, |tx.events|)
    && forall i :: |tx.events| <= i < |r.events| && r.events[i].Message? ==>
         RoutedBy(connector, tx.ctrl, r.events[i].route)
  }

  predicate SameModes(c: Controller, d: Controller) {
    (IL in c.csr <==> IL in d.csr) && (EL in c.csr <==> EL in d.csr) && (RL in c.csr <==> RL in d.csr)
  }

  lemma PadIs(data: seq<Byte>)
    ensures Pad(data) == Padded(data)
  {
    assert data + [] == data;
  }

  lemma {:induction false} EventsJoin(connector: bool, s: Side, events: seq<TxEvent>, m: nat, k: nat)
    requires k <= m <= |events|
    ensures AfterEvents(connector, s, events, k)
         == AfterEvents(connector, AfterEvents(connector, s, events[..m], k), events, m)
    decreases |events|
  {
    hide AfterEvent;
    if m == |events| {
      assert events[..m] == events;
    } else {
      EventsJoin(connector, s, events[..|events| - 1], m, k);
      assert events[..|events| - 1][..m] == events[..m];
    }
  }

  lemma DisposedTwice(connector: bool, tx: Tx, m: Tx, r: Tx)
    requires Disposed(connector, tx, m) && Disposed(connector, m, r)
    ensures Disposed(connector, tx, r)
  {
    hide AfterEvents, AfterEvent;
    EventsJoin(connector, SideOf(tx), r.events, |m.events|, |tx.events|);
    assert r.events[..|m.events|] == m.events;
    forall i | |tx.events| <= i < |r.events| && r.events[i].Message?
      ensures RoutedBy(connector, tx.ctrl, r.events[i].route)
    {
      if i < |m.events| { assert r.events[i] == m.events[i]; }
    }
  }

  /** A step that adds at most one event, no message, and leaves modes and side alone. */
  lemma DisposedQuietly(connector: bool, tx: Tx, r: Tx, e: TxEvent)
    requires r.events == tx.events || (r.events == tx.events + [e] && !e.Message?)
    requires SideOf(r) == SideOf(tx) && SameModes(tx.ctrl, r.ctrl)
    ensures Disposed(connector, tx, r)
  {
    if r.events != tx.events { assert r.events[..|r.events| - 1] == tx.events; }
  }

  lemma ModesKept(c: Controller, setBits: Csr)
    requires IL !in setBits && EL !in setBits && RL !in setBits
    ensures SameModes(c, UpdateCsr(c, setBits, {}))
  {
  }

  lemma ReportDisposed(connector: bool, tx: Tx, xi: bool, xl: bool)
    ensures Disposed(connector, tx, Reported(tx, xi, xl))
  {
    hide UpdateCsr, Disposed;
    ModesKept(tx.ctrl, (if xl then {XL} else {}) + (if xi then {XI} else {}));
    DisposedQuietly(connector, tx, Reported(tx, xi, xl), Report(xi, xl));
  }

  lemma HandDisposed(env: TxEnv, tx: Tx, flags: Word)
    ensures Disposed(env.connector, tx, HandedOn(env, tx, flags))
    ensures RouteOf(env, tx.ctrl, flags).ToSetup? <==> flags / 0x1000 % 2 == 1
  {
    hide UpdateCsr, Enqueue, AfterSetup, Padded, Pad;
    HandedOnEvents(env, tx, flags);
    var r, e := HandedOn(env, tx, flags), Message(tx.buffer, RouteOf(env, tx.ctrl, flags));
    ModesKept(tx.ctrl, {CA});
    ModesKept(UpdateCsr(tx.ctrl, {CA}, {}), {CA});
    PadIs(tx.buffer);
    assert r.events[..|r.events| - 1] == tx.events && r.events[|r.events| - 1] == e;
    assert AfterEvents(env.connector, SideOf(tx), tx.events, |tx.events|) == SideOf(tx);
  }

  lemma GatherDisposed(env: TxEnv, tx: Tx, flags: Word, low: Word, count: Word)
    ensures Disposed(env.connector, tx, Gather(env, tx, flags, low, count).tx)
  {
    hide HandedOn, RouteOf, Reported, Written, ReadOk, TxStatus, BytesAnswer, BufferLength, BufferAddress, Disposed;
    var t := if tx.pendingXi then Reported(tx, true, false) else tx;
    if tx.pendingXi {
      ReportDisposed(env.connector, tx, true, false);
    } else {
      DisposedQuietly(env.connector, tx, t, Report(true, false));
    }
    var address, len := BufferAddress(flags, low), BufferLength(flags, count);
    if BytesAnswer(t.mem, address, len) {
      BytesAnswerHold(t.mem, address, len);
      var bytes := BytesAt(t.mem, address, len);
      var g := t.(buffer := t.buffer + bytes, events := t.events + [Buffer(bytes)]);
      DisposedQuietly(env.connector, t, g, Buffer(bytes));
      DisposedTwice(env.connector, tx, t, g);
      var h := if DscE(flags) then HandedOn(env, g, flags) else g;
      if DscE(flags) { HandDisposed(env, g, flags); } else { DisposedQuietly(env.connector, g, h, Buffer(bytes)); }
      DisposedTwice(env.connector, tx, g, h);
      var r := Gather(env, tx, flags, low, count).tx;
      DisposedQuietly(env.connector, h, r, Buffer(bytes));
      DisposedTwice(env.connector, tx, h, r);
    }
  }

  lemma VisitDisposed(env: TxEnv, tx: Tx)
    ensures Disposed(env.connector, tx, TxVisit(env, tx).tx)
  {
    hide Gather, Reported, Written, Disposed;
    var any := Report(false, false);
    DisposedQuietly(env.connector, tx, tx, any);
    if ReadOk(tx.mem, tx.ba, 6) {
      var bd := WordsAt(tx.mem, tx.ba / 2, 6);
      var marked, r := TxMarked(tx), TxVisit(env, tx).tx;
      DisposedQuietly(env.connector, tx, marked, any);
      if DscC(bd[1]) {
        DisposedQuietly(env.connector, tx, r, any);
      } else if !DscV(bd[1]) {
        ReportDisposed(env.connector, marked, tx.pendingXi, true);
        DisposedTwice(env.connector, tx, marked, r);
      } else {
        GatherDisposed(env, marked, bd[1], bd[2], bd[3]);
        DisposedTwice(env.connector, tx, marked, r);
      }
    }
  }

  /** What a whole walk, however it ends, does with its messages: each takes the route of the modes the walk began in,
  and queue, loss count and filter are those its messages leave, in order. */
  predicate WalkDisposed(connector: bool, tx: Tx, end: TxEnd) {
    && tx.events <= end.tx.events
    && SideOf(end.tx) == AfterEvents(connector, SideOf(tx), end.tx.events, |tx.events|)
    && forall i :: |tx.events| <= i < |end.tx.events| && end.tx.events[i].Message? ==>
         RoutedBy(connector, tx.ctrl, end.tx.events[i].route)
  }

  lemma {:induction false} WalkDisposes(connector: bool, wire: nat -> bool, tx: Tx, start: nat, n: nat)
    requires n <= MAX_DESCRIPTORS + 1
    ensures WalkDisposed(connector, tx, TxWalk(connector, wire, tx, start, n))
    decreases MAX_DESCRIPTORS + 1 - n
  {
    hide TxVisit, TxWalk, Reported, Disposed, WalkDisposed;
    TxWalkTurn(connector, wire, tx, start, n);
    var end := TxWalk(connector, wire, tx, start, n);
    if n > 0 && (tx.ba == start || n > MAX_DESCRIPTORS) {
      ReportDisposed(connector, tx, tx.pendingXi, true);
      DisposedEnds(connector, tx, end.tx, end);
    } else {
      var pass := TxVisit(TxEnv(connector, wire(n)), tx);
      VisitDisposed(TxEnv(connector, wire(n)), tx);
      if pass.TxMore? {
        WalkDisposes(connector, wire, pass.tx, start, n + 1);
        DisposedOn(connector, tx, pass.tx, end);
      } else {
        DisposedEnds(connector, tx, pass.tx, end);
      }
    }
  }

  lemma DisposedEnds(connector: bool, tx: Tx, r: Tx, end: TxEnd)
    requires Disposed(connector, tx, r) && end.tx == r.(ctrl := end.tx.ctrl)
    ensures WalkDisposed(connector, tx, end)
  {
    hide AfterEvents;
  }

  lemma DisposedOn(connector: bool, tx: Tx, m: Tx, end: TxEnd)
    requires Disposed(connector, tx, m) && WalkDisposed(connector, m, end)
    ensures WalkDisposed(connector, tx, end)
  {
    hide AfterEvents;
    var r := end.tx.(ctrl := m.ctrl);
    assert Disposed(connector, m, r);
    DisposedTwice(connector, tx, m, r);
  }

  // --- what the wire is offered ------------------------------------------------------------

  /** A message for the wire counts as sent exactly if a connector returns it or the interface takes it. */
  lemma SentExactly(env: TxEnv, c: Controller, flags: Word)
    requires RouteOf(env, c, flags).Wire?
    ensures RouteOf(env, c, flags).sent <==> env.connector || env.sent
  {
  }

  // --- one descriptor -------------------------------------------------------------------------

  /** The six words of the descriptor a walk has come to. */
  predicate Reads(tx: Tx, bd: seq<Word>) {
    |bd| == 6 && ReadOk(tx.mem, tx.ba, |bd|) && WordsAt(tx.mem, tx.ba / 2, |bd|) == bd
  }

  /** The bytes of a buffer are the next of the message, as guest memory holds them. */
  predicate Gathered(tx: Tx, m: Memory, address: nat, len: nat, pass: TxPass, ends: bool) {
    && Holds(m, address, len)
    && var k := |tx.events| + (if tx.pendingXi then 1 else 0);
       && |pass.tx.events| == k + 1 + (if ends then 1 else 0) && pass.tx.events[k] == Buffer(BytesAt(m, address, len))
       && (pass.TxMore? ==> pass.tx.ba == tx.ba + 12)
  }

  /** By bits 15:13 of a descriptor's flags: a chain is followed; an invalid one ends the list; any other adds the bytes
  of its buffer in guest memory to the message, and the walk goes on behind it. */
  predicate Followed(tx: Tx, m: Memory, bd: seq<Word>, pass: TxPass)
    requires |bd| == 6
  {
    var flags: nat, low: nat := bd[1], bd[2];
    var address, len := BufferAddress(bd[1], bd[2]), BufferLength(bd[1], bd[3]);
    if flags / 0x4000 % 2 == 1 then
      pass.TxMore? && pass.tx.ba == flags % 0x40 * 0x1_0000 + low && pass.tx.events == tx.events
    else if flags < 0x8000 then pass.TxDone?
    else if !BytesAnswer(m, address, len) then pass.TxTimeout?
    else Gathered(tx, m, address, len, pass, flags / 0x2000 % 2 == 1)
  }

  /** What a descriptor that answers does. */
  lemma VisitFollows(env: TxEnv, tx: Tx, bd: seq<Word>)
    requires Reads(tx, bd)
    ensures Followed(tx, TxMarked(tx).mem, bd, TxVisit(env, tx))
  {
    hide Gather, Reported, Written, BytesAnswer, BufferLength, BufferAddress, WordsAt, Gathered, AllAnswer;
    GatherNeverDone(env, TxMarked(tx));
    if bd[1] / 0x4000 % 2 == 0 && bd[1] >= 0x8000 { GatherFollows(env, TxMarked(tx), bd[1], bd[2], bd[3]); }
    GatheredSame(tx, TxMarked(tx));
  }

  lemma GatheredSame(tx: Tx, t: Tx)
    requires t == tx.(mem := t.mem)
    ensures forall m, address, len, pass, ends ::
              Gathered(t, m, address, len, pass, ends) == Gathered(tx, m, address, len, pass, ends)
  {
  }

  lemma GatherFollows(env: TxEnv, tx: Tx, flags: Word, low: Word, count: Word)
    ensures var pass, address, len := Gather(env, tx, flags, low, count), BufferAddress(flags, low),
                                      BufferLength(flags, count);
            if !BytesAnswer(tx.mem, address, len) then pass.TxTimeout?
            else Gathered(tx, tx.mem, address, len, pass, flags / 0x2000 % 2 == 1)
  {
    hide HandedOn, RouteOf, Written, TxStatus, BytesAnswer, BufferLength, BufferAddress, ReadOk, UpdateCsr;
    var address, len := BufferAddress(flags, low), BufferLength(flags, count);
    if BytesAnswer(tx.mem, address, len) {
      BytesAnswerHold(tx.mem, address, len);
      var t := if tx.pendingXi then Reported(tx, true, false) else tx;
      var bytes := BytesAt(tx.mem, address, len);
      HandedOnEvents(env, t.(buffer := t.buffer + bytes, events := t.events + [Buffer(bytes)]), flags);
    }
  }
}
