/** What the DELQA's two walks, taken whole, leave in guest memory. */
module DelqaMemory {
  import opened GuestMemory
  import opened ByteDma
  import opened DelqaQueue
  import opened DelqaDescriptor
  import R = DelqaReceive
  import T = DelqaTransmit

  /** A write, complete or not, changes nothing outside its range. */
  lemma WrittenFrame(m: Memory, addr: nat, ws: seq<Word>, a: nat)
    requires a in m
    ensures Written(m, addr, ws).Keys == m.Keys
    ensures !In(a, addr / 2 * 2, 2 * |ws|) ==> Written(m, addr, ws)[a] == m[a]
  {
    hide WithBytes, Unpack;
    WithBytesAt(m, addr / 2 * 2, Unpack(ws[..Reach(m, addr / 2, |ws|)]), a);
  }

  lemma ByteWriteFrame(m: Memory, addr: nat, bs: seq<Byte>, a: nat)
    requires a in m
    ensures ByteWrite(m, addr, bs).Keys == m.Keys
    ensures !In(a, addr, |bs|) ==> ByteWrite(m, addr, bs)[a] == m[a]
  {
    hide WithBytes, BytesReached;
    WithBytesAt(m, addr, bs[..BytesReached(m, addr, |bs|)], a);
  }

  // --- transmit -------------------------------------------------------------------

  /** The two places of a descriptor the controller writes. */
  predicate InSlot(ba: nat, a: nat) { In(a, ba / 2 * 2, 2) || In(a, ba / 2 * 2 + 8, 4) }

  lemma TxVisitFrame(env: T.TxEnv, tx: T.Tx, a: nat)
    requires a in tx.mem
    ensures var r := T.TxVisit(env, tx).tx;
            r.mem.Keys == tx.mem.Keys && (!InSlot(tx.ba, a) ==> r.mem[a] == tx.mem[a])
  {
    hide T.Gather, T.Reported, Written, WordsAt;
    WrittenFrame(tx.mem, tx.ba, [0xffff], a);
    if ReadOk(tx.mem, tx.ba, 6) {
      var bd := WordsAt(tx.mem, tx.ba / 2, 6);
      ReportedFrame(T.TxMarked(tx), tx.pendingXi, true);
      GatherFrame(env, T.TxMarked(tx), bd[1], bd[2], bd[3], a);
    }
  }

  lemma ReportedFrame(tx: T.Tx, xi: bool, xl: bool)
    ensures T.Reported(tx, xi, xl).mem == tx.mem && T.Reported(tx, xi, xl).ba == tx.ba
  {
  }

  lemma GatherFrame(env: T.TxEnv, tx: T.Tx, flags: Word, low: Word, count: Word, a: nat)
    requires a in tx.mem
    ensures var r := T.Gather(env, tx, flags, low, count).tx;
            r.mem.Keys == tx.mem.Keys && (!In(a, tx.ba / 2 * 2 + 8, 4) ==> r.mem[a] == tx.mem[a])
  {
    hide T.HandedOn, T.RouteOf, T.Reported, BytesAnswer, BufferLength, BufferAddress, Written, T.TxStatus, ReadOk;
    var t := if tx.pendingXi then T.Reported(tx, true, false) else tx;
    ReportedFrame(tx, true, false);
    var address, len := BufferAddress(flags, low), BufferLength(flags, count);
    if BytesAnswer(t.mem, address, len) {
      BytesAnswerHold(t.mem, address, len);
      var bytes := BytesAt(t.mem, address, len);
      var g := t.(buffer := t.buffer + bytes, events := t.events + [T.Buffer(bytes)]);
      T.HandedOnEvents(env, g, flags);
      var st := if DscE(flags) then T.TxStatus(T.RouteOf(env, g.ctrl, flags), |g.buffer|) else [0xffff, 0xffff];
      T.StatusTwoWords(T.RouteOf(env, g.ctrl, flags), |g.buffer|);
      assert (tx.ba + 8) / 2 * 2 == tx.ba / 2 * 2 + 8;
      WrittenFrame(tx.mem, tx.ba + 8, st, a);
    }
  }

  /** Whether a transmit walk writes at `a`: the used mark or the status of a descriptor it visits. */
  predicate TxTouches(connector: bool, wire: nat -> bool, tx: T.Tx, start: nat, n: nat, a: nat)
    requires n <= MAX_DESCRIPTORS + 1
    decreases MAX_DESCRIPTORS + 1 - n
  {
    !(n > 0 && (tx.ba == start || n > MAX_DESCRIPTORS))
    && (InSlot(tx.ba, a)
        || var p := T.TxVisit(T.TxEnv(connector, wire(n)), tx);
           p.TxMore? && TxTouches(connector, wire, p.tx, start, n + 1, a))
  }

  /** A transmit walk, however it ends, changes nothing but the used marks and status words of the descriptors
  it visits. */
  lemma {:induction false} TxWalkFrame(connector: bool, wire: nat -> bool, tx: T.Tx, start: nat, n: nat, a: nat)
    requires n <= MAX_DESCRIPTORS + 1 && a in tx.mem && !TxTouches(connector, wire, tx, start, n, a)
    ensures var r := T.TxWalk(connector, wire, tx, start, n).tx; r.mem.Keys == tx.mem.Keys && r.mem[a] == tx.mem[a]
    decreases MAX_DESCRIPTORS + 1 - n
  {
    hide T.TxVisit, T.TxWalk, T.Reported, InSlot;
    T.TxWalkTurn(connector, wire, tx, start, n);
    if n > 0 && (tx.ba == start || n > MAX_DESCRIPTORS) {
      ReportedFrame(tx, tx.pendingXi, true);
    } else {
      TxVisitFrame(T.TxEnv(connector, wire(n)), tx, a);
      var p := T.TxVisit(T.TxEnv(connector, wire(n)), tx);
      if p.TxMore? { TxWalkFrame(connector, wire, p.tx, start, n + 1, a); }
    }
  }

  // --- receive ----------------------------------------------------------------------

  /** Whether the walk goes to a descriptor at all. */
  predicate Visits(rx: R.Rx, start: nat, n: nat) {
    ReadOk(rx.mem, rx.ba, 2) && !(n > 0 && rx.ba == start) && n <= MAX_DESCRIPTORS
  }

  /** What a descriptor asks for. */
  function OrderAt(rx: R.Rx): (o: R.Order)
    requires ReadOk(rx.mem, rx.ba, 2)
    ensures o.Fills? ==> rx.queue != []
  {
    R.Decode(R.Marked(rx).mem, rx.ba, R.Flags(rx), rx.queue == [])
  }

  /** The segment that goes into its buffer. */
  function SegmentAt(env: R.Env, rx: R.Rx): (d: R.Delivery)
    requires QueueOk(rx.queue) && ReadOk(rx.mem, rx.ba, 2) && OrderAt(rx).Fills?
    ensures d.descriptor == rx.ba
  {
    var o := OrderAt(rx);
    assert PacketOk(rx.queue[0]);
    R.Segment(env, R.Marked(rx), o.flags, o.low, o.count)
  }

  predicate InBuffer(d: R.Delivery, a: nat) { In(a, d.address, |d.bytes|) }

  lemma DeliverFrame(env: R.Env, rx: R.Rx, flags: Word, low: Word, count: Word, a: nat)
    requires rx.queue != [] && PacketOk(rx.queue[0]) && a in rx.mem
    ensures var r, d := R.Deliver(env, rx, flags, low, count).rx, R.Segment(env, rx, flags, low, count);
            && r.mem.Keys == rx.mem.Keys
            && (!In(a, rx.ba / 2 * 2 + 8, 4) && !InBuffer(d, a) ==> r.mem[a] == rx.mem[a])
  {
    hide R.Status1, R.Status2, R.Segment, R.Advanced, Written, ByteWrite, WithBytes, BytesAnswer, ReadOk;
    var d := R.Segment(env, rx, flags, low, count);
    assert (rx.ba + 8) / 2 * 2 == rx.ba / 2 * 2 + 8;
    ByteWriteFrame(rx.mem, d.address, d.bytes, a);
    WrittenFrame(ByteWrite(rx.mem, d.address, d.bytes), rx.ba + 8, [R.Status1(d), R.Status2(d)], a);
  }

  /** One descriptor of a receive list changes its mark, its status and its buffer at most, timeouts included. */
  lemma VisitFrame(env: R.Env, rx: R.Rx, a: nat)
    requires QueueOk(rx.queue) && ReadOk(rx.mem, rx.ba, 2) && a in rx.mem
    ensures var r := R.Visit(env, rx).rx;
            && r.mem.Keys == rx.mem.Keys
            && (!InSlot(rx.ba, a) && (OrderAt(rx).Fills? ==> !InBuffer(SegmentAt(env, rx), a)) ==>
                  r.mem[a] == rx.mem[a])
  {
    hide R.Deliver, R.Decode, R.Segment, Written, ReadOk;
    WrittenFrame(rx.mem, rx.ba, [0xffff], a);
    var o := OrderAt(rx);
    if o.Fills? {
      assert PacketOk(rx.queue[0]);
      DeliverFrame(env, R.Marked(rx), o.flags, o.low, o.count, a);
    }
  }

  /** Whether a receive walk writes at `a`: the mark or status of a descriptor it visits, or a buffer, that of
  delivery number `except` left aside. */
  predicate Touches(env: R.Env, rx: R.Rx, start: nat, n: nat, except: int, a: nat)
    requires QueueOk(rx.queue) && n <= MAX_DESCRIPTORS + 1
    decreases MAX_DESCRIPTORS + 1 - n
  {
    Visits(rx, start, n)
    && (|| InSlot(rx.ba, a)
        || (OrderAt(rx).Fills? && |rx.log| != except && InBuffer(SegmentAt(env, rx), a))
        || (R.VisitKeepsQueue(env, rx);
            var p := R.Visit(env, rx);
            p.More? && Touches(env, p.rx, start, n + 1, except, a)))
  }

  /** A receive walk, however it ends, changes nothing but the marks and statuses of the descriptors it visits
  and the buffers it fills or tears. */
  lemma {:induction false} WalkFrame(env: R.Env, rx: R.Rx, start: nat, n: nat, a: nat)
    requires QueueOk(rx.queue) && n <= MAX_DESCRIPTORS + 1 && a in rx.mem && !Touches(env, rx, start, n, -1, a)
    ensures var r := R.Walk(env, rx, start, n).rx; r.mem.Keys == rx.mem.Keys && r.mem[a] == rx.mem[a]
    decreases MAX_DESCRIPTORS + 1 - n
  {
    hide R.Visit, R.Walk, InSlot, InBuffer, QueueOk, OrderAt;
    R.WalkTurn(env, rx, start, n);
    if Visits(rx, start, n) {
      VisitFrame(env, rx, a);
      var p := R.Visit(env, rx);
      if p.More? { WalkFrame(env, p.rx, start, n + 1, a); }
    }
  }

  // --- reading the packets back ----------------------------------------------------------

  /** A descriptor either delivers its segment, to a buffer that answers, or leaves the log alone. */
  lemma VisitDelivers(env: R.Env, rx: R.Rx)
    requires QueueOk(rx.queue) && ReadOk(rx.mem, rx.ba, 2)
    ensures var p := R.Visit(env, rx);
            if p.More? && OrderAt(rx).Fills? then
              var d := SegmentAt(env, rx);
              p.rx.log == rx.log + [d] && BytesAnswer(rx.mem, d.address, |d.bytes|)
            else p.rx.log == rx.log
  {
    hide R.Deliver, R.Decode, R.Segment, Written, ReadOk, BytesAnswer;
    var o := OrderAt(rx);
    if o.Fills? {
      assert PacketOk(rx.queue[0]);
      R.DeliverLogs(env, R.Marked(rx), o.flags, o.low, o.count);
      assert rx.log + [] == rx.log;
      if R.Visit(env, rx).More? { DeliverAnswers(env, R.Marked(rx), o.flags, o.low, o.count); }
      MarkedAnswers(rx, SegmentAt(env, rx));
    }
  }

  lemma DeliverAnswers(env: R.Env, rx: R.Rx, flags: Word, low: Word, count: Word)
    requires rx.queue != [] && PacketOk(rx.queue[0]) && R.Deliver(env, rx, flags, low, count).More?
    ensures var d := R.Segment(env, rx, flags, low, count); BytesAnswer(rx.mem, d.address, |d.bytes|)
  {
    hide R.Segment, R.Status1, R.Status2, BytesAnswer, ReadOk, ByteWrite, Written;
  }

  lemma MarkedAnswers(rx: R.Rx, d: R.Delivery)
    ensures BytesAnswer(R.Marked(rx).mem, d.address, |d.bytes|) == BytesAnswer(rx.mem, d.address, |d.bytes|)
  {
    AnswersSame(R.Marked(rx).mem, rx.mem, d.address / 2, Span(d.address, |d.bytes|));
  }

  /** Once delivery `except` is behind the walk, leaving it aside makes no difference. */
  lemma {:induction false} TouchesPast(env: R.Env, rx: R.Rx, start: nat, n: nat, except: nat, a: nat)
    requires QueueOk(rx.queue) && n <= MAX_DESCRIPTORS + 1 && except < |rx.log|
    ensures Touches(env, rx, start, n, except, a) == Touches(env, rx, start, n, -1, a)
    decreases MAX_DESCRIPTORS + 1 - n
  {
    hide R.Visit, InSlot, InBuffer, QueueOk, OrderAt, SegmentAt;
    if Visits(rx, start, n) {
      R.VisitKeepsQueue(env, rx);
      R.VisitLogs(env, rx);
      var p := R.Visit(env, rx);
      if p.More? { TouchesPast(env, p.rx, start, n + 1, except, a); }
    }
  }

  lemma TouchesRest(env: R.Env, rx: R.Rx, start: nat, n: nat, except: int, a: nat)
    requires QueueOk(rx.queue) && n <= MAX_DESCRIPTORS + 1 && !Touches(env, rx, start, n, except, a)
    requires Visits(rx, start, n) && R.Visit(env, rx).More?
    ensures QueueOk(R.Visit(env, rx).rx.queue) && !InSlot(rx.ba, a)
    ensures !Touches(env, R.Visit(env, rx).rx, start, n + 1, except, a)
  {
    hide R.Visit, InSlot, InBuffer, QueueOk, OrderAt, SegmentAt;
    R.VisitKeepsQueue(env, rx);
  }

  /** A byte of a delivered segment that no other part of the walk overlies is in guest memory when the walk is over. */
  lemma {:induction false} SegmentStays(env: R.Env, rx: R.Rx, start: nat, n: nat, k: nat, a: nat)
    requires QueueOk(rx.queue) && n <= MAX_DESCRIPTORS + 1
    requires |rx.log| <= k < |R.Walk(env, rx, start, n).rx.log|
    requires InBuffer(R.Walk(env, rx, start, n).rx.log[k], a) && !Touches(env, rx, start, n, k, a)
    ensures var end := R.Walk(env, rx, start, n);
            a in end.rx.mem && end.rx.mem[a] == end.rx.log[k].bytes[a - end.rx.log[k].address]
    decreases MAX_DESCRIPTORS + 1 - n
  {
    hide R.Visit, R.Walk, InSlot, QueueOk, OrderAt, SegmentAt, Touches, BytesAnswer, ReadOk;
    R.WalkTurn(env, rx, start, n);
    VisitDelivers(env, rx);
    var p := R.Visit(env, rx);
    assert p.More?;
    TouchesRest(env, rx, start, n, k, a);
    R.WalkBounded(env, p.rx, start, n + 1);
    if |p.rx.log| <= k {
      SegmentStays(env, p.rx, start, n + 1, k, a);
    } else {
      FirstStays(env, rx, start, n, a);
    }
  }

  lemma FirstStays(env: R.Env, rx: R.Rx, start: nat, n: nat, a: nat)
    requires QueueOk(rx.queue) && n <= MAX_DESCRIPTORS + 1 && Visits(rx, start, n) && R.Visit(env, rx).More?
    requires !Touches(env, rx, start, n, |rx.log|, a)
    requires OrderAt(rx).Fills? && InBuffer(SegmentAt(env, rx), a)
    ensures QueueOk(R.Visit(env, rx).rx.queue)
    ensures var m, d := R.Walk(env, R.Visit(env, rx).rx, start, n + 1).rx.mem, SegmentAt(env, rx);
            a in m && m[a] == d.bytes[a - d.address]
  {
    hide R.Visit, R.Walk, QueueOk, OrderAt, SegmentAt, Touches, BytesAnswer, ReadOk;
    var d, p := SegmentAt(env, rx), R.Visit(env, rx);
    VisitDelivers(env, rx);
    BytesAnswerHold(rx.mem, d.address, |d.bytes|);
    R.DeliveryInMemory(env, rx, a);
    TouchesRest(env, rx, start, n, |rx.log|, a);
    TouchesPast(env, p.rx, start, n + 1, |rx.log|, a);
    WalkFrame(env, p.rx, start, n + 1, a);
  }

  /** A list whose buffers lie clear of its descriptors and of each other: the host reads every segment back out
  of memory, so what it puts together from its buffers is what `DelqaReceive.WalkConserves` says was delivered.
  */
  lemma HostReadsBack(env: R.Env, rx: R.Rx, start: nat, k: nat)
    requires QueueOk(rx.queue) && rx.log == [] && k < |R.Walk(env, rx, start, 0).rx.log|
    requires forall a: nat :: InBuffer(R.Walk(env, rx, start, 0).rx.log[k], a) ==> !Touches(env, rx, start, 0, k, a)
    ensures var end := R.Walk(env, rx, start, 0);
            var d := end.rx.log[k];
            Holds(end.rx.mem, d.address, |d.bytes|) && BytesAt(end.rx.mem, d.address, |d.bytes|) == d.bytes
  {
    hide R.Walk, Touches, QueueOk;
    var end := R.Walk(env, rx, start, 0);
    var d := end.rx.log[k];
    forall a: nat | InBuffer(d, a) ensures a in end.rx.mem && end.rx.mem[a] == d.bytes[a - d.address] {
      SegmentStays(env, rx, start, 0, k, a);
    }
    forall i | 0 <= i < |d.bytes|
      ensures d.address + i in end.rx.mem && end.rx.mem[d.address + i] == d.bytes[i]
    {
      assert InBuffer(d, d.address + i);
    }
    forall a | d.address <= a < d.address + |d.bytes| ensures a in end.rx.mem { assert InBuffer(d, a); }
  }
}
