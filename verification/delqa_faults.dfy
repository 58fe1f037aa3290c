/** What goes wrong in a DELQA receive walk, and exactly when: segments lost to a bus timeout, deliveries without a
receive interrupt, and descriptors with nothing in their buffer. */
module DelqaFaults {
  import opened GuestMemory
  import opened ByteDma
  import opened DelqaFilter
  import opened DelqaQueue
  import opened DelqaDescriptor
  import opened DelqaMemory
  import opened R = DelqaReceive

  // --- empty buffers --------------------------------------------------------------

  /** A descriptor with an empty buffer takes nothing: the packet stays where it was, and unless it is through
  with the packet the descriptor is reported, all ones, as one more segment of it. */
  lemma EmptyBufferTakesNothing(env: Env, rx: Rx, flags: Word, low: Word, count: Word)
    requires rx.queue != [] && PacketOk(rx.queue[0]) && BufferLength(flags, count) == 0
    ensures var d, p := Segment(env, rx, flags, low, count), rx.queue[0];
            && d.bytes == [] && d.used == p.used && Advanced(rx.queue, d) == [Normalize(p)] + rx.queue[1..]
            && Rest(Normalize(p)) == Rest(p)
            && (Rest(p) != [] && d.kind != BootRom ==> !d.Last() && Status1(d) == Status2(d) == 0xffff)
  {
    hide BufferLength;
    var d, p := Segment(env, rx, flags, low, count), rx.queue[0];
    assert Normalize(p).(used := d.used) == Normalize(p);
    MoreDecodes(d);
  }

  // --- lost segments ------------------------------------------------------------------

  /** Neither the buffer a segment goes into nor its status words time out. */
  predicate Lands(m: Memory, ba: nat, d: Delivery) {
    BytesAnswer(m, d.address, |d.bytes|) && ReadOk(m, ba + 8, 2)
  }

  /** A descriptor with a buffer stops the walk exactly when buffer or status times out; the segment has then
  left the queue and no status reports it. */
  lemma SegmentLost(env: Env, rx: Rx)
    requires QueueOk(rx.queue) && ReadOk(rx.mem, rx.ba, 2) && OrderAt(rx).Fills?
    ensures var p, d := Visit(env, rx), SegmentAt(env, rx);
            && (p.Timeout? <==> !Lands(rx.mem, rx.ba, d)) && (p.More? <==> Lands(rx.mem, rx.ba, d))
            && (p.Timeout? ==> p.lost == d.bytes && p.rx.queue == Advanced(rx.queue, d))
            && (p.Timeout? ==> p.rx.log == rx.log && p.rx.loss == 0)
  {
    hide Deliver, Decode, Segment, Written, ReadOk, BytesAnswer, Advanced;
    var o := OrderAt(rx);
    assert PacketOk(rx.queue[0]);
    DeliverLost(env, Marked(rx), o.flags, o.low, o.count);
    MarkedAnswers(rx, SegmentAt(env, rx));
    MarkedKeys(rx);
    SameAnswers(Marked(rx).mem, rx.mem, rx.ba);
  }

  lemma MarkedKeys(rx: Rx)
    ensures Marked(rx).mem.Keys == rx.mem.Keys
  {
  }

  lemma SameAnswers(m: Memory, m1: Memory, ba: nat)
    requires m.Keys == m1.Keys
    ensures ReadOk(m, ba + 8, 2) == ReadOk(m1, ba + 8, 2)
  {
    AnswersSame(m, m1, (ba + 8) / 2, 2);
  }

  lemma DeliverLost(env: Env, rx: Rx, flags: Word, low: Word, count: Word)
    requires rx.queue != [] && PacketOk(rx.queue[0])
    ensures var p, d := Deliver(env, rx, flags, low, count), Segment(env, rx, flags, low, count);
            && (p.Timeout? <==> !Lands(rx.mem, rx.ba, d)) && (p.More? <==> Lands(rx.mem, rx.ba, d))
            && (p.Timeout? ==> p.lost == d.bytes && p.rx.queue == Advanced(rx.queue, d))
            && (p.Timeout? ==> p.rx.log == rx.log && p.rx.loss == 0)
  {
    hide Segment, Advanced, Status1, Status2, BytesAnswer, ReadOk, ByteWrite, Written;
    var d := Segment(env, rx, flags, low, count);
    SameAnswers(ByteWrite(rx.mem, d.address, d.bytes), rx.mem, rx.ba);
  }

  /** A wire packet all of whose bytes are taken, the last of them torn, is still at the queue head; the next
  descriptor with a buffer completes it without a byte, under its full length and, up to the largest frame,
  without an error. */
  lemma SpentReported(env: Env, rx: Rx)
    requires QueueOk(rx.queue) && ReadOk(rx.mem, rx.ba, 2) && OrderAt(rx).Fills?
    requires rx.queue[0].kind == Normal && rx.queue[0].used == |rx.queue[0].data| > 0
    ensures var d, length := SegmentAt(env, rx), |rx.queue[0].data|;
            var w1, w2 := Status1(d), Status2(d);
            && d.bytes == [] && d.Last() && d.kind == Normal
            && HostRbl(w1, w2) + ETH_MIN_PACKET == length
            && !HostMore(w1) && (w1 / 0x4000 != 0 <==> length > ETH_MAX_PACKET && !env.el)
            && (Lands(rx.mem, rx.ba, d) ==>
                  Visit(env, rx).More? && Visit(env, rx).rx.log == rx.log + [d]
                  && Visit(env, rx).rx.queue == rx.queue[1..])
  {
    hide Decode, Status1, Status2, HostRbl, Written, ByteWrite, BytesAnswer, ReadOk, Deliver;
    var d, o := SegmentAt(env, rx), OrderAt(rx);
    assert PacketOk(rx.queue[0]);
    NormalDecodes(d);
    MoreDecodes(d);
    SpentStatus(d);
    SegmentLost(env, rx);
    VisitDelivers(env, rx);
    if Lands(rx.mem, rx.ba, d) { DeliverShifts(env, Marked(rx), o.flags, o.low, o.count); }
  }

  lemma SpentStatus(d: Delivery)
    requires d.kind == Normal && d.Last()
    ensures Status1(d) / 0x4000 != 0 <==> LengthError(d)
  {
  }

  lemma DeliverShifts(env: Env, rx: Rx, flags: Word, low: Word, count: Word)
    requires rx.queue != [] && PacketOk(rx.queue[0]) && Deliver(env, rx, flags, low, count).More?
    ensures Segment(env, rx, flags, low, count).Last() ==>
              Deliver(env, rx, flags, low, count).rx.queue == rx.queue[1..]
  {
    hide Segment, Status1, Status2, Written, ByteWrite, BytesAnswer, ReadOk;
  }

  /** Where a walk stands at the last descriptor it looks at, and how many it has behind it. */
  datatype Place = Place(rx: Rx, n: nat)

  function LastPlace(env: Env, rx: Rx, start: nat, n: nat): (p: Place)
    requires QueueOk(rx.queue) && n <= MAX_DESCRIPTORS + 1
    ensures QueueOk(p.rx.queue)
    decreases MAX_DESCRIPTORS + 1 - n
  {
    if Visits(rx, start, n) then
      VisitKeepsQueue(env, rx);
      var p := Visit(env, rx);
      if p.More? then LastPlace(env, p.rx, start, n + 1) else Place(rx, n)
    else Place(rx, n)
  }

  /** A descriptor whose segment does not land. */
  predicate Tears(env: Env, p: Place, start: nat)
    requires QueueOk(p.rx.queue)
  {
    Visits(p.rx, start, p.n) && OrderAt(p.rx).Fills? && !Lands(p.rx.mem, p.rx.ba, SegmentAt(env, p.rx))
  }

  /** What a whole walk loses: exactly the segment of its last descriptor, if that one's buffer or status times out. */
  lemma {:induction false} WalkLoses(env: Env, rx: Rx, start: nat, n: nat)
    requires QueueOk(rx.queue) && n <= MAX_DESCRIPTORS + 1
    ensures var end, last := Walk(env, rx, start, n), LastPlace(env, rx, start, n);
            && end.lost == (if Tears(env, last, start) then SegmentAt(env, last.rx).bytes else [])
            && (Tears(env, last, start) ==>
                  end.stop == TimedOut && end.rx.queue == Advanced(last.rx.queue, SegmentAt(env, last.rx)))
    decreases MAX_DESCRIPTORS + 1 - n
  {
    hide Visit, Walk, OrderAt, SegmentAt, Lands, QueueOk, ReadOk;
    WalkTurn(env, rx, start, n);
    if Visits(rx, start, n) {
      VisitKeepsQueue(env, rx);
      var p := Visit(env, rx);
      if OrderAt(rx).Fills? { SegmentLost(env, rx); } else { NothingLost(env, rx); }
      if p.More? { WalkLoses(env, p.rx, start, n + 1); }
    }
  }

  lemma NothingLost(env: Env, rx: Rx)
    requires QueueOk(rx.queue) && ReadOk(rx.mem, rx.ba, 2) && !OrderAt(rx).Fills?
    ensures LostOf(Visit(env, rx)) == []
  {
    hide Decode, Written, ReadOk;
  }

  /** A place whose words do not all answer: those the descriptor is read from, those of the buffer it describes, or
  those of its status. */
  predicate Silent(env: Env, p: Place, start: nat)
    requires QueueOk(p.rx.queue)
  {
    || !ReadOk(p.rx.mem, p.rx.ba, 2)
    || (Visits(p.rx, start, p.n) && (OrderAt(p.rx).Unreadable? || Tears(env, p, start)))
  }

  lemma UnreadableStops(env: Env, rx: Rx)
    requires QueueOk(rx.queue) && ReadOk(rx.mem, rx.ba, 2) && !OrderAt(rx).Fills?
    ensures Visit(env, rx).Timeout? <==> OrderAt(rx).Unreadable?
  {
    hide Decode, Written, ReadOk;
  }

  /** A walk ends in a timeout if and only if the last place it looks at has words that do not answer. */
  lemma {:induction false} WalkTimesOut(env: Env, rx: Rx, start: nat, n: nat)
    requires QueueOk(rx.queue) && n <= MAX_DESCRIPTORS + 1
    ensures Walk(env, rx, start, n).stop == TimedOut <==> Silent(env, LastPlace(env, rx, start, n), start)
    decreases MAX_DESCRIPTORS + 1 - n
  {
    hide Visit, Walk, OrderAt, SegmentAt, Lands, QueueOk, ReadOk;
    WalkTurn(env, rx, start, n);
    if Visits(rx, start, n) {
      VisitKeepsQueue(env, rx);
      var p := Visit(env, rx);
      if OrderAt(rx).Fills? { SegmentLost(env, rx); } else { UnreadableStops(env, rx); }
      if p.More? { WalkTimesOut(env, p.rx, start, n + 1); }
    }
  }

  // --- why a walk stops ---------------------------------------------------------------

  /** The bits a descriptor goes by: bit 15 makes it valid, bit 14 a chain, and without either it is read on as far as
  that takes. */
  lemma OrderBits(m: Memory, ba: nat, flags: Word, empty: bool)
    ensures var o := Decode(m, ba, flags, empty);
            && (o.Ends? <==> flags < 0x8000)
            && (o.Chains? <==> flags >= 0xC000 && ReadOk(m, ba + 4, 1))
            && (o.Waits? <==> 0x8000 <= flags < 0xC000 && empty)
            && (o.Fills? <==> 0x8000 <= flags < 0xC000 && !empty && ReadOk(m, ba + 4, 4))
            && (o.Fills? ==> o.flags == flags)
            && (o.Chains? ==> o.ba == flags % 0x40 * 0x1_0000 + WordsAt(m, (ba + 4) / 2, 1)[0])
  {
    hide WordsAt, AllAnswer;
  }

  /** Where a buffer lies and how long it is: the 22-bit address and twice the negative word count, moved up a byte by
  bit 6 and shortened by one for each of bits 6 and 7. */
  lemma BufferBits(flags: Word, low: Word, count: Word)
    requires count != 0
    ensures BufferAddress(flags, low) == flags % 0x40 * 0x1_0000 + low + (if flags % 0x80 >= 0x40 then 1 else 0)
    ensures BufferLength(flags, count)
         == 2 * (0x1_0000 - count) - (if flags % 0x80 >= 0x40 then 1 else 0) - (if flags % 0x100 >= 0x80 then 1 else 0)
  {
  }

  /** The reason a walk stops, by the last place it looks at. */
  lemma {:induction false} WalkStopsWhere(env: Env, rx: Rx, start: nat, n: nat)
    requires QueueOk(rx.queue) && n <= MAX_DESCRIPTORS + 1
    ensures var stop, p := Walk(env, rx, start, n).stop, LastPlace(env, rx, start, n);
            && (stop == ListEnded <==> Visits(p.rx, start, p.n) && OrderAt(p.rx).Ends?)
            && (stop == QueueDrained <==> Visits(p.rx, start, p.n) && OrderAt(p.rx).Waits?)
            && (stop == Circled <==> ReadOk(p.rx.mem, p.rx.ba, 2) && p.n > 0 && p.rx.ba == start)
            && (stop == TooLong <==> ReadOk(p.rx.mem, p.rx.ba, 2) && !(p.n > 0 && p.rx.ba == start) && p.n > 256)
    decreases MAX_DESCRIPTORS + 1 - n
  {
    hide Visit, Walk, OrderAt, SegmentAt, Lands, QueueOk, ReadOk;
    WalkTurn(env, rx, start, n);
    if Visits(rx, start, n) {
      VisitKeepsQueue(env, rx);
      var p := Visit(env, rx);
      if OrderAt(rx).Fills? { SegmentLost(env, rx); } else { OrderLeaves(env, rx); }
      if p.More? { WalkStopsWhere(env, p.rx, start, n + 1); }
    }
  }

  lemma OrderLeaves(env: Env, rx: Rx)
    requires QueueOk(rx.queue) && ReadOk(rx.mem, rx.ba, 2) && !OrderAt(rx).Fills?
    ensures var p, o := Visit(env, rx), OrderAt(rx);
            && (p.More? <==> o.Chains?) && (p.EndOfList? <==> o.Ends?) && (p.QueueEmpty? <==> o.Waits?)
            && (p.Timeout? <==> o.Unreadable?)
            && (p.More? ==> p.rx.ba == o.ba)
  {
    hide Decode, Written, ReadOk;
  }

  // --- two walks that fail ------------------------------------------------------------------

  /** A receive list of one descriptor at address 0, for a 60-byte buffer at 0x100; the words after the
  descriptor do not answer, and the buffer does or does not. */
  function ListByte(a: nat): Byte {
    if a == 3 then 0x80 else if a == 5 then 0x01 else if a == 6 then 0xE2 else if a == 7 then 0xFF else 0
  }

  function ListMemory(buffer: bool): Memory {
    map a: nat | a < 0x13C && (a < 12 || (buffer && a >= 0x100)) :: ListByte(a)
  }

  function OneFrame(): (p: Packet)
    ensures PacketOk(p) && p.kind == Normal && |p.data| == 60 && p.used == 0
  {
    Packet(Normal, seq(60, i => 0), 0)
  }

  function ListStart(buffer: bool): (rx: Rx)
    ensures QueueOk(rx.queue)
  {
    Rx(ListMemory(buffer), 0, [OneFrame()], 0, [])
  }

  lemma {:induction false} RangeAnswers(m: Memory, i: nat, n: nat)
    requires forall j :: i <= j < i + n ==> Answers(m, j)
    ensures AllAnswer(m, i, n)
    decreases n
  {
    if n > 0 { RangeAnswers(m, i + 1, n - 1); }
  }

  /** What the controller reads at the descriptor, marked used. */
  lemma ListOrder(buffer: bool)
    ensures var rx := ListStart(buffer);
            ReadOk(rx.mem, 0, 2) && OrderAt(rx) == Fills(0x8000, 0x0100, 0xFFE2)
  {
    hide Written, WithBytes;
    var rx := ListStart(buffer);
    var m, k := rx.mem, Marked(rx).mem;
    RangeAnswers(m, 0, 2);
    MarkedKeys(rx);
    RangeAnswers(k, 2, 4);
    forall a | a in m ensures a in k && (a >= 2 ==> k[a] == m[a]) { MarkInMemory(m, 0, a); }
    WordsAtIs(m, 0, 2, 1);
    WordsAtIs(k, 2, 4, 0);
    WordsAtIs(k, 2, 4, 1);
  }

  lemma ListSegment(env: Env, buffer: bool)
    requires OrderAt(ListStart(buffer)) == Fills(0x8000, 0x0100, 0xFFE2) && ReadOk(ListStart(buffer).mem, 0, 2)
    ensures var d := SegmentAt(env, ListStart(buffer));
            && d.address == 0x100 && d.bytes == OneFrame().data && d.Last() && d.kind == Normal && d.used == 60
            && BytesAnswer(ListMemory(buffer), d.address, |d.bytes|) == buffer
  {
    hide Decode, BytesAnswer, ListMemory, ReadOk, Written, Segment, OneFrame, OrderAt, BufferLength, BufferAddress,
        PacketOk;
    ListBuffer();
    SegmentWhole(env, Marked(ListStart(buffer)), 0x8000, 0x0100, 0xFFE2);
    BufferAnswers(buffer);
  }

  lemma ListBuffer()
    ensures BufferLength(0x8000, 0xFFE2) == 60 && BufferAddress(0x8000, 0x0100) == 0x100
  {
  }

  /** A wire frame of a legal length that just fits its buffer. */
  lemma SegmentWhole(env: Env, rx: Rx, flags: Word, low: Word, count: Word)
    requires rx.queue != [] && PacketOk(rx.queue[0]) && rx.queue[0].kind == Normal && rx.queue[0].used == 0
    requires BufferLength(flags, count) == |rx.queue[0].data| && 60 <= |rx.queue[0].data| <= MAX_RCV_PACKET
    ensures var d, data := Segment(env, rx, flags, low, count), rx.queue[0].data;
            && d.address == BufferAddress(flags, low) && d.bytes == data && d.Last() && d.kind == Normal
            && d.used == |data|
  {
    hide BufferLength, BufferAddress, Recognised;
    assert rx.queue[0].data[0..|rx.queue[0].data|] == rx.queue[0].data;
  }

  lemma BufferAnswers(buffer: bool)
    ensures BytesAnswer(ListMemory(buffer), 0x100, 60) == buffer
  {
    if buffer { RangeAnswers(ListMemory(buffer), 0x80, 30); }
  }

  /** A walk whose first descriptor tears the segment. */
  lemma TornFirst(env: Env, rx: Rx, n: nat)
    requires QueueOk(rx.queue) && n == 0 && ReadOk(rx.mem, rx.ba, 2) && OrderAt(rx).Fills?
    requires !BytesAnswer(rx.mem, SegmentAt(env, rx).address, |SegmentAt(env, rx).bytes|)
    ensures var end, d := Walk(env, rx, rx.ba, n), SegmentAt(env, rx);
            && end.stop == TimedOut && end.lost == d.bytes && end.rx.log == rx.log
            && end.rx.queue == Advanced(rx.queue, d) && end.rx.loss == 0
  {
    hide Walk, Visit, OrderAt, ReadOk, SegmentAt, QueueOk, BytesAnswer, Advanced;
    SegmentLost(env, rx);
    WalkTurn(env, rx, rx.ba, n);
  }

  /** A walk whose first descriptor delivers and whose second does not answer. */
  lemma DeliversFirst(env: Env, rx: Rx, n: nat)
    requires QueueOk(rx.queue) && n == 0 && ReadOk(rx.mem, rx.ba, 2) && OrderAt(rx).Fills?
    requires Lands(rx.mem, rx.ba, SegmentAt(env, rx)) && !ReadOk(rx.mem, rx.ba + 12, 2)
    ensures var end := Walk(env, rx, rx.ba, n);
            && end.stop == TimedOut && end.rx.log == rx.log + [SegmentAt(env, rx)] && end.lost == []
            && end.rx.queue == Visit(env, rx).rx.queue
  {
    hide Walk, Visit, OrderAt, ReadOk, SegmentAt, QueueOk, Lands;
    SegmentLost(env, rx);
    WalkTurn(env, rx, rx.ba, n);
    VisitDelivers(env, rx);
    VisitMoves(env, rx);
    var p := Visit(env, rx);
    StillSilent(rx.mem, p.rx.mem, rx.ba + 12);
    WalkTurn(env, p.rx, rx.ba, n + 1);
  }

  lemma StillSilent(m: Memory, m1: Memory, ba: nat)
    requires m.Keys == m1.Keys && !ReadOk(m, ba, 2)
    ensures !ReadOk(m1, ba, 2)
  {
    AnswersSame(m, m1, ba / 2, 2);
  }

  /** A frame whose buffer times out: no status reports it in that walk, and it stays at the queue head with nothing
  left of it to deliver. */
  lemma FrameLost(env: Env, n: nat)
    requires n == 0
    ensures var end := Walk(env, ListStart(false), 0, n);
            && end.stop == TimedOut && end.lost == OneFrame().data && end.rx.log == []
            && |end.rx.queue| == 1 && end.rx.queue[0].used == 60
  {
    hide Walk, OrderAt, ReadOk, SegmentAt, ListMemory, QueueOk, BytesAnswer;
    ListOrder(false);
    ListSegment(env, false);
    TornFirst(env, ListStart(false), n);
  }

  lemma SameOrder(rx: Rx, q: seq<Packet>)
    requires ReadOk(rx.mem, rx.ba, 2) && rx.queue != [] && q != []
    ensures OrderAt(rx.(queue := q)) == OrderAt(rx)
  {
    hide Decode, Written;
  }

  /** The list armed again with a buffer that answers: the lost frame is reported complete, at its length, and the
  host has got none of it. */
  lemma LostFrameReported(env: Env, n: nat)
    requires n == 0
    ensures var q := Walk(env, ListStart(false), 0, n).rx.queue;
            && QueueOk(q)
            && var end := Walk(env, ListStart(true).(queue := q), 0, n);
               && |end.rx.log| == 1 && end.rx.queue == []
               && var d := end.rx.log[0];
                  && d.bytes == [] && d.Last() && d.kind == Normal
                  && HostRbl(Status1(d), Status2(d)) + ETH_MIN_PACKET == |OneFrame().data|
  {
    hide Walk, Visit, OrderAt, ReadOk, SegmentAt, ListMemory, QueueOk, BytesAnswer, Advanced, Status1, Status2, HostRbl;
    FrameLeft(env, n);
    var q := Walk(env, ListStart(false), 0, n).rx.queue;
    var rx := ListStart(true).(queue := q);
    ListOrder(true);
    SameOrder(ListStart(true), q);
    SpentReported(env, rx);
    var d := SegmentAt(env, rx);
    StatusAnswers();
    assert Lands(rx.mem, rx.ba, d) by { NoBytesAnswer(rx.mem, d); }
    NothingAfter(ListMemory(true));
    DeliversFirst(env, rx, n);
  }

  lemma NoBytesAnswer(m: Memory, d: Delivery)
    requires d.bytes == []
    ensures BytesAnswer(m, d.address, |d.bytes|)
  {
  }

  /** What the lost frame leaves in the queue. */
  lemma FrameLeft(env: Env, n: nat)
    requires n == 0
    ensures Walk(env, ListStart(false), 0, n).rx.queue == [OneFrame().(used := 60)]
    ensures Walk(env, ListStart(false), 0, n).rx.loss == 0
    ensures QueueOk(Walk(env, ListStart(false), 0, n).rx.queue)
  {
    hide Walk, OrderAt, ReadOk, SegmentAt, ListMemory, BytesAnswer;
    ListOrder(false);
    ListSegment(env, false);
    TornFirst(env, ListStart(false), n);
  }

  /** A software reset in between instead, and the frame waits again in full: `DeliveredThenTimeout` is then the
  next walk. */
  lemma LostFrameAgain(env: Env, n: nat)
    requires n == 0
    ensures ListStart(true).(queue := AfterReset(Walk(env, ListStart(false), 0, n).rx.queue)) == ListStart(true)
  {
    hide Walk, ListMemory;
    FrameLeft(env, n);
    var p := OneFrame().(used := 60);
    assert [p][1..] == [] && AfterReset([]) == [];
    assert p.(used := 0) == OneFrame();
  }

  /** A frame delivered before the timeout: it is in its buffer with its status, and the walk ends in the timeout. */
  lemma DeliveredThenTimeout(env: Env, n: nat)
    requires n == 0
    ensures var end := Walk(env, ListStart(true), 0, n);
            end.stop == TimedOut && |end.rx.log| == 1 && end.rx.log[0].bytes == OneFrame().data && end.lost == []
  {
    hide Visit, Walk, OrderAt, ReadOk, SegmentAt, ListMemory, QueueOk, BytesAnswer;
    ListOrder(true);
    ListSegment(env, true);
    StatusAnswers();
    NothingAfter(ListMemory(true));
    DeliversFirst(env, ListStart(true), n);
  }

  lemma StatusAnswers()
    ensures ReadOk(ListMemory(true), 8, 2)
  {
    RangeAnswers(ListMemory(true), 4, 2);
  }

  lemma NothingAfter(m: Memory)
    requires m.Keys == ListMemory(true).Keys
    ensures !ReadOk(m, 12, 2)
  {
    assert 12 !in ListMemory(true).Keys;
  }

  lemma VisitMoves(env: Env, rx: Rx)
    requires QueueOk(rx.queue) && ReadOk(rx.mem, rx.ba, 2) && OrderAt(rx).Fills? && Visit(env, rx).More?
    ensures Visit(env, rx).rx.ba == rx.ba + 12 && Visit(env, rx).rx.mem.Keys == rx.mem.Keys
  {
    hide Decode, Segment, Status1, Status2, BytesAnswer, ReadOk, Written, ByteWrite;
    MarkedKeys(rx);
    var o := OrderAt(rx);
    assert PacketOk(rx.queue[0]);
    var d := SegmentAt(env, rx);
    WriteKeys(ByteWrite(Marked(rx).mem, d.address, d.bytes), rx.ba + 8, [Status1(d), Status2(d)]);
  }

  lemma WriteKeys(m: Memory, addr: nat, ws: seq<Word>)
    ensures Written(m, addr, ws).Keys == m.Keys
  {
  }
}
