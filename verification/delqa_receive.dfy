/** The DELQA receive walk: queued packets delivered into the buffer list a
host has built in its memory, one descriptor at a time.

The walk is given as a function of guest memory and queue (`Walk`), which the
controller's method is proved to compute, and the lemmas say what a host gets
out of it whatever its memory holds: packets arrive whole, in order and once,
statuses decode to the lengths they stand for, and the walk always ends. */
module DelqaReceive {
  import opened GuestMemory
  import opened ByteDma
  import opened DelqaFilter
  import opened DelqaQueue
  import opened DelqaDescriptor

  const ETH_MAX_PACKET := 1518
  const LONG_PACKET := 0x600

  // --- status words -----------------------------------------------------------

  /** What the controller knew when it built a status. */
  datatype Conditions = Conditions(el: bool, re: bool, loss: bool, recognised: bool)

  /** One segment put into a receive buffer: `used` bytes of the packet's `length` are through with it. */
  datatype Delivery = Delivery(descriptor: nat, address: nat, bytes: seq<Byte>, kind: Kind,
                               length: nat, used: nat, cond: Conditions)
  {
    predicate Last() { used >= length }
  }

  function B(b: bool): nat { if b then 1 else 0 }

  /** The value the RBL field is built from. */
  function Rbl(d: Delivery): int {
    match d.kind
    case Loopback => d.length
    case Normal => d.length - ETH_MIN_PACKET
    case _ => |d.bytes|
  }

  predicate Runt(d: Delivery) {
    d.kind == Loopback && d.cond.re && d.length < ETH_MIN_PACKET && !d.cond.recognised
  }

  predicate LengthError(d: Delivery) {
    || (!d.cond.el && Rbl(d) + (if d.kind == Normal then ETH_MIN_PACKET else 0) > ETH_MAX_PACKET)
    || (d.cond.el && d.kind == Loopback && Rbl(d) >= LONG_PACKET)
  }

  /** Status word 1, as a sum of its disjoint bits. */
  function Status1(d: Delivery): Word {
    if !d.Last() && d.kind != BootRom then 0xffff
    else
      0x8000 * B(d.kind == BootRom)
      + 0x4000 * B(!d.Last() || Runt(d) || LengthError(d))
      + 0x2000 * B(d.kind == Setup || (d.kind == Loopback && d.cond.el))
      + 0x0800 * B(Runt(d))
      + 0x0100 * (if d.kind == Setup then 7 else Rbl(d) / 0x100 % 8)
      + (match d.kind case Normal => 0xf8 case Loopback => 0x80 case _ => 0)
      + B(d.cond.loss)
  }

  /** Status word 2: the low RBL byte twice; a boot ROM segment repeats the marker in bits 15:14. */
  function Status2(d: Delivery): Word {
    if !d.Last() && d.kind != BootRom then 0xffff
    else
      var low := Rbl(d) % 0x100;
      if d.Last() then 0x100 * low + low
      else 0xc000 + 0x100 * (low % 0x40) + low
  }

  /** How a host reads the received byte length out of the two words. */
  function HostRbl(st1: Word, st2: Word): nat { st1 / 0x100 % 8 * 0x100 + st2 % 0x100 }

  /** The host's "used, another segment follows": bits 15:14 both set. */
  predicate HostMore(st1: Word) { st1 / 0x4000 == 3 }

  /** The length a host decodes for a completed packet from the wire is its length. */
  lemma NormalDecodes(d: Delivery)
    requires d.kind == Normal && d.Last() && ETH_MIN_PACKET <= d.length <= MAX_RCV_PACKET
    ensures HostRbl(Status1(d), Status2(d)) + ETH_MIN_PACKET == d.length
    ensures Status1(d) / 0x4000 % 2 == 1 <==> d.length > ETH_MAX_PACKET && !d.cond.el
    ensures Status1(d) % 2 == 1 <==> d.cond.loss
  {
    var r := d.length - ETH_MIN_PACKET;
    var loss, error := B(d.cond.loss), B(LengthError(d));
    assert Status1(d) == 0x4000 * error + 0x100 * (r / 0x100) + 0xf8 + loss;
    FieldsApart(error, 0, r / 0x100, 0xf8 + loss, r % 0x100);
  }

  /** The fields of the two words, read back one by one. */
  lemma FieldsApart(error: nat, bit13: nat, high: nat, rest: nat, low: nat)
    requires error < 2 && bit13 < 2 && high < 8 && rest < 0x100 && low < 0x100
    ensures var w := 0x4000 * error + 0x2000 * bit13 + 0x100 * high + rest;
            && w / 0x100 % 8 == high && w / 0x4000 % 2 == error && w / 0x2000 % 2 == bit13
            && w % 2 == rest % 2 && (0x100 * low + low) % 0x100 == low
  {
    var w := 0x4000 * error + 0x2000 * bit13 + 0x100 * high + rest;
    assert w / 0x100 == 0x40 * error + 0x20 * bit13 + high;
    assert w / 0x2000 == 2 * error + bit13;
  }

  /** A looped packet reports its whole length, also when it was split; the error bit outside external loopback is for
  more than 1518 bytes, in it for 1536 or more. */
  lemma LoopbackDecodes(d: Delivery)
    requires d.kind == Loopback && d.Last() && d.length < 0x800 && !Runt(d)
    ensures HostRbl(Status1(d), Status2(d)) == d.length
    ensures Status1(d) / 0x2000 % 2 == 1 <==> d.cond.el
    ensures Status1(d) / 0x4000 % 2 == 1 <==> (if d.cond.el then d.length >= 1536 else d.length > 1518)
    ensures Status1(d) / 0x800 % 2 == 0 && (Status1(d) % 2 == 1 <==> d.cond.loss)
  {
    var loss, error := B(d.cond.loss), B(LengthError(d));
    assert Status1(d) == 0x4000 * error + 0x2000 * B(d.cond.el) + 0x100 * (d.length / 0x100) + 0x80 + loss;
    FieldsApart(error, B(d.cond.el), d.length / 0x100, 0x80 + loss, d.length % 0x100);
    NoRuntBit(error, B(d.cond.el), d.length / 0x100, loss);
  }

  lemma NoRuntBit(error: nat, el: nat, high: nat, loss: nat)
    requires error < 2 && el < 2 && high < 8 && loss < 2
    ensures var w := 0x4000 * error + 0x2000 * el + 0x100 * high + 0x80 + loss; w / 0x800 % 2 == 0 && w % 2 == loss
  {
    var w := 0x4000 * error + 0x2000 * el + 0x100 * high + 0x80 + loss;
    assert w / 0x800 == 8 * error + 4 * el;
  }

  /** A loopback that could not complete - the receiver on, fewer than 60 bytes, a destination nobody answers to -
  reports a runt. */
  lemma RuntDecodes(d: Delivery)
    requires d.kind == Loopback && d.Last()
    ensures Runt(d) <==> d.cond.re && d.length < 60 && !d.cond.recognised
    ensures Runt(d) ==>
              && Status1(d) == 0x4880 + 0x2000 * B(d.cond.el) + B(d.cond.loss)
              && HostRbl(Status1(d), Status2(d)) == d.length
  {
    if Runt(d) { assert d.length / 0x100 == 0; }
  }

  /** A reflected setup packet reports its own mark, and the low byte of its last segment's length twice. */
  lemma SetupDecodes(d: Delivery)
    requires d.kind == Setup && d.Last() && |d.bytes| <= ETH_MAX_PACKET
    ensures Status1(d) == 0x2700 + B(d.cond.loss) && Status2(d) == 0x101 * (|d.bytes| % 0x100)
  {
  }

  /** A boot ROM segment reports its own length, with bit 15 up and bit 14 while another follows; word 2 repeats both
  marks then. */
  lemma BootDecodes(d: Delivery)
    requires d.kind == BootRom && |d.bytes| < 0x600
    ensures Status1(d) / 0x8000 == 1
    ensures Status1(d) / 0x4000 % 2 == 1 <==> !d.Last() || (!d.cond.el && |d.bytes| > 1518)
    ensures d.Last() ==> HostRbl(Status1(d), Status2(d)) == |d.bytes|
    ensures !d.Last() ==> Status2(d) / 0x4000 == 3 && Status2(d) % 0x100 == |d.bytes| % 0x100
  {
    var n, loss, more := |d.bytes|, B(d.cond.loss), B(!d.Last() || LengthError(d));
    assert Status1(d) == 0x8000 + 0x4000 * more + 0x100 * (n / 0x100) + loss;
    BootFields(more, n / 0x100, loss, n % 0x100);
  }

  lemma BootFields(more: nat, high: nat, loss: nat, low: nat)
    requires more < 2 && high < 8 && loss < 2 && low < 0x100
    ensures var w := 0x8000 + 0x4000 * more + 0x100 * high + loss;
            w / 0x8000 == 1 && w / 0x4000 % 2 == more && w / 0x100 % 8 == high && (0x100 * low + low) % 0x100 == low
    ensures var w := 0xc000 + 0x100 * (low % 0x40) + low; w / 0x4000 == 3 && w % 0x100 == low
  {
    var w := 0x8000 + 0x4000 * more + 0x100 * high + loss;
    assert w / 0x100 == 0x80 + 0x40 * more + high;
    assert w / 0x4000 == 2 + more;
    var v := 0xc000 + 0x100 * (low % 0x40) + low;
    assert v / 0x4000 == 3;
  }

  /** A host tells a packet's last segment from the others, except that a boot ROM segment longer than
  a frame, delivered outside external loopback, always reads as followed by another. */
  lemma MoreDecodes(d: Delivery)
    ensures HostMore(Status1(d)) <==> !d.Last() || (d.kind == BootRom && !d.cond.el && |d.bytes| > ETH_MAX_PACKET)
    ensures !d.Last() && d.kind != BootRom ==> Status1(d) == Status2(d) == 0xffff
  {
  }

  // --- the walk ----------------------------------------------------------------

  /** What stays fixed while one walk is under way. */
  datatype Env = Env(el: bool, re: bool, filter: Filter)

  /** The state of a walk: guest memory, list position, queue, loss counter and the segments delivered so far. */
  datatype Rx = Rx(mem: Memory, ba: nat, queue: seq<Packet>, loss: nat, log: seq<Delivery>)

  /** How one descriptor left the walk; `lost` is a segment taken off the queue that no status reports. */
  datatype Pass = More(rx: Rx) | EndOfList(rx: Rx) | QueueEmpty(rx: Rx) | Timeout(rx: Rx, lost: seq<Byte>)

  function RecognisedBy(env: Env, data: seq<Byte>): bool {
    |data| >= 6 && Recognised(env.filter, data[..6])
  }

  /** The next segment of the packet at the queue head. */
  function Segment(env: Env, rx: Rx, flags: Word, low: Word, count: Word): (d: Delivery)
    requires rx.queue != [] && PacketOk(rx.queue[0])
    ensures d.descriptor == rx.ba
  {
    var p := Normalize(rx.queue[0]);
    var room := BufferLength(flags, count);
    var n := if |p.data| - p.used > room then room else |p.data| - p.used;
    Delivery(rx.ba, BufferAddress(flags, low), p.data[p.used..p.used + n], p.kind, |p.data|, p.used + n,
             Conditions(env.el, env.re, rx.loss != 0, RecognisedBy(env, p.data)))
  }

  /** The queue once a segment has been taken: normalized and advanced at its head. */
  function Advanced(q: seq<Packet>, d: Delivery): (r: seq<Packet>)
    requires q != []
    ensures |r| == |q|
  {
    [Normalize(q[0]).(used := d.used)] + q[1..]
  }

  /** Writes the segment, then its status words, then moves on. */
  function Deliver(env: Env, rx: Rx, flags: Word, low: Word, count: Word): Pass
    requires rx.queue != [] && PacketOk(rx.queue[0])
  {
    var d := Segment(env, rx, flags, low, count);
    var q := Advanced(rx.queue, d);
    var mem := ByteWrite(rx.mem, d.address, d.bytes);
    if !BytesAnswer(rx.mem, d.address, |d.bytes|) then
      Timeout(Rx(mem, rx.ba, q, 0, rx.log), d.bytes)
    else
      var st := [Status1(d), Status2(d)];
      var done := Written(mem, rx.ba + 8, st);
      if !ReadOk(mem, rx.ba + 8, 2) then
        Timeout(Rx(done, rx.ba, q, 0, rx.log), d.bytes)
      else
        More(Rx(done, rx.ba + 12, if d.Last() then q[1..] else q, 0, rx.log + [d]))
  }

  /** What a descriptor asks for. */
  datatype Order = Ends | Chains(ba: nat) | Waits | Fills(flags: Word, low: Word, count: Word) | Unreadable

  /** Reads on in a descriptor whose flags are known, as far as the flags ask for it. */
  function Decode(m: Memory, ba: nat, flags: Word, empty: bool): (o: Order)
    ensures (o.Fills? ==> !empty && !DscC(flags)) && (o.Waits? ==> empty) && (o.Chains? ==> DscC(flags))
  {
    if !DscV(flags) then Ends
    else if DscC(flags) then
      if ReadOk(m, ba + 4, 1) then Chains(Address22(flags, WordsAt(m, (ba + 4) / 2, 1)[0])) else Unreadable
    else if empty then Waits
    else if !ReadOk(m, ba + 4, 4) then Unreadable
    else Fills(flags, WordsAt(m, (ba + 4) / 2, 4)[0], WordsAt(m, (ba + 4) / 2, 4)[1])
  }

  function Flags(rx: Rx): Word
    requires ReadOk(rx.mem, rx.ba, 2)
  {
    WordsAt(rx.mem, rx.ba / 2, 2)[1]
  }

  function Marked(rx: Rx): Rx { rx.(mem := Written(rx.mem, rx.ba, [0xffff])) }

  /** One descriptor, its first two words known to answer: mark it used and act on it. */
  function Visit(env: Env, rx: Rx): Pass
    requires ReadOk(rx.mem, rx.ba, 2) && QueueOk(rx.queue)
  {
    var marked := Marked(rx);
    match Decode(marked.mem, rx.ba, Flags(rx), rx.queue == [])
    case Ends => EndOfList(marked)
    case Chains(ba) => More(marked.(ba := ba))
    case Waits => QueueEmpty(marked)
    case Unreadable => Timeout(marked, [])
    case Fills(flags, low, count) =>
      assert PacketOk(rx.queue[0]);
      Deliver(env, marked, flags, low, count)
  }

  datatype Stop = Circled | TooLong | ListEnded | QueueDrained | TimedOut

  datatype End = End(rx: Rx, stop: Stop, lost: seq<Byte>, fetched: nat)

  /** The walk from `rx.ba`, with `n` descriptors behind it. */
  function Walk(env: Env, rx: Rx, start: nat, n: nat): End
    requires QueueOk(rx.queue) && n <= MAX_DESCRIPTORS + 1
    decreases MAX_DESCRIPTORS + 1 - n
  {
    if !ReadOk(rx.mem, rx.ba, 2) then End(rx, TimedOut, [], n + 1)
    else if n > 0 && rx.ba == start then End(rx, Circled, [], n + 1)
    else if n > MAX_DESCRIPTORS then End(rx, TooLong, [], n + 1)
    else
      VisitKeepsQueue(env, rx);
      match Visit(env, rx)
      case More(r) => Walk(env, r, start, n + 1)
      case EndOfList(r) => End(r, ListEnded, [], n + 1)
      case QueueEmpty(r) => End(r, QueueDrained, [], n + 1)
      case Timeout(r, lost) => End(r, TimedOut, lost, n + 1)
  }

  lemma VisitKeepsQueue(env: Env, rx: Rx)
    requires ReadOk(rx.mem, rx.ba, 2) && QueueOk(rx.queue)
    ensures QueueOk(Visit(env, rx).rx.queue)
  {
    hide Status1, Status2, Decode, Written, ByteWrite, WithBytes, BytesAnswer, ReadOk, Rest;
    var order := Decode(Marked(rx).mem, rx.ba, Flags(rx), rx.queue == []);
    if order.Fills? {
      assert PacketOk(rx.queue[0]);
      SegmentSplits(env, Marked(rx), order.flags, order.low, order.count);
    }
  }

  /** How a descriptor left the walk, without the state it left behind. */
  datatype Outcome = Goes | Listed | Idles | Faults

  function OutcomeOf(p: Pass): Outcome {
    match p
    case More(_) => Goes
    case EndOfList(_) => Listed
    case QueueEmpty(_) => Idles
    case Timeout(_, _) => Faults
  }

  function LostOf(p: Pass): seq<Byte> { if p.Timeout? then p.lost else [] }

  /** One turn of the walk. */
  lemma WalkTurn(env: Env, rx: Rx, start: nat, n: nat)
    requires QueueOk(rx.queue) && n <= MAX_DESCRIPTORS + 1
    ensures var end := Walk(env, rx, start, n);
            if !ReadOk(rx.mem, rx.ba, 2) then end == End(rx, TimedOut, [], n + 1)
            else if n > 0 && rx.ba == start then end == End(rx, Circled, [], n + 1)
            else if n > MAX_DESCRIPTORS then end == End(rx, TooLong, [], n + 1)
            else
              var p := Visit(env, rx);
              && QueueOk(p.rx.queue)
              && end == if p.More? then Walk(env, p.rx, start, n + 1)
                        else End(p.rx,
                            match OutcomeOf(p) case Listed => ListEnded case Idles => QueueDrained case _ => TimedOut,
                                 LostOf(p), n + 1)
  {
    hide Visit;
    if ReadOk(rx.mem, rx.ba, 2) { VisitKeepsQueue(env, rx); }
  }

  // --- packets arrive whole, in order, once ----------------------------------

  /** What a host puts together from a run of segments: the packets completed, and the one begun. */
  function Assemble(log: seq<Delivery>): (seq<seq<Byte>>, seq<Byte>) {
    if log == [] then ([], [])
    else
      var d := log[|log| - 1];
      var (done, part) := Assemble(log[..|log| - 1]);
      if d.Last() then (done + [part + d.bytes], []) else (done, part + d.bytes)
  }

  /** The segments in `log`, then `lost`, take the queue from `q0` to `q`: every packet completed is the
  undelivered part of the next queued packet, the packet begun goes on at the queue head, the rest waits. */
  predicate Conserves(q0: seq<Packet>, log: seq<Delivery>, lost: seq<Byte>, q: seq<Packet>)
    requires QueueOk(q0) && QueueOk(q)
  {
    var (done, part) := Assemble(log);
    && |q0| == |done| + |q|
    && (forall i :: 0 <= i < |done| ==> done[i] == Rest(q0[i]))
    && (q == [] ==> part == [] && lost == [])
    && (q != [] ==> Rest(q0[|done|]) == part + lost + Rest(q[0]) && q[1..] == q0[|done| + 1..])
  }

  lemma AssembleNext(log: seq<Delivery>, d: Delivery)
    ensures Assemble(log + [d])
         == var (done, part) := Assemble(log);
            if d.Last() then (done + [part + d.bytes], []) else (done, part + d.bytes)
  {
    assert (log + [d])[..|log|] == log;
  }

  /** Taking a segment splits the packet's rest in two. */
  lemma SegmentSplits(env: Env, rx: Rx, flags: Word, low: Word, count: Word)
    requires rx.queue != [] && PacketOk(rx.queue[0])
    ensures var d := Segment(env, rx, flags, low, count);
            var p := Advanced(rx.queue, d)[0];
            && PacketOk(p) && Rest(rx.queue[0]) == d.bytes + Rest(p)
            && (d.Last() <==> Rest(p) == [])
            && (d.kind == Normal ==> ETH_MIN_PACKET <= d.length <= MAX_RCV_PACKET)
  {
    var d := Segment(env, rx, flags, low, count);
    var p0 := Normalize(rx.queue[0]);
    var p := Advanced(rx.queue, d)[0];
    assert Normalize(p) == p;
    assert p0.data[p0.used..] == d.bytes + p0.data[d.used..];
  }

  /** A segment that was taken but never reported is exactly what is missing. */
  lemma TakenConserves(q0: seq<Packet>, log: seq<Delivery>, bytes: seq<Byte>, q: seq<Packet>, p: Packet)
    requires QueueOk(q0) && QueueOk(q) && q != [] && PacketOk(p) && Conserves(q0, log, [], q)
    requires Rest(q[0]) == bytes + Rest(p)
    ensures QueueOk([p] + q[1..]) && Conserves(q0, log, bytes, [p] + q[1..])
  {
    hide Rest, Normalize, Assemble, PacketOk;
    var (done, part) := Assemble(log);
    assert part + [] + Rest(q[0]) == part + bytes + Rest(p);
    assert ([p] + q[1..])[1..] == q[1..];
  }

  /** A reported segment goes on with the packet, or completes it. */
  lemma ReportedConserves(q0: seq<Packet>, log: seq<Delivery>, d: Delivery, q: seq<Packet>, p: Packet)
    requires QueueOk(q0) && QueueOk(q) && q != [] && PacketOk(p) && Conserves(q0, log, [], q)
    requires Rest(q[0]) == d.bytes + Rest(p) && (d.Last() <==> Rest(p) == [])
    ensures var next := if d.Last() then q[1..] else [p] + q[1..];
            QueueOk(next) && Conserves(q0, log + [d], [], next)
  {
    hide Rest, Normalize, Assemble, PacketOk;
    var (done, part) := Assemble(log);
    AssembleNext(log, d);
    assert part + [] + Rest(q[0]) == part + d.bytes + [] + Rest(p);
    if d.Last() {
      assert part + d.bytes == Rest(q0[|done|]);
      if q[1..] != [] {
        assert q[1..] == q0[|done| + 1..];
        assert q0[|done| + 1..][0] == q0[|done| + 1] && q0[|done| + 1..][1..] == q0[|done| + 2..];
        assert [] + [] + Rest(q[1]) == Rest(q[1]);
      }
    } else {
      assert ([p] + q[1..])[1..] == q[1..];
    }
  }

  lemma DeliverConserves(q0: seq<Packet>, env: Env, rx: Rx, flags: Word, low: Word, count: Word)
    requires QueueOk(q0) && QueueOk(rx.queue) && rx.queue != [] && Conserves(q0, rx.log, [], rx.queue)
    ensures var pass := Deliver(env, rx, flags, low, count);
            && QueueOk(pass.rx.queue)
            && Conserves(q0, pass.rx.log, if pass.Timeout? then pass.lost else [], pass.rx.queue)
  {
    hide Conserves, Status1, Status2, Segment, Written, ByteWrite, WithBytes, BytesAnswer, ReadOk, Rest;
    var d := Segment(env, rx, flags, low, count);
    var q := Advanced(rx.queue, d);
    SegmentSplits(env, rx, flags, low, count);
    TakenConserves(q0, rx.log, d.bytes, rx.queue, q[0]);
    ReportedConserves(q0, rx.log, d, rx.queue, q[0]);
    assert q[1..] == rx.queue[1..];
  }

  lemma VisitConserves(q0: seq<Packet>, env: Env, rx: Rx)
    requires QueueOk(q0) && QueueOk(rx.queue) && Conserves(q0, rx.log, [], rx.queue)
    requires ReadOk(rx.mem, rx.ba, 2)
    ensures var pass := Visit(env, rx);
            && QueueOk(pass.rx.queue)
            && Conserves(q0, pass.rx.log, if pass.Timeout? then pass.lost else [], pass.rx.queue)
  {
    hide Conserves, Deliver, Decode, Written;
    var order := Decode(Marked(rx).mem, rx.ba, Flags(rx), rx.queue == []);
    if order.Fills? {
      DeliverConserves(q0, env, Marked(rx), order.flags, order.low, order.count);
    }
  }

  lemma {:induction false} WalkConservesFrom(q0: seq<Packet>, env: Env, rx: Rx, start: nat, n: nat)
    requires QueueOk(q0) && QueueOk(rx.queue) && n <= MAX_DESCRIPTORS + 1
    requires Conserves(q0, rx.log, [], rx.queue)
    ensures var end := Walk(env, rx, start, n);
            && QueueOk(end.rx.queue)
            && Conserves(q0, end.rx.log, end.lost, end.rx.queue)
    decreases MAX_DESCRIPTORS + 1 - n
  {
    hide Visit;
    if ReadOk(rx.mem, rx.ba, 2) && !(n > 0 && rx.ba == start) && n <= MAX_DESCRIPTORS {
      VisitConserves(q0, env, rx);
      var pass := Visit(env, rx);
      if pass.More? { WalkConservesFrom(q0, env, pass.rx, start, n + 1); }
    }
  }

  /** Whatever guest memory holds, a walk delivers the queue whole, in order and once; a bus timeout loses
  at most the one segment it interrupts. */
  lemma WalkConserves(env: Env, mem: Memory, ba: nat, queue: seq<Packet>, loss: nat)
    requires QueueOk(queue)
    ensures var end := Walk(env, Rx(mem, ba, queue, loss, []), ba, 0);
            && QueueOk(end.rx.queue)
            && Conserves(queue, end.rx.log, end.lost, end.rx.queue)
            && (end.lost != [] ==> end.stop == TimedOut)
  {
    if queue != [] { assert [] + [] + Rest(queue[0]) == Rest(queue[0]); }
    WalkConservesFrom(queue, env, Rx(mem, ba, queue, loss, []), ba, 0);
    LostOnlyOnTimeout(env, Rx(mem, ba, queue, loss, []), ba, 0);
  }

  lemma {:induction false} LostOnlyOnTimeout(env: Env, rx: Rx, start: nat, n: nat)
    requires QueueOk(rx.queue) && n <= MAX_DESCRIPTORS + 1
    ensures var end := Walk(env, rx, start, n); end.lost != [] ==> end.stop == TimedOut
    decreases MAX_DESCRIPTORS + 1 - n
  {
    hide Visit;
    if ReadOk(rx.mem, rx.ba, 2) && !(n > 0 && rx.ba == start) && n <= MAX_DESCRIPTORS {
      VisitKeepsQueue(env, rx);
      var pass := Visit(env, rx);
      if pass.More? { LostOnlyOnTimeout(env, pass.rx, start, n + 1); }
    }
  }

  // --- the byte view ------------------------------------------------------------

  function Flat(parts: seq<seq<Byte>>): seq<Byte> {
    if parts == [] then [] else Flat(parts[..|parts| - 1]) + parts[|parts| - 1]
  }

  function DeliveredBytes(log: seq<Delivery>): seq<Byte> {
    if log == [] then [] else DeliveredBytes(log[..|log| - 1]) + log[|log| - 1].bytes
  }

  /** All bytes a queue still has to deliver. */
  function Pending(q: seq<Packet>): seq<Byte>
    requires QueueOk(q)
  {
    if q == [] then [] else Rest(q[0]) + Pending(q[1..])
  }

  lemma AssembleBytes(log: seq<Delivery>)
    ensures Flat(Assemble(log).0) + Assemble(log).1 == DeliveredBytes(log)
  {
    if log != [] {
      var d := log[|log| - 1];
      AssembleBytes(log[..|log| - 1]);
      var (done, part) := Assemble(log[..|log| - 1]);
      if d.Last() {
        assert (done + [part + d.bytes])[..|done|] == done;
        assert Flat(done + [part + d.bytes]) == Flat(done) + (part + d.bytes);
      }
      assert (Flat(done) + part) + d.bytes == Flat(done) + (part + d.bytes);
    }
  }

  /** A queue's bytes are those of its first `k` packets, then those of the others. */
  lemma {:induction false} PendingSplit(q: seq<Packet>, parts: seq<seq<Byte>>)
    requires QueueOk(q) && |parts| <= |q|
    requires forall i :: 0 <= i < |parts| ==> parts[i] == Rest(q[i])
    ensures Pending(q) == Flat(parts) + Pending(q[|parts|..])
    decreases |parts|
  {
    if parts == [] {
      assert q[0..] == q;
    } else {
      var k := |parts| - 1;
      PendingSplit(q, parts[..k]);
      assert q[k..][1..] == q[k + 1..] && q[k..][0] == q[k];
      assert Flat(parts[..k]) + (Rest(q[k]) + Pending(q[k + 1..]))
          == Flat(parts[..k]) + Rest(q[k]) + Pending(q[k + 1..]);
    }
  }

  lemma Associate(x: seq<Byte>, y: seq<Byte>, z: seq<Byte>)
    ensures x + y + z == x + (y + z)
  {
  }

  /** Undelivered before = delivered, in order, then what a timeout lost, then undelivered after. */
  lemma BytesConserved(q0: seq<Packet>, log: seq<Delivery>, lost: seq<Byte>, q: seq<Packet>)
    requires QueueOk(q0) && QueueOk(q) && Conserves(q0, log, lost, q)
    ensures Pending(q0) == DeliveredBytes(log) + lost + Pending(q)
  {
    var (done, part) := Assemble(log);
    AssembleBytes(log);
    PendingSplit(q0, done);
    var tail := q0[|done|..];
    assert Pending(tail) == part + lost + Pending(q) by {
      if q != [] {
        assert tail[0] == q0[|done|] && tail[1..] == q[1..];
        Associate(part + lost, Rest(q[0]), Pending(q[1..]));
      }
    }
    Associate(Flat(done), part, lost);
    Associate(Flat(done), part + lost, Pending(q));
  }

  // --- the queue keeps its limits ---------------------------------------------------

  lemma DeliverKeepsGood(env: Env, rx: Rx, flags: Word, low: Word, count: Word)
    requires QueueGood(rx.queue) && rx.queue != [] && PacketOk(rx.queue[0])
    ensures QueueGood(Deliver(env, rx, flags, low, count).rx.queue)
  {
    hide Segment, Advanced, Status1, Status2, Written, ByteWrite, BytesAnswer, ReadOk, QueueGood, PacketOk;
    AdvancedGood(env, rx, flags, low, count);
  }

  lemma AdvancedGood(env: Env, rx: Rx, flags: Word, low: Word, count: Word)
    requires QueueGood(rx.queue) && rx.queue != [] && PacketOk(rx.queue[0])
    ensures var q := Advanced(rx.queue, Segment(env, rx, flags, low, count)); QueueGood(q) && QueueGood(q[1..])
  {
    hide Segment, PacketOk;
    SegmentSplits(env, rx, flags, low, count);
    var q := Advanced(rx.queue, Segment(env, rx, flags, low, count));
    assert q[1..] == rx.queue[1..] && Normals(rx.queue[1..]) <= Normals(rx.queue);
  }

  lemma {:induction false} WalkKeepsGood(env: Env, rx: Rx, start: nat, n: nat)
    requires QueueGood(rx.queue) && n <= MAX_DESCRIPTORS + 1
    ensures QueueGood(Walk(env, rx, start, n).rx.queue)
    decreases MAX_DESCRIPTORS + 1 - n
  {
    hide Visit, Walk;
    WalkTurn(env, rx, start, n);
    if ReadOk(rx.mem, rx.ba, 2) && !(n > 0 && rx.ba == start) && n <= MAX_DESCRIPTORS {
      VisitKeepsGood(env, rx);
      var pass := Visit(env, rx);
      if pass.More? { WalkKeepsGood(env, pass.rx, start, n + 1); }
    }
  }

  lemma VisitKeepsGood(env: Env, rx: Rx)
    requires ReadOk(rx.mem, rx.ba, 2) && QueueGood(rx.queue)
    ensures QueueGood(Visit(env, rx).rx.queue)
  {
    hide Deliver, Decode, Written, Normals;
    var order := Decode(Marked(rx).mem, rx.ba, Flags(rx), rx.queue == []);
    if order.Fills? {
      assert PacketOk(rx.queue[0]);
      DeliverKeepsGood(env, Marked(rx), order.flags, order.low, order.count);
    }
  }

  // --- the walk ends; what it reports ---------------------------------------------

  /** A descriptor adds at most one segment to the log, one of a legal length if it came from the wire. */
  lemma VisitLogs(env: Env, rx: Rx)
    requires ReadOk(rx.mem, rx.ba, 2) && QueueOk(rx.queue)
    ensures var pass := Visit(env, rx);
            && rx.log <= pass.rx.log
            && (|pass.rx.log| == |rx.log| || (pass.More? && |pass.rx.log| == |rx.log| + 1
                && LegalLength(pass.rx.log[|rx.log|])))
            && (pass.QueueEmpty? ==> pass.rx.queue == [])
            && (pass.More? ==> (|pass.rx.log| == |rx.log| <==> DscC(Flags(rx))))
  {
    hide Deliver, Decode, Written, ReadOk, LegalLength;
    var order := Decode(Marked(rx).mem, rx.ba, Flags(rx), rx.queue == []);
    if order.Fills? {
      assert PacketOk(rx.queue[0]);
      DeliverLogs(env, Marked(rx), order.flags, order.low, order.count);
    }
  }

  lemma DeliverLogs(env: Env, rx: Rx, flags: Word, low: Word, count: Word)
    requires rx.queue != [] && PacketOk(rx.queue[0])
    ensures var pass := Deliver(env, rx, flags, low, count);
            && !pass.QueueEmpty?
            && pass.rx.log == rx.log + (if pass.More? then [Segment(env, rx, flags, low, count)] else [])
            && LegalLength(Segment(env, rx, flags, low, count))
  {
    hide Status1, Status2, Segment, Advanced, Written, ByteWrite, WithBytes, BytesAnswer, ReadOk, Rest;
    SegmentSplits(env, rx, flags, low, count);
    assert rx.log + [] == rx.log;
  }

  predicate LegalLength(d: Delivery) {
    d.kind == Normal ==> ETH_MIN_PACKET <= d.length <= MAX_RCV_PACKET
  }

  /** Every walk ends within 258 descriptor fetches, and does so for one of five reasons. */
  lemma {:induction false} WalkBounded(env: Env, rx: Rx, start: nat, n: nat)
    requires QueueOk(rx.queue) && n <= MAX_DESCRIPTORS + 1
    ensures var end := Walk(env, rx, start, n);
            && n < end.fetched <= MAX_DESCRIPTORS + 2
            && rx.log <= end.rx.log && |end.rx.log| - |rx.log| < end.fetched - n
            && (end.stop == QueueDrained ==> end.rx.queue == [])
    decreases MAX_DESCRIPTORS + 1 - n
  {
    hide Visit;
    if ReadOk(rx.mem, rx.ba, 2) && !(n > 0 && rx.ba == start) && n <= MAX_DESCRIPTORS {
      VisitKeepsQueue(env, rx);
      VisitLogs(env, rx);
      var pass := Visit(env, rx);
      if pass.More? { WalkBounded(env, pass.rx, start, n + 1); }
    }
  }

  predicate Reported(log: seq<Delivery>) {
    forall i :: 0 <= i < |log| ==> LegalLength(log[i])
  }

  lemma VisitReports(env: Env, rx: Rx)
    requires QueueOk(rx.queue) && ReadOk(rx.mem, rx.ba, 2) && Reported(rx.log)
    ensures Reported(Visit(env, rx).rx.log)
  {
    hide Visit, QueueOk, ReadOk, LegalLength;
    VisitKeepsQueue(env, rx);
    VisitLogs(env, rx);
  }

  /** Every packet from the wire is delivered at a legal length, so `NormalDecodes` applies to its last segment. */
  lemma {:induction false} WalkReports(env: Env, rx: Rx, start: nat, n: nat)
    requires QueueOk(rx.queue) && n <= MAX_DESCRIPTORS + 1 && Reported(rx.log)
    ensures Reported(Walk(env, rx, start, n).rx.log)
    decreases MAX_DESCRIPTORS + 1 - n
  {
    hide Visit, Walk, QueueOk, Reported, ReadOk;
    WalkTurn(env, rx, start, n);
    if ReadOk(rx.mem, rx.ba, 2) && !(n > 0 && rx.ba == start) && n <= MAX_DESCRIPTORS {
      VisitReports(env, rx);
      var pass := Visit(env, rx);
      if pass.More? { WalkReports(env, pass.rx, start, n + 1); }
    }
  }

  // --- what memory holds afterwards -------------------------------------------------

  /** Memory after a completed delivery: the status words, the segment in its buffer except where the
  statuses overlie it, the used mark except where either overlies it, and nothing else changed. */
  lemma DeliveryInMemory(env: Env, rx: Rx, a: nat)
    requires ReadOk(rx.mem, rx.ba, 2) && QueueOk(rx.queue) && a in rx.mem
    requires Visit(env, rx).More? && Visit(env, rx).rx.log != rx.log
    ensures var r := Visit(env, rx).rx;
            var d := r.log[|r.log| - 1];
            var slot := rx.ba / 2 * 2;
            && a in r.mem && d.descriptor == rx.ba
            && r.mem[a] == if In(a, slot + 8, 4) then Unpack([Status1(d), Status2(d)])[a - (slot + 8)]
                           else if In(a, d.address, |d.bytes|) then d.bytes[a - d.address]
                           else if In(a, slot, 2) then 0xff
                           else rx.mem[a]
  {
    hide Status1, Status2, Unpack, Deliver, Decode;
    MarkInMemory(rx.mem, rx.ba, a);
    var order := Decode(Marked(rx).mem, rx.ba, Flags(rx), rx.queue == []);
    assert PacketOk(rx.queue[0]);
    DeliverInMemory(env, Marked(rx), order.flags, order.low, order.count, a);
  }

  lemma DeliverInMemory(env: Env, rx: Rx, flags: Word, low: Word, count: Word, a: nat)
    requires rx.queue != [] && PacketOk(rx.queue[0]) && a in rx.mem
    requires Deliver(env, rx, flags, low, count).More?
    ensures var r, d := Deliver(env, rx, flags, low, count).rx, Segment(env, rx, flags, low, count);
            var at := rx.ba / 2 * 2 + 8;
            && r.log == rx.log + [d] && d.descriptor == rx.ba
            && a in r.mem
            && r.mem[a] == if In(a, at, 4) then Unpack([Status1(d), Status2(d)])[a - at]
                           else if In(a, d.address, |d.bytes|) then d.bytes[a - d.address]
                           else rx.mem[a]
  {
    hide Status1, Status2, Unpack, Segment, Advanced, Written, ByteWrite, WithBytes, BytesAnswer, ReadOk;
    var d := Segment(env, rx, flags, low, count);
    assert (rx.ba + 8) / 2 * 2 == rx.ba / 2 * 2 + 8;
    StatusInMemory(rx.mem, d.address, d.bytes, rx.ba + 8, [Status1(d), Status2(d)], a);
  }

  lemma StatusInMemory(m: Memory, addr: nat, bytes: seq<Byte>, at: nat, ws: seq<Word>, a: nat)
    requires BytesAnswer(m, addr, |bytes|) && a in m
    requires ReadOk(ByteWrite(m, addr, bytes), at, |ws|)
    ensures var r, start := Written(ByteWrite(m, addr, bytes), at, ws), at / 2 * 2;
            && a in r
            && r[a] == if In(a, start, 2 * |ws|) then Unpack(ws)[a - start]
                       else if In(a, addr, |bytes|) then bytes[a - addr]
                       else m[a]
  {
    hide BytesAnswer, ReadOk, BytesReached, WithBytes, ByteWrite, Written, Unpack;
    ByteWriteAll(m, addr, bytes);
    WithBytesAt(m, addr, bytes, a);
    WrittenAll(WithBytes(m, addr, bytes), at, ws);
    WithBytesAt(WithBytes(m, addr, bytes), at / 2 * 2, Unpack(ws), a);
  }

  /** A descriptor that takes no segment changes its used mark and nothing else. */
  lemma NoDeliveryInMemory(env: Env, rx: Rx, a: nat)
    requires ReadOk(rx.mem, rx.ba, 2) && QueueOk(rx.queue) && a in rx.mem
    requires !Decode(Marked(rx).mem, rx.ba, Flags(rx), rx.queue == []).Fills?
    ensures var r := Visit(env, rx).rx;
            && r.queue == rx.queue && r.log == rx.log
            && a in r.mem && r.mem[a] == if In(a, rx.ba / 2 * 2, 2) then 0xff else rx.mem[a]
  {
    hide Decode, Written, Deliver;
    MarkInMemory(rx.mem, rx.ba, a);
  }
}
