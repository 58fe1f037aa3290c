/** The DEUNA receive ring: queued frames delivered into the buffers the host has handed over. */
module DeunaReceive {
  import opened GuestMemory
  import opened ByteDma
  import opened DeunaRing
  import WordArithmetic

  const ETH_MIN_PACKET := 60
  const ETH_MAX_PACKET := 1514
  const QUEUE_MAX := 500

  /** A frame in the read queue, with its check characters; `used` bytes of it have been delivered. */
  datatype Item = Item(bytes: seq<Byte>, used: nat, loopback: bool)

  predicate ItemOk(i: Item) { i.used < |i.bytes| && ETH_MIN_PACKET + 4 <= |i.bytes| <= ETH_MAX_PACKET + 4 }

  function Zeros(n: nat): (z: seq<Byte>)
    ensures |z| == n
  {
    seq(n, i => 0)
  }

  /** A frame as it is staged: cut to the largest frame, padded to the smallest, four check characters added. */
  function Stage(data: seq<Byte>, loopback: bool): Item {
    var cut := if |data| > ETH_MAX_PACKET then data[..ETH_MAX_PACKET] else data;
    var padded := if |cut| < ETH_MIN_PACKET then cut + Zeros(ETH_MIN_PACKET - |cut|) else cut;
    Item(padded + Zeros(4), 0, loopback)
  }

  /** `enqueue_readq`: over the limit the oldest frame is lost. */
  function Enqueue(queue: seq<Item>, data: seq<Byte>, loopback: bool): seq<Item> {
    if data == [] then queue
    else
      var q := queue + [Stage(data, loopback)];
      if |q| > QUEUE_MAX then q[1..] else q
  }

  predicate QueueOk(queue: seq<Item>) {
    |queue| <= QUEUE_MAX && forall i :: 0 <= i < |queue| ==> ItemOk(queue[i])
  }

  lemma EnqueueKeeps(queue: seq<Item>, data: seq<Byte>, loopback: bool)
    requires QueueOk(queue)
    ensures QueueOk(Enqueue(queue, data, loopback))
  {
    assert ItemOk(Stage(data, loopback));
  }

  /** The bytes of the queue still to be delivered. */
  function Undelivered(queue: seq<Item>): seq<Byte>
    requires QueueOk(queue)
  {
    if queue == [] then []
    else
      assert ItemOk(queue[0]);
      queue[0].bytes[queue[0].used..] + Undelivered(queue[1..])
  }

  // --- one segment -----------------------------------------------------------------------

  /** One entry filled: the item as it was, and what went into the entry's buffer. */
  datatype Delivery = Delivery(index: nat, before: seq<Word>, item: Item, count: nat, unchained: bool)
  {
    predicate Ok() { |before| >= 4 && item.used + count <= |item.bytes| }
    function Bytes(): seq<Byte> requires Ok() { item.bytes[item.used..item.used + count] }
    function Address(): nat requires Ok() { SegmentAddress(before[2], before[1]) }
    predicate Complete() { item.used + count >= |item.bytes| }
    /** The frame leaves the queue; without data chaining it does so with its first buffer. */
    predicate Ended() { Complete() || unchained }
    /** What an unchained frame too long for its buffer loses. */
    function Lost(): seq<Byte> requires Ok() { if Ended() then item.bytes[item.used + count..] else [] }
    predicate Cut() { unchained && !Complete() }
  }

  function Deliver(index: nat, desc: seq<Word>, item: Item, unchained: bool): (d: Delivery)
    requires |desc| >= 4 && ItemOk(item)
    ensures d.Ok()
  {
    var left := |item.bytes| - item.used;
    Delivery(index, desc, item, if desc[0] < left then desc[0] else left, unchained)
  }

  function B(b: bool): nat { if b then 1 else 0 }

  /** Word 2 written back: ownership given up, start and end of frame, error and check bits. */
  function Status2(d: Delivery): Word
    requires d.Ok()
  {
    var w := d.before[2];
    0x4000 * B((d.Ended() && d.item.loopback) || d.Cut()) + 0x0800 * B(d.Ended() && d.item.loopback)
    + 0x0400 * (w / 0x400 % 2) + 0x0200 * B(d.item.used == 0) + 0x0100 * B(d.Ended()) + w % 0x100
  }

  /** Word 3: the message length in a last segment. */
  function Status3(d: Delivery): Word {
    0x2000 * B(d.Cut()) + (if d.Ended() then |d.item.bytes| % 0x1000 else 0)
  }

  function After(d: Delivery): (r: seq<Word>)
    requires d.Ok()
    ensures |r| == |d.before|
  {
    d.before[2 := Status2(d)][3 := Status3(d)]
  }

  /** What the host reads: the entry is its own again, STF marks a frame's first segment, ENF its last, and the last one
  holds the frame's length. */
  lemma StatusDecodes(d: Delivery)
    requires d.Ok() && ItemOk(d.item)
    ensures var r := After(d);
            && !Owned(r[2]) && r[0] == d.before[0] && r[1] == d.before[1] && r[4..] == d.before[4..]
            && SegmentAddress(r[2], r[1]) == d.Address()
            && (r[2] / 0x200 % 2 == 1 <==> d.item.used == 0)
            && (r[2] / 0x100 % 2 == 1 <==> d.Ended())
            && (d.Ended() ==> r[3] % 0x1000 == |d.item.bytes|)
            && (r[3] / 0x2000 % 2 == 1 <==> d.Cut())
            && (d.item.loopback ==> (r[2] / 0x4000 % 2 == 1 <==> d.Ended()))
  {
    hide Owned, SegmentAddress, Status2, Status3, After;
    StatusShape(d);
    Status2Bits(d);
    Status3Bits(d);
    OwnerAndAddress(d.before[2], Status2(d), d.before[1]);
  }

  lemma Status2Bits(d: Delivery)
    requires d.Ok()
    ensures var w := Status2(d);
            && w < 0x8000 && w % 4 == d.before[2] % 4
            && (w / 0x200 % 2 == 1 <==> d.item.used == 0) && (w / 0x100 % 2 == 1 <==> d.Ended())
            && (w / 0x4000 % 2 == 1 <==> (d.Ended() && d.item.loopback) || d.Cut())
  {
    StatusBits(B((d.Ended() && d.item.loopback) || d.Cut()), B(d.Ended() && d.item.loopback), d.before[2] / 0x400 % 2,
               B(d.item.used == 0), B(d.Ended()), d.before[2] % 0x100);
  }

  lemma Status3Bits(d: Delivery)
    requires d.Ok() && ItemOk(d.item)
    ensures d.Ended() ==> Status3(d) % 0x1000 == |d.item.bytes|
    ensures Status3(d) / 0x2000 % 2 == 1 <==> d.Cut()
  {
  }

  lemma StatusShape(d: Delivery)
    requires d.Ok()
    ensures var r := After(d); r[0] == d.before[0] && r[1] == d.before[1] && r[2] == Status2(d) && r[3] == Status3(d)
    ensures After(d)[4..] == d.before[4..]
  {
    hide Status2, Status3;
  }

  lemma OwnerAndAddress(w: Word, status: Word, lo: Word)
    requires status < 0x8000 && status % 4 == w % 4
    ensures !Owned(status) && SegmentAddress(status, lo) == SegmentAddress(w, lo)
  {
  }

  lemma StatusBits(errs: nat, crc: nat, bit10: nat, stf: nat, enf: nat, low: nat)
    requires errs < 2 && crc < 2 && bit10 < 2 && stf < 2 && enf < 2 && low < 0x100
    ensures var w := 0x4000 * errs + 0x0800 * crc + 0x0400 * bit10 + 0x0200 * stf + 0x0100 * enf + low;
            && w < 0x8000 && w / 0x200 % 2 == stf && w / 0x100 % 2 == enf && w / 0x4000 % 2 == errs && w % 4 == low % 4
  {
    var w := 0x4000 * errs + 0x0800 * crc + 0x0400 * bit10 + 0x0200 * stf + 0x0100 * enf + low;
    assert w / 0x100 == 0x40 * errs + 8 * crc + 4 * bit10 + 2 * stf + enf;
    assert w / 0x200 == 0x20 * errs + 4 * crc + 2 * bit10 + stf;
  }

  // --- the walk ------------------------------------------------------------------------------

  datatype Env = Env(space: nat, ring: Ring, unchained: bool)

  datatype Stop = Idle | HostOwns | EntryTimeout | BufferTimeout

  /** A walk's outcome: memory, queue, the entry to fill next, what was delivered, why it ended, and the segment
  whose buffer timed out, if one did. */
  datatype Rx = Rx(mem: Memory, queue: seq<Item>, next: nat, log: seq<Delivery>, stop: Stop, torn: seq<Delivery>)

  /** The queue once a delivery has gone out of its first frame. */
  function Shortened(queue: seq<Item>, d: Delivery): (r: seq<Item>)
    requires queue != [] && QueueOk(queue) && d.Ok() && d.item == queue[0]
    ensures QueueOk(r)
  {
    if d.Ended() then queue[1..] else queue[0 := d.item.(used := d.item.used + d.count)]
  }

  predicate BufferAnswers(m: Memory, space: nat, addr: nat, n: nat) {
    n == 0 || (addr + n <= space && BytesAnswer(m, addr, n))
  }

  /** Memory with a segment in its buffer and its entry handed back. */
  function HandedBack(env: Env, m: Memory, d: Delivery): Memory
    requires d.Ok()
  {
    Written(WindowWritten(m, env.space, d.Address(), d.Bytes()), EntryAddress(env.ring, d.index), After(d))
  }

  /** The controller owns a readable entry and there is a frame for it. */
  predicate Ready(env: Env, m: Memory, queue: seq<Item>, next: nat)
    requires env.ring.entryWords >= 4
  {
    var at := EntryAddress(env.ring, next);
    && queue != [] && EntryAnswers(m, env.space, at, env.ring.entryWords)
    && Owned(WordsAt(m, at / 2, env.ring.entryWords)[2])
  }

  /** What goes into that entry's buffer. */
  function Segment(env: Env, m: Memory, queue: seq<Item>, next: nat): (d: Delivery)
    requires QueueOk(queue) && env.ring.entryWords >= 4 && Ready(env, m, queue, next)
    ensures d.Ok() && ItemOk(d.item) && d.item == queue[0] && d.index == next && d.unchained == env.unchained
    ensures Owned(d.before[2])
  {
    Deliver(next, WordsAt(m, EntryAddress(env.ring, next) / 2, env.ring.entryWords), queue[0], env.unchained)
  }

  predicate Fits(env: Env, m: Memory, d: Delivery)
    requires d.Ok()
  {
    BufferAnswers(m, env.space, d.Address(), d.count)
  }

  /** The walk can go on at `next`: there is a frame, the entry there is the controller's, and its buffer answers. */
  predicate GoesOn(env: Env, m: Memory, queue: seq<Item>, next: nat)
    requires QueueOk(queue) && env.ring.entryWords >= 4
  {
    Ready(env, m, queue, next) && Fits(env, m, Segment(env, m, queue, next))
  }

  /** How a walk ends that cannot. */
  function Halted(env: Env, m: Memory, queue: seq<Item>, next: nat, more: bool): (r: Rx)
    requires QueueOk(queue) && env.ring.entryWords >= 4
    ensures r.queue == queue && r.next == next && r.log == [] && (r.stop != BufferTimeout ==> r.mem == m)
    ensures |r.torn| <= 1 && (r.torn != [] <==> r.stop == BufferTimeout) && (r.torn != [] ==> r.torn[0].Ok())
  {
    if queue == [] || !more then Rx(m, queue, next, [], Idle, [])
    else if !EntryAnswers(m, env.space, EntryAddress(env.ring, next), env.ring.entryWords) then
      Rx(m, queue, next, [], EntryTimeout, [])
    else if !Ready(env, m, queue, next) then Rx(m, queue, next, [], HostOwns, [])
    else
      var d := Segment(env, m, queue, next);
      Rx(WindowWritten(m, env.space, d.Address(), d.Bytes()), queue, next, [], BufferTimeout, [d])
  }

  function Walk(env: Env, m: Memory, queue: seq<Item>, next: nat, budget: nat): Rx
    requires QueueOk(queue) && env.ring.entryWords >= 4
    decreases budget
  {
    if budget > 0 && GoesOn(env, m, queue, next) then
      var d := Segment(env, m, queue, next);
      var rest := Walk(env, HandedBack(env, m, d), Shortened(queue, d), Advance(env.ring, next), budget - 1);
      rest.(log := [d] + rest.log)
    else Halted(env, m, queue, next, budget > 0)
  }

  /** One turn of the walk. */
  lemma WalkTurn(env: Env, m: Memory, queue: seq<Item>, next: nat, budget: nat)
    requires QueueOk(queue) && env.ring.entryWords >= 4
    ensures var r := Walk(env, m, queue, next, budget);
            if budget > 0 && GoesOn(env, m, queue, next) then
              var d := Segment(env, m, queue, next);
              var rest := Walk(env, HandedBack(env, m, d), Shortened(queue, d), Advance(env.ring, next), budget - 1);
              r == rest.(log := [d] + rest.log)
            else r == Halted(env, m, queue, next, budget > 0)
  {
    hide HandedBack, Segment, Shortened, EntryAnswers, Fits, Halted;
  }

  /** Where entry number `k` after `next` lies in the ring. */
  function Nth(r: Ring, next: nat, k: nat): nat
    decreases k
  {
    if k == 0 then next else Nth(r, Advance(r, next), k - 1)
  }

  lemma {:induction false} NthIs(r: Ring, next: nat, k: nat)
    requires next < r.count
    ensures Nth(r, next, k) < r.count && Nth(r, next, k) == (next + k) % r.count
    decreases k
  {
    if k == 0 {
      SmallMod(next, r.count);
    } else {
      AdvanceKeeps(r, next);
      NthIs(r, Advance(r, next), k - 1);
      Around(next, k, r.count);
    }
  }

  lemma Around(i: nat, k: nat, n: nat)
    requires i < n && k > 0
    ensures ((if i + 1 >= n then 0 else i + 1) + (k - 1)) % n == (i + k) % n
  {
    if i + 1 >= n { Wrap(k - 1, n); }
  }

  lemma Wrap(x: nat, n: nat)
    requires n > 0
    ensures (x + n) % n == x % n
  {
    WordArithmetic.DivModParts(x, n);
    WordArithmetic.MulAdd(x / n, 1, n);
    WordArithmetic.DivModUnique(x + n, n, x / n + 1, x % n);
  }

  /** An entry the controller owned is the host's afterwards. */
  predicate HandedOver(d: Delivery) {
    d.Ok() && ItemOk(d.item) && Owned(d.before[2]) && !Owned(After(d)[2])
  }

  lemma SegmentHandedOver(env: Env, m: Memory, queue: seq<Item>, next: nat)
    requires QueueOk(queue) && env.ring.entryWords >= 4 && Ready(env, m, queue, next)
    ensures HandedOver(Segment(env, m, queue, next))
  {
    hide Segment, After;
    StatusDecodes(Segment(env, m, queue, next));
  }

  /** Every entry written back was the controller's, is the host's afterwards, and lies where the ring goes on: the walk
  fills at most `budget` entries, one after the other from `next`, and the index stays inside the ring. */
  lemma {:induction false} WalkDisciplined(env: Env, m: Memory, queue: seq<Item>, next: nat, budget: nat)
    requires QueueOk(queue) && env.ring.entryWords >= 4 && next < env.ring.count
    ensures var r := Walk(env, m, queue, next, budget);
            && |r.log| <= budget && QueueOk(r.queue) && r.next < env.ring.count
            && r.next == Nth(env.ring, next, |r.log|)
            && forall k :: 0 <= k < |r.log| ==> HandedOver(r.log[k]) && r.log[k].index == Nth(env.ring, next, k)
    decreases budget
  {
    hide Walk, GoesOn, Halted, Segment, HandedBack, Shortened, Advance, HandedOver, ItemOk, QueueOk;
    WalkTurn(env, m, queue, next, budget);
    if budget > 0 && GoesOn(env, m, queue, next) {
      GoesOnReady(env, m, queue, next);
      var d := Segment(env, m, queue, next);
      SegmentHandedOver(env, m, queue, next);
      AdvanceKeeps(env.ring, next);
      WalkDisciplined(env, HandedBack(env, m, d), Shortened(queue, d), Advance(env.ring, next), budget - 1);
    }
  }

  lemma GoesOnReady(env: Env, m: Memory, queue: seq<Item>, next: nat)
    requires QueueOk(queue) && env.ring.entryWords >= 4 && GoesOn(env, m, queue, next)
    ensures queue != [] && Ready(env, m, queue, next) && Fits(env, m, Segment(env, m, queue, next))
  {
  }

  // --- bytes ---------------------------------------------------------------------------------------

  /** The bytes the deliveries took off the queue, in order: into buffers, or lost for want of chaining. */
  function Taken(log: seq<Delivery>): seq<Byte>
    requires forall k :: 0 <= k < |log| ==> log[k].Ok()
  {
    if log == [] then [] else log[0].Bytes() + log[0].Lost() + Taken(log[1..])
  }

  lemma SegmentConserves(queue: seq<Item>, d: Delivery)
    requires queue != [] && QueueOk(queue) && d.Ok() && d.item == queue[0]
    ensures QueueOk(Shortened(queue, d))
    ensures Undelivered(queue) == d.Bytes() + d.Lost() + Undelivered(Shortened(queue, d))
  {
    hide Undelivered;
    var q, n, all := queue[0], d.item.used + d.count, queue[0].bytes;
    var tail := queue[1..];
    UndeliveredHead(queue);
    assert all[q.used..] == d.Bytes() + all[n..];
    if d.Ended() {
      Rejoin(d.Bytes(), all[n..], Undelivered(tail));
    } else {
      var rest := Shortened(queue, d);
      UndeliveredHead(rest);
      assert rest[1..] == tail;
      Rejoin(d.Bytes(), all[n..], Undelivered(tail));
      Rejoin(d.Bytes(), [], all[n..] + Undelivered(tail));
    }
  }

  lemma UndeliveredHead(queue: seq<Item>)
    requires queue != [] && QueueOk(queue)
    ensures QueueOk(queue[1..]) && queue[0].used <= |queue[0].bytes|
    ensures Undelivered(queue) == queue[0].bytes[queue[0].used..] + Undelivered(queue[1..])
  {
    assert ItemOk(queue[0]);
  }

  lemma LogOk(log: seq<Delivery>)
    requires forall k :: 0 <= k < |log| ==> HandedOver(log[k])
    ensures forall k :: 0 <= k < |log| ==> log[k].Ok()
  {
  }

  /** Whatever the host's memory holds: the bytes undelivered before a walk are those its deliveries took, in order, and
  those undelivered after it; with data chaining on, every one taken went into a buffer. */
  lemma {:induction false} WalkConserves(env: Env, m: Memory, queue: seq<Item>, next: nat, budget: nat)
    requires QueueOk(queue) && env.ring.entryWords >= 4 && next < env.ring.count
    ensures var r := Walk(env, m, queue, next, budget);
            && QueueOk(r.queue) && (forall k :: 0 <= k < |r.log| ==> r.log[k].Ok())
            && Undelivered(queue) == Taken(r.log) + Undelivered(r.queue)
            && forall k :: 0 <= k < |r.log| ==> r.log[k].unchained == env.unchained
    decreases budget
  {
    hide Walk, GoesOn, Halted, Segment, HandedBack, Shortened, Undelivered, QueueOk, Advance, HandedOver,
        ItemOk, Ready, Fits;
    var r := Walk(env, m, queue, next, budget);
    WalkTurn(env, m, queue, next, budget);
    WalkDisciplined(env, m, queue, next, budget);
    LogOk(r.log);
    if budget > 0 && GoesOn(env, m, queue, next) {
      GoesOnReady(env, m, queue, next);
      ReadyHas(env, m, queue, next);
      var d := Segment(env, m, queue, next);
      var rest := Walk(env, HandedBack(env, m, d), Shortened(queue, d), Advance(env.ring, next), budget - 1);
      AdvanceKeeps(env.ring, next);
      WalkConserves(env, HandedBack(env, m, d), Shortened(queue, d), Advance(env.ring, next), budget - 1);
      SegmentConserves(queue, d);
      assert r.log[1..] == rest.log && r.log[0] == d;
      Rejoin(d.Bytes() + d.Lost(), Taken(rest.log), Undelivered(rest.queue));
    } else {
      assert [] + Undelivered(queue) == Undelivered(queue);
    }
  }

  lemma ReadyHas(env: Env, m: Memory, queue: seq<Item>, next: nat)
    requires QueueOk(queue) && env.ring.entryWords >= 4 && Ready(env, m, queue, next)
    ensures queue != []
  {
  }

  lemma Rejoin(x: seq<Byte>, y: seq<Byte>, z: seq<Byte>)
    ensures x + (y + z) == (x + y) + z && x + [] == x && [] + z == z
  {
  }

  /** With data chaining nothing is lost. */
  lemma ChainedLosesNothing(d: Delivery)
    requires d.Ok() && !d.unchained
    ensures d.Lost() == []
  {
  }

  // --- memory -----------------------------------------------------------------------------------------

  /** The bytes of an entry as the controller addresses them. */
  predicate InEntry(env: Env, d: Delivery, a: nat) {
    var start := EntryAddress(env.ring, d.index) / 2 * 2;
    start <= a < start + 2 * |d.before|
  }

  predicate InBuffer(d: Delivery, a: nat)
    requires d.Ok()
  {
    d.Address() <= a < d.Address() + d.count
  }

  /** Memory once an entry is handed back: the new entry, the segment in its buffer except where the entry
  overlies it, and nothing else changed. */
  lemma HandedBackAt(env: Env, m: Memory, d: Delivery, a: nat)
    requires d.Ok() && Fits(env, m, d) && ReadOk(m, EntryAddress(env.ring, d.index), |d.before|) && a in m
    ensures var r := HandedBack(env, m, d);
            && r.Keys == m.Keys
            && r[a] == if InEntry(env, d, a) then Unpack(After(d))[a - EntryAddress(env.ring, d.index) / 2 * 2]
                       else if InBuffer(d, a) then d.Bytes()[a - d.Address()]
                       else m[a]
  {
    hide Unpack, After, BytesAnswer, WithBytes, BytesReached;
    var at, m1 := EntryAddress(env.ring, d.index), WindowWritten(m, env.space, d.Address(), d.Bytes());
    assert m1 == WithBytes(m, d.Address(), d.Bytes()) by { SegmentWritten(env, m, d); }
    AnswersSame(m, m1, at / 2, |d.before|);
    WithBytesAt(m, d.Address(), d.Bytes(), a);
    WrittenAll(m1, at, After(d));
    WithBytesAt(m1, at / 2 * 2, Unpack(After(d)), a);
  }

  lemma SegmentWritten(env: Env, m: Memory, d: Delivery)
    requires d.Ok() && Fits(env, m, d)
    ensures WindowWritten(m, env.space, d.Address(), d.Bytes()) == WithBytes(m, d.Address(), d.Bytes())
  {
    if d.count == 0 {
      WithNoBytes(m, d.Address());
      ByteWriteNone(m, d.Address());
    } else {
      WritersAgree(m, env.space, d.Address(), d.Bytes());
    }
  }

  lemma ByteWriteNone(m: Memory, addr: nat)
    ensures ByteWrite(m, addr, []) == m && WithBytes(m, addr, []) == m
  {
  }

  predicate Touched(env: Env, log: seq<Delivery>, a: nat)
    requires forall k :: 0 <= k < |log| ==> log[k].Ok()
  {
    exists k :: 0 <= k < |log| && (InEntry(env, log[k], a) || InBuffer(log[k], a))
  }

  /** The segment a timeout interrupted, if there was one. */
  predicate TornOk(torn: seq<Delivery>) { |torn| <= 1 && (torn != [] ==> torn[0].Ok()) }

  predicate InTorn(torn: seq<Delivery>, a: nat)
    requires TornOk(torn)
  {
    torn != [] && InBuffer(torn[0], a)
  }

  lemma WindowFrame(m: Memory, space: nat, addr: nat, bs: seq<Byte>, a: nat)
    requires a in m
    ensures WindowWritten(m, space, addr, bs).Keys == m.Keys
    ensures !(addr <= a < addr + |bs|) ==> WindowWritten(m, space, addr, bs)[a] == m[a]
  {
    hide WithBytes, BytesReached, BytesAnswer;
    WithBytesAt(m, addr, bs, a);
    WithBytesAt(m, addr, bs[..BytesReached(m, addr, |bs|)], a);
  }

  lemma HaltedFrame(env: Env, m: Memory, queue: seq<Item>, next: nat, more: bool, a: nat)
    requires QueueOk(queue) && env.ring.entryWords >= 4 && a in m
    ensures var r := Halted(env, m, queue, next, more);
            TornOk(r.torn) && r.mem.Keys == m.Keys && (!InTorn(r.torn, a) ==> r.mem[a] == m[a])
  {
    hide WindowWritten, Segment, EntryAnswers;
    if Ready(env, m, queue, next) {
      var d := Segment(env, m, queue, next);
      WindowFrame(m, env.space, d.Address(), d.Bytes(), a);
    }
  }

  /** A walk, however it ends, changes nothing outside the buffers it filled or was interrupted in and the
  entries it handed back. */
  lemma {:induction false} WalkFrame(env: Env, m: Memory, queue: seq<Item>, next: nat, budget: nat, a: nat)
    requires QueueOk(queue) && env.ring.entryWords >= 4 && next < env.ring.count && a in m
    ensures var r := Walk(env, m, queue, next, budget);
            && r.mem.Keys == m.Keys && (forall k :: 0 <= k < |r.log| ==> r.log[k].Ok()) && TornOk(r.torn)
            && (r.torn != [] <==> r.stop == BufferTimeout)
            && (!Touched(env, r.log, a) && !InTorn(r.torn, a) ==> r.mem[a] == m[a])
    decreases budget
  {
    hide Walk, GoesOn, Halted, Segment, HandedBack, Shortened, QueueOk, Advance, HandedOver, ItemOk, Ready,
        Fits, InEntry, InBuffer;
    var r := Walk(env, m, queue, next, budget);
    WalkTurn(env, m, queue, next, budget);
    WalkDisciplined(env, m, queue, next, budget);
    LogOk(r.log);
    if budget > 0 && GoesOn(env, m, queue, next) {
      GoesOnReady(env, m, queue, next);
      var d := Segment(env, m, queue, next);
      EntryRead(env, m, queue, next);
      HandedBackAt(env, m, d, a);
      AdvanceKeeps(env.ring, next);
      var rest := Walk(env, HandedBack(env, m, d), Shortened(queue, d), Advance(env.ring, next), budget - 1);
      WalkFrame(env, HandedBack(env, m, d), Shortened(queue, d), Advance(env.ring, next), budget - 1, a);
      assert r.log[0] == d && forall k :: 0 <= k < |rest.log| ==> r.log[k + 1] == rest.log[k];
    } else {
      HaltedFrame(env, m, queue, next, budget > 0, a);
    }
  }

  lemma EntryRead(env: Env, m: Memory, queue: seq<Item>, next: nat)
    requires QueueOk(queue) && env.ring.entryWords >= 4 && Ready(env, m, queue, next)
    ensures var d := Segment(env, m, queue, next);
            && ReadOk(m, EntryAddress(env.ring, d.index), |d.before|)
            && d.before == WordsAt(m, EntryAddress(env.ring, next) / 2, env.ring.entryWords)
  {
  }
}
