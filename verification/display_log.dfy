/** The display register's change log: a ring written by the bus thread and read by the status poll, with no
lock between them.  Each step below is one load or store of a shared variable, so a run is any interleaving
of the two threads; the counters are 32-bit words that wrap. */
module DisplayLog {
  const CHANGES := 256
  const SPACING := 1000
  const WRAP := 0x1_0000_0000
  const CLOCK_WRAP := 0x1_0000_0000_0000_0000

  type Counter = c: int | 0 <= c < WRAP
  type Micros = t: int | 0 <= t < CLOCK_WRAP
  type Word = w: int | 0 <= w < 0x1_0000

  datatype Change = Change(us: Micros, value: Word)

  type Slots = s: seq<Change> | |s| == CHANGES witness seq(CHANGES, i => Change(0, 0))

  /** Where the bus thread stands in its callback. */
  datatype Producer =
    | Ready
    | Checking(entry: Change, head: Counter)
    | Refusing
    | Storing(entry: Change, head: Counter)
    | Publishing(entry: Change, head: Counter)

  /** Where the poll stands in its drain; `out` is what it has copied so far. */
  datatype Consumer =
    | Waiting
    | Starting(at: Counter)
    | Copying(at: Counter, upTo: Counter, out: seq<Change>)
    | Counting(out: seq<Change>)

  /** The shared ring, the producer's own record of the last change logged, the clock, and both threads. */
  datatype Ring = Ring(
    slots: Slots, head: Counter, tail: Counter, dropped: Counter,
    last: Change, any: bool, now: Micros, producer: Producer, consumer: Consumer)

  function Sub(a: Counter, b: Counter): (r: Counter) { (a - b) % WRAP }

  function Inc(a: Counter): (r: Counter) { (a + 1) % WRAP }

  datatype Event =
    | Write(value: Word)
    | Produce
    | Drain
    | Consume
    | Clock(to: Micros)

  /** A change worth logging: another word than the last one logged, and not too soon after it. */
  predicate Wanted(s: Ring, c: Change) {
    s.any ==> c.value != s.last.value && (c.us - s.last.us) % CLOCK_WRAP >= SPACING
  }

  function BeginWrite(s: Ring, value: Word): Ring {
    var c := Change(s.now, value);
    if s.producer.Ready? && Wanted(s, c) then s.(producer := Checking(c, s.head)) else s
  }

  function ProducerStep(s: Ring): Ring {
    match s.producer
    case Ready => s
    case Checking(c, head) =>
      if Sub(head, s.tail) >= CHANGES then s.(producer := Refusing) else s.(producer := Storing(c, head))
    case Refusing => s.(dropped := Inc(s.dropped), producer := Ready)
    case Storing(c, head) =>
      s.(slots := s.slots[head % CHANGES := c], producer := Publishing(c, head))
    case Publishing(c, head) => s.(head := Inc(head), last := c, any := true, producer := Ready)
  }

  function BeginDrain(s: Ring): Ring {
    if s.consumer.Waiting? then s.(consumer := Starting(s.tail)) else s
  }

  function ConsumerStep(s: Ring): Ring {
    match s.consumer
    case Waiting => s
    case Starting(at) => s.(consumer := Copying(at, s.head, []))
    case Copying(at, upTo, out) =>
      if at == upTo then s.(tail := at, consumer := Counting(out))
      else s.(consumer := Copying(Inc(at), upTo, out + [s.slots[at % CHANGES]]))
    case Counting(out) => s.(dropped := 0, consumer := Waiting)
  }

  function Step(s: Ring, e: Event): Ring {
    match e
    case Write(value) => BeginWrite(s, value)
    case Produce => ProducerStep(s)
    case Drain => BeginDrain(s)
    case Consume => ConsumerStep(s)
    case Clock(to) => if to >= s.now then s.(now := to) else s
  }

  function Initial(): Ring {
    Ring(seq(CHANGES, i => Change(0, 0)), 0, 0, 0, Change(0, 0), false, 0, Ready, Waiting)
  }

  // --- what the ring means --------------------------------------------------------

  /** How far the poll has read: its own counter while it copies, the shared one otherwise. */
  function Position(s: Ring): Counter {
    if s.consumer.Copying? then s.consumer.at else s.tail
  }

  /** The changes logged and not yet copied, read off the ring. */
  function Contents(s: Ring): (r: seq<Change>)
    ensures |r| == Sub(s.head, Position(s))
  {
    seq(Sub(s.head, Position(s)), i requires 0 <= i => s.slots[(Position(s) + i) % CHANGES])
  }

  /** What the poll has copied but not yet returned. */
  function Copied(s: Ring): seq<Change> {
    if s.consumer.Copying? || s.consumer.Counting? then s.consumer.out else []
  }

  predicate ProducerOk(s: Ring) {
    match s.producer
    case Ready => true
    case Checking(c, head) => head == s.head && Pending(s.now, s.any, s.last, c)
    case Refusing => true
    case Storing(c, head) => head == s.head && Sub(head, s.tail) < CHANGES && Pending(s.now, s.any, s.last, c)
    case Publishing(c, head) =>
      head == s.head && Sub(head, s.tail) < CHANGES && Pending(s.now, s.any, s.last, c) && s.slots[head % CHANGES] == c
  }

  /** The change being logged fits behind the last one. */
  predicate Pending(now: Micros, any: bool, last: Change, c: Change) {
    c.us <= now && (any ==> c.value != last.value && c.us - last.us >= SPACING)
  }

  predicate ConsumerOk(s: Ring) {
    match s.consumer
    case Waiting => true
    case Starting(at) => at == s.tail
    case Copying(at, upTo, out) => Sub(at, s.tail) <= Sub(upTo, s.tail) <= Sub(s.head, s.tail)
    case Counting(out) => true
  }

  predicate Ok(s: Ring) {
    && Sub(s.head, s.tail) <= CHANGES
    && (s.any ==> s.last.us <= s.now)
    && ProducerOk(s) && ConsumerOk(s)
  }

  // --- modular counting ---------------------------------------------------------------

  /** Counter differences add up along a stretch that does not wrap. */
  lemma SubSplit(a: Counter, b: Counter, c: Counter)
    requires Sub(b, c) <= Sub(a, c)
    ensures Sub(a, b) == Sub(a, c) - Sub(b, c)
  {
  }

  lemma SubInc(a: Counter, b: Counter)
    requires Sub(a, b) < WRAP - 1
    ensures Sub(Inc(a), b) == Sub(a, b) + 1
  {
  }

  lemma SubIncBelow(a: Counter, b: Counter)
    requires a != b
    ensures Sub(a, Inc(b)) == Sub(a, b) - 1
  {
  }

  /** The slot of a counter some distance on. */
  lemma SlotOf(a: Counter, b: Counter)
    ensures a % CHANGES == (b + Sub(a, b)) % CHANGES
  {
  }

  /** Different distances below the capacity are different slots. */
  lemma SlotsDiffer(b: Counter, i: nat, j: nat)
    requires i < j < CHANGES
    ensures (b + i) % CHANGES != (b + j) % CHANGES
  {
  }

  // --- every step keeps the invariant and the queue -----------------------------------------

  /** The change a step makes visible to the poll. */
  function Logged(s: Ring, e: Event): seq<Change> {
    if e.Produce? && s.producer.Publishing? then [s.producer.entry] else []
  }

  /** The changes a step returns from a drain. */
  function Delivered(s: Ring, e: Event): seq<Change> {
    if e.Consume? && s.consumer.Counting? then s.consumer.out else []
  }

  /** No slot the poll has still to read is the one the bus thread is about to store into. */
  lemma NoOverwrite(s: Ring, i: nat)
    requires Ok(s) && s.producer.Storing? && i < Sub(s.head, s.tail)
    ensures (s.tail + i) % CHANGES != s.producer.head % CHANGES
  {
    SlotOf(s.head, s.tail);
    SlotsDiffer(s.tail, i, Sub(s.head, s.tail));
  }

  /** The two threads never meet in a slot: while one stores, the other copies another slot. */
  lemma NoRace(s: Ring)
    requires Ok(s) && s.producer.Storing? && s.consumer.Copying? && s.consumer.at != s.consumer.upTo
    ensures s.producer.head % CHANGES != s.consumer.at % CHANGES
  {
    var i := Sub(s.consumer.at, s.tail);
    SlotOf(s.consumer.at, s.tail);
    CopyingBehind(s.consumer.at, s.consumer.upTo, s.tail);
    NoOverwrite(s, i);
  }

  lemma CopyingBehind(at: Counter, upTo: Counter, tail: Counter)
    requires at != upTo && Sub(at, tail) <= Sub(upTo, tail)
    ensures Sub(at, tail) < Sub(upTo, tail)
  {
  }

  /** Storing touches nothing that is still to be read. */
  lemma StoreKeepsContents(s: Ring)
    requires Ok(s) && s.producer.Storing?
    ensures Ok(ProducerStep(s)) && Contents(ProducerStep(s)) == Contents(s)
  {
    hide Sub, Pending;
    var r, pos, n := ProducerStep(s), Position(s), Sub(s.head, Position(s));
    PositionSplit(s);
    forall i | 0 <= i < n ensures Contents(r)[i] == Contents(s)[i] {
      var j := Sub(pos, s.tail) + i;
      NoOverwrite(s, j);
      SlotShift(s.tail, pos, i);
    }
  }

  /** The poll's position lies between the shared tail and the head. */
  lemma PositionSplit(s: Ring)
    requires Ok(s)
    ensures Sub(Position(s), s.tail) + Sub(s.head, Position(s)) == Sub(s.head, s.tail) <= CHANGES
  {
    if s.consumer.Copying? { SubSplit(s.head, s.consumer.at, s.tail); } else { SubSelf(s.tail); }
  }

  lemma SubSelf(a: Counter)
    ensures Sub(a, a) == 0
  {
  }

  lemma SlotShift(tail: Counter, pos: Counter, i: nat)
    ensures (pos + i) % CHANGES == (tail + (Sub(pos, tail) + i)) % CHANGES
  {
  }

  /** Publishing puts the change at the end of the queue. */
  lemma PublishAppends(s: Ring)
    requires Ok(s) && s.producer.Publishing?
    ensures Ok(ProducerStep(s)) && Contents(ProducerStep(s)) == Contents(s) + [s.producer.entry]
  {
    hide Sub, Inc;
    var r, pos := ProducerStep(s), Position(s);
    PositionSplit(s);
    SubInc(s.head, s.tail);
    SubInc(s.head, pos);
    SlotOf(s.head, pos);
    assert r.slots == s.slots && Position(r) == pos;
  }

  lemma ProducerKeeps(s: Ring)
    requires Ok(s)
    ensures var r := ProducerStep(s); Ok(r) && Contents(r) == Contents(s) + Logged(s, Produce) && Copied(r) == Copied(s)
  {
    hide Sub, Inc, Pending;
    match s.producer
    case Ready =>
    case Checking(c, head) => assert Contents(ProducerStep(s)) == Contents(s);
    case Refusing => assert Contents(ProducerStep(s)) == Contents(s);
    case Storing(c, head) => StoreKeepsContents(s);
    case Publishing(c, head) => PublishAppends(s);
  }

  /** Copying takes the oldest change off the queue. */
  lemma CopyTakesOldest(s: Ring)
    requires Ok(s) && s.consumer.Copying? && s.consumer.at != s.consumer.upTo
    ensures var r := ConsumerStep(s);
            && Ok(r) && Contents(s) != [] && Contents(r) == Contents(s)[1..]
            && Copied(r) == Copied(s) + [Contents(s)[0]]
  {
    hide Sub, Inc, Pending;
    var r, at, upTo, tail := ConsumerStep(s), s.consumer.at, s.consumer.upTo, s.tail;
    CopyingBehind(at, upTo, tail);
    SubInc(at, tail);
    PositionSplit(s);
    PositionSplit(r);
    assert |Contents(r)| == |Contents(s)| - 1;
    forall i | 0 <= i < |Contents(r)| ensures Contents(r)[i] == Contents(s)[i + 1] { IncShift(at, i); }
  }

  lemma IncShift(a: Counter, i: nat)
    ensures (Inc(a) + i) % CHANGES == (a + (i + 1)) % CHANGES
  {
  }

  /** Giving the copied slots back shortens the used part of the ring, not the queue. */
  lemma ReleaseKeeps(s: Ring)
    requires Ok(s) && s.consumer.Copying? && s.consumer.at == s.consumer.upTo
    ensures var r := ConsumerStep(s);
            Ok(r) && Contents(r) == Contents(s) && Copied(r) == Copied(s)
  {
    hide Sub, Inc, Pending;
    PositionSplit(s);
  }

  lemma ConsumerKeeps(s: Ring)
    requires Ok(s)
    ensures var r := ConsumerStep(s);
            && Ok(r) && Copied(s) + Contents(s) == Delivered(s, Consume) + Copied(r) + Contents(r)
  {
    hide Sub, Inc, Pending;
    var r := ConsumerStep(s);
    match s.consumer
    case Waiting =>
    case Starting(at) =>
      SubSelf(at);
      SubZero(s.head, at);
      assert Contents(r) == Contents(s);
    case Copying(at, upTo, out) =>
      if at == upTo { ReleaseKeeps(s); } else { CopyTakesOldest(s); }
    case Counting(out) => assert Contents(r) == Contents(s);
  }

  lemma SubZero(a: Counter, b: Counter)
    ensures Sub(a, b) >= 0
  {
  }

  /** Every step of either thread keeps the invariant, and the queue is first in, first out: what was copied and
  what was waiting, with what is logged now, is what is delivered now, then copied, then waiting. */
  lemma StepKeeps(s: Ring, e: Event)
    requires Ok(s)
    ensures var r := Step(s, e);
            && Ok(r)
            && Copied(s) + Contents(s) + Logged(s, e) == Delivered(s, e) + Copied(r) + Contents(r)
  {
    hide Sub, Inc, ProducerStep, ConsumerStep;
    var r := Step(s, e);
    match e
    case Write(value) => assert Contents(r) == Contents(s);
    case Produce =>
      ProducerKeeps(s);
      assert Copied(s) + Contents(s) + Logged(s, e) == Copied(s) + (Contents(s) + Logged(s, e));
    case Drain => assert Contents(r) == Contents(s);
    case Consume => ConsumerKeeps(s);
    case Clock(to) => assert Contents(r) == Contents(s);
  }

  // --- runs -------------------------------------------------------------------------------------

  function Run(es: seq<Event>): Ring
    decreases |es|
  {
    if es == [] then Initial() else Step(Run(es[..|es| - 1]), es[|es| - 1])
  }

  function AllLogged(es: seq<Event>): seq<Change>
    decreases |es|
  {
    if es == [] then [] else AllLogged(es[..|es| - 1]) + Logged(Run(es[..|es| - 1]), es[|es| - 1])
  }

  function AllDelivered(es: seq<Event>): seq<Change>
    decreases |es|
  {
    if es == [] then [] else AllDelivered(es[..|es| - 1]) + Delivered(Run(es[..|es| - 1]), es[|es| - 1])
  }

  lemma InitialOk()
    ensures Ok(Initial()) && Contents(Initial()) == [] && Copied(Initial()) == []
  {
  }

  /** The ring is a queue under every interleaving, however often the counters wrap: what was drained, what a drain in
  progress has copied, and what the ring still holds are the changes logged, in order; at most 256 wait. */
  lemma {:induction false} QueueRefined(es: seq<Event>)
    ensures Ok(Run(es)) && AllLogged(es) == AllDelivered(es) + Copied(Run(es)) + Contents(Run(es))
    ensures |Contents(Run(es))| <= CHANGES
  {
    hide Step, Sub, Ok, Contents, Copied, Logged, Delivered;
    if es == [] {
      InitialOk();
      SubSelf(0);
    } else {
      var before, e := es[..|es| - 1], es[|es| - 1];
      var s := Run(before);
      QueueRefined(before);
      StepKeeps(s, e);
      var done, held := AllDelivered(before), Copied(s) + Contents(s);
      assert AllDelivered(before) + Copied(s) + Contents(s) + Logged(s, e) == done + (held + Logged(s, e));
      var r := Step(s, e);
      assert done + (Delivered(s, e) + Copied(r) + Contents(r)) == done + Delivered(s, e) + Copied(r) + Contents(r);
    }
    QueueBounded(Run(es));
  }

  lemma QueueBounded(s: Ring)
    requires Ok(s)
    ensures |Contents(s)| <= CHANGES
  {
    hide Sub;
    PositionSplit(s);
  }

  /** Neighbouring changes differ in value and lie at least a millisecond apart. */
  predicate Spaced(cs: seq<Change>) {
    forall i :: 0 < i < |cs| ==> cs[i].value != cs[i - 1].value && cs[i].us - cs[i - 1].us >= SPACING
  }

  /** The record the producer keeps is the last change logged. */
  predicate LastOk(s: Ring, logged: seq<Change>) {
    (s.any <==> logged != []) && (s.any ==> logged[|logged| - 1] == s.last)
  }

  lemma LastStep(s: Ring, e: Event, logged: seq<Change>)
    requires Ok(s) && LastOk(s, logged) && Spaced(logged)
    ensures Spaced(logged + Logged(s, e)) && LastOk(Step(s, e), logged + Logged(s, e))
  {
    hide Contents, Sub, Inc, Wanted, ConsumerOk;
    if e.Produce? && s.producer.Publishing? {
      var all := logged + Logged(s, e);
      assert all[|logged|] == s.producer.entry;
      forall i | 0 < i < |all| ensures all[i].value != all[i - 1].value && all[i].us - all[i - 1].us >= SPACING {
        if i < |logged| { assert all[i] == logged[i] && all[i - 1] == logged[i - 1]; }
      }
    } else {
      assert logged + Logged(s, e) == logged;
    }
  }

  /** Under every interleaving, neighbouring logged changes differ and are at least a millisecond apart. */
  lemma {:induction false} LoggedSpaced(es: seq<Event>)
    ensures Spaced(AllLogged(es)) && LastOk(Run(es), AllLogged(es))
  {
    hide Step, Ok, Spaced, LastOk, Logged;
    if es == [] {
      NothingLogged();
    } else {
      var before, e := es[..|es| - 1], es[|es| - 1];
      LoggedSpaced(before);
      QueueRefined(before);
      LastStep(Run(before), e, AllLogged(before));
    }
  }

  lemma NothingLogged()
    ensures Spaced([]) && LastOk(Initial(), [])
  {
  }

  // --- nothing worth logging is passed over --------------------------------------------

  /** Nothing logged yet, or another word than the last one logged, a millisecond or more after it. */
  predicate OnTime(any: bool, last: Change, us: Micros, value: Word) {
    !any || (value != last.value && us - last.us >= 1000)
  }

  /** How far a write of `c` has come, and how many of its steps that took; nothing is logged or refused yet. */
  predicate UnderWay(s: Ring, c: Change, steps: nat) {
    match s.producer
    case Ready => false
    case Checking(entry, head) => entry == c && steps == 0
    case Refusing => steps == 1
    case Storing(entry, head) => entry == c && steps == 1
    case Publishing(entry, head) => entry == c && steps == 2
  }

  /** A write starts the callback exactly if it is on time; otherwise it changes nothing. */
  lemma WriteStarts(s: Ring, value: Word)
    requires Ok(s) && s.producer.Ready?
    ensures if OnTime(s.any, s.last, s.now, value) then UnderWay(Step(s, Write(value)), Change(s.now, value), 0)
            else Step(s, Write(value)) == s
  {
    hide Contents;
  }

  /** Under way, a write stays so, is logged, or is refused. */
  lemma UnderWayStep(s: Ring, c: Change, steps: nat, e: Event)
    requires UnderWay(s, c, steps)
    ensures var r, next := Step(s, e), steps + (if e.Produce? then 1 else 0);
            if !r.producer.Ready? then UnderWay(r, c, next) && Logged(s, e) == [] && Refused(s, e) == 0
            else || (Logged(s, e) == [c] && Refused(s, e) == 0 && next == 3)
                 || (Logged(s, e) == [] && Refused(s, e) == 1 && next == 2)
  {
    hide Sub, Inc;
  }

  function Produced(es: seq<Event>): nat {
    if es == [] then 0 else Produced(es[..|es| - 1]) + (if es[|es| - 1].Produce? then 1 else 0)
  }

  /** The producer is inside its callback after `es` and after every event of `fs` but the last. */
  predicate Busy(es: seq<Event>, fs: seq<Event>) {
    forall k :: 0 <= k < |fs| ==> !Run(es + fs[..k]).producer.Ready?
  }

  /** What has become of a write of `c` that began with the last event of `es`, once `fs` has happened. */
  predicate Outcome(es: seq<Event>, fs: seq<Event>, c: Change) {
    var all := es + fs;
    if !Run(all).producer.Ready? then
      UnderWay(Run(all), c, Produced(fs)) && AllLogged(all) == AllLogged(es) && AllRefused(all) == AllRefused(es)
    else
      || (AllLogged(all) == AllLogged(es) + [c] && AllRefused(all) == AllRefused(es) && Produced(fs) == 3)
      || (AllLogged(all) == AllLogged(es) && AllRefused(all) == AllRefused(es) + 1 && Produced(fs) == 2)
  }

  lemma {:induction false} OutcomeFollows(es: seq<Event>, fs: seq<Event>, c: Change)
    requires UnderWay(Run(es), c, 0) && Busy(es, fs)
    ensures Outcome(es, fs, c)
  {
    hide Step, UnderWay, Logged, Refused;
    if fs == [] {
      assert es + fs == es;
      NotReady(Run(es), c, 0);
    } else {
      var before, e := fs[..|fs| - 1], fs[|fs| - 1];
      assert (es + fs)[..|es + fs| - 1] == es + before && (es + fs)[|es + fs| - 1] == e;
      assert forall k :: 0 <= k < |before| ==> before[..k] == fs[..k];
      OutcomeFollows(es, before, c);
      assert !Run(es + fs[..|fs| - 1]).producer.Ready?;
      UnderWayStep(Run(es + before), c, Produced(before), e);
    }
  }

  lemma NotReady(s: Ring, c: Change, steps: nat)
    requires UnderWay(s, c, steps)
    ensures !s.producer.Ready?
  {
  }

  /** Under every interleaving a write that finds the bus thread outside its callback is logged with its time, or
  refused and counted, once the thread's two or three steps are done, if it is on time; and is passed over without
  a trace if it is not. */
  lemma WriteCounts(es: seq<Event>, value: Word, fs: seq<Event>)
    requires Run(es).producer.Ready?
    ensures var s, w := Run(es), es + [Write(value)];
            if OnTime(s.any, s.last, s.now, value) then
              && !Run(w).producer.Ready? && AllLogged(w) == AllLogged(es) && AllRefused(w) == AllRefused(es)
              && (Busy(w, fs) ==> Outcome(w, fs, Change(s.now, value)))
            else Run(w) == s
  {
    hide Step, UnderWay, Logged, Refused, Outcome, Busy, Ok;
    var s, w := Run(es), es + [Write(value)];
    QueueRefined(es);
    WriteStarts(s, value);
    assert w[..|w| - 1] == es;
    WriteSilent(s, value);
    if OnTime(s.any, s.last, s.now, value) {
      NotReady(Run(w), Change(s.now, value), 0);
      if Busy(w, fs) { OutcomeFollows(w, fs, Change(s.now, value)); }
    }
  }

  lemma WriteSilent(s: Ring, value: Word)
    ensures Logged(s, Write(value)) == [] && Refused(s, Write(value)) == 0
  {
  }

  // --- a drain returns everything ---------------------------------------------------------

  /** How far a drain that found `all` waiting has come, and how many of its steps that took. */
  predicate Draining(s: Ring, all: seq<Change>, steps: nat) {
    match s.consumer
    case Waiting => false
    case Starting(at) => false
    case Copying(at, upTo, out) =>
      Sub(upTo, at) <= |Contents(s)| && all == out + Contents(s)[..Sub(upTo, at)] && steps == |out|
    case Counting(out) => out == all && steps == |out| + 1
  }

  /** A drain begins with the first step of the poll, and finds what waits at its second. */
  lemma DrainStarts(s: Ring)
    requires Ok(s)
    ensures s.consumer.Waiting? ==> Step(s, Drain).consumer.Starting? && Contents(Step(s, Drain)) == Contents(s)
    ensures s.consumer.Starting? ==> Draining(Step(s, Consume), Contents(s), 0)
  {
    hide Sub, Pending;
    if s.consumer.Starting? {
      SubSelf(s.tail);
      ConsumerKeeps(s);
      assert [] + Contents(s) == Contents(s);
    }
  }

  /** Inside a drain: whatever the bus thread logs meanwhile goes behind what the drain found. */
  lemma DrainingStep(s: Ring, all: seq<Change>, steps: nat, e: Event)
    requires Ok(s) && Draining(s, all, steps)
    ensures var r, next := Step(s, e), steps + (if e.Consume? then 1 else 0);
            if r.consumer.Waiting? then Delivered(s, e) == all && next == |all| + 2
            else Draining(r, all, next) && Delivered(s, e) == []
  {
    hide Sub, Inc, Pending, Contents, ProducerStep, Wanted;
    match e
    case Write(value) => BeginKeeps(s, value);
    case Produce =>
      ProducerKeeps(s);
      ProducerSpares(s);
    case Drain => SameContents(s, s);
    case Consume => DrainConsumes(s, all, steps);
    case Clock(to) => SameContents(s, Step(s, e));
  }

  lemma ProducerSpares(s: Ring)
    ensures ProducerStep(s).consumer == s.consumer
  {
    hide Sub, Inc;
  }

  lemma SameContents(s: Ring, r: Ring)
    requires r == s.(now := r.now)
    ensures Contents(r) == Contents(s)
  {
  }

  lemma DrainConsumes(s: Ring, all: seq<Change>, steps: nat)
    requires Ok(s) && Draining(s, all, steps)
    ensures var r := ConsumerStep(s);
            if r.consumer.Waiting? then Delivered(s, Consume) == all && steps + 1 == |all| + 2
            else Draining(r, all, steps + 1) && Delivered(s, Consume) == []
  {
    hide Sub, Inc, Pending, Contents;
    if s.consumer.Copying? {
      var at, upTo, out := s.consumer.at, s.consumer.upTo, s.consumer.out;
      if at == upTo {
        SubSelf(at);
        assert out + [] == out;
      } else {
        CopyTakesOldest(s);
        SubIncBelow(upTo, at);
        var left := Sub(upTo, at);
        CopyingLeft(s);
        assert Contents(s)[..left] == [Contents(s)[0]] + Contents(s)[1..][..left - 1];
        assert out + ([Contents(s)[0]] + Contents(s)[1..][..left - 1])
            == out + [Contents(s)[0]] + Contents(s)[1..][..left - 1];
      }
    }
  }

  lemma CopyingLeft(s: Ring)
    requires s.consumer.Copying? && s.consumer.at != s.consumer.upTo
    ensures Sub(s.consumer.upTo, s.consumer.at) > 0
  {
  }

  function Consumed(es: seq<Event>): nat {
    if es == [] then 0 else Consumed(es[..|es| - 1]) + (if es[|es| - 1].Consume? then 1 else 0)
  }

  /** The poll is inside its drain after `es` and after every event of `fs` but the last. */
  predicate Polling(es: seq<Event>, fs: seq<Event>) {
    forall k :: 0 <= k < |fs| ==> !Run(es + fs[..k]).consumer.Waiting?
  }

  /** What has become of a drain that looked with the last event of `es` and found `all`, once `fs` has happened. */
  predicate Drained(es: seq<Event>, fs: seq<Event>, all: seq<Change>) {
    if Run(es + fs).consumer.Waiting? then
      AllDelivered(es + fs) == AllDelivered(es) + all && Consumed(fs) == |all| + 2
    else Draining(Run(es + fs), all, Consumed(fs)) && AllDelivered(es + fs) == AllDelivered(es)
  }

  lemma {:induction false} DrainFollows(es: seq<Event>, fs: seq<Event>, all: seq<Change>)
    requires Draining(Run(es), all, 0) && Polling(es, fs)
    ensures Drained(es, fs, all)
  {
    hide Step, Draining, Delivered, Ok;
    if fs == [] {
      assert es + fs == es;
      NotWaiting(Run(es), all, 0);
    } else {
      var before, e := fs[..|fs| - 1], fs[|fs| - 1];
      assert (es + fs)[..|es + fs| - 1] == es + before && (es + fs)[|es + fs| - 1] == e;
      assert forall k :: 0 <= k < |before| ==> before[..k] == fs[..k];
      DrainFollows(es, before, all);
      assert !Run(es + fs[..|fs| - 1]).consumer.Waiting?;
      RunOk(es + before);
      DrainingStep(Run(es + before), all, Consumed(before), e);
    }
  }

  lemma RunOk(es: seq<Event>)
    ensures Ok(Run(es))
  {
    hide Run, Ok;
    QueueRefined(es);
  }

  /** Under every interleaving a drain that has begun returns, in as many steps as changes and two more, exactly the
  changes that waited when it looked, oldest first; what is logged meanwhile stays for the next. */
  lemma DrainReturns(es: seq<Event>, fs: seq<Event>)
    requires Run(es).consumer.Starting?
    ensures var w := es + [Consume];
            AllDelivered(w) == AllDelivered(es) && (Polling(w, fs) ==> Drained(w, fs, Contents(Run(es))))
  {
    hide Step, Draining, Delivered, Contents, Ok, Drained, Polling;
    var w, all := es + [Consume], Contents(Run(es));
    RunOk(es);
    assert w[..|w| - 1] == es && w[|w| - 1] == Consume;
    DrainStarts(Run(es));
    StartReturnsNothing(Run(es));
    if Polling(w, fs) { DrainFollows(w, fs, all); }
  }

  lemma NotWaiting(s: Ring, all: seq<Change>, steps: nat)
    requires Draining(s, all, steps)
    ensures !s.consumer.Waiting?
  {
  }

  lemma StartReturnsNothing(s: Ring)
    requires s.consumer.Starting?
    ensures Delivered(s, Consume) == []
  {
  }

  // --- refusals ------------------------------------------------------------------------------------

  /** A change refused because the log was full. */
  function Refused(s: Ring, e: Event): nat { if e.Produce? && s.producer.Refusing? then 1 else 0 }

  /** The drop count a drain returns. */
  function Reported(s: Ring, e: Event): nat { if e.Consume? && s.consumer.Counting? then s.dropped else 0 }

  function AllRefused(es: seq<Event>): nat
    decreases |es|
  {
    if es == [] then 0 else AllRefused(es[..|es| - 1]) + Refused(Run(es[..|es| - 1]), es[|es| - 1])
  }

  function AllReported(es: seq<Event>): nat
    decreases |es|
  {
    if es == [] then 0 else AllReported(es[..|es| - 1]) + Reported(Run(es[..|es| - 1]), es[|es| - 1])
  }

  /** A step adds a refusal to the pending count, moves it to the report, or leaves both alone. */
  lemma DropStep(s: Ring, e: Event)
    ensures var wraps := e.Produce? && s.producer.Refusing? && s.dropped == WRAP - 1;
            s.dropped + Refused(s, e) == Reported(s, e) + Step(s, e).dropped + (if wraps then WRAP else 0)
  {
    hide Sub, Wanted;
  }

  /** Refusals counted modulo the width of the drop counter. */
  lemma {:induction false} RefusalsModulo(es: seq<Event>) returns (wraps: nat)
    ensures AllRefused(es) == AllReported(es) + Run(es).dropped + wraps * WRAP
  {
    hide Step;
    if es == [] {
      wraps := 0;
    } else {
      var before, e := es[..|es| - 1], es[|es| - 1];
      wraps := RefusalsModulo(before);
      var s := Run(before);
      DropStep(s, e);
      if e.Produce? && s.producer.Refusing? && s.dropped == WRAP - 1 { wraps := wraps + 1; }
    }
  }

  /** Short of 2^32 refusals, the counts drains returned and the count pending add up to the refusals. */
  lemma RefusalsCounted(es: seq<Event>)
    requires AllRefused(es) < WRAP
    ensures AllRefused(es) == AllReported(es) + Run(es).dropped
  {
    hide Run, AllRefused, AllReported;
    var wraps := RefusalsModulo(es);
  }

  /** A change is refused only when 256 changes have not been released by the poll. */
  lemma RefusedOnlyFull(s: Ring)
    requires Ok(s) && s.producer.Checking?
    ensures ProducerStep(s).producer.Refusing? <==> Sub(s.head, s.tail) == CHANGES
  {
  }

  // --- the device --------------------------------------------------------------------------------

  /** The change at a counter some distance after the poll's position. */
  lemma Oldest(s: Ring, at: Counter, k: nat)
    requires s.consumer.Waiting? && Sub(at, s.tail) == k < Sub(s.head, s.tail)
    ensures Contents(s)[k] == s.slots[at % CHANGES]
  {
    SlotOf(at, s.tail);
  }

  /** A whole callback of the bus thread, as it runs when the poll does not move in between. */
  function WholeWrite(s: Ring, value: Word): Ring {
    ProducerStep(ProducerStep(ProducerStep(BeginWrite(s, value))))
  }

  /** Undisturbed, a write on time is logged, or counted as refused by a log of 256; any other changes nothing. */
  lemma WholeWriteLogs(s: Ring, value: Word)
    requires Ok(s) && s.producer.Ready?
    ensures var r, n, c := WholeWrite(s, value), |Contents(s)|, Change(s.now, value);
            if !OnTime(s.any, s.last, s.now, value) then r == s
            else if Sub(s.head, s.tail) < 256 then
              Contents(r) == Contents(s) + [c] && r == s.(slots := r.slots, head := r.head, last := c, any := true)
            else r == s.(dropped := (s.dropped + 1) % 0x1_0000_0000)
  {
    hide Sub, ProducerStep, Contents, Ok;
    WriteStarts(s, value);
    BeginKeeps(s, value);
    var s0 := BeginWrite(s, value);
    var s1 := ProducerStep(s0);
    var s2 := ProducerStep(s1);
    ProducerKeeps(s0);
    ProducerKeeps(s1);
    ProducerKeeps(s2);
    assert Contents(s) + [] + [] == Contents(s);
    ProducerMoves(s);
    ProducerMoves(s0);
    ProducerMoves(s1);
    ProducerMoves(s2);
  }

  lemma LogMeans(s: Ring, value: Word)
    requires Ok(s.(now := CLOCK_WRAP - 1)) && s.producer.Ready? && s.consumer.Waiting? && (s.any ==> s.last.us <= s.now)
    ensures Ok(s) && |Contents(s)| == Sub(s.head, s.tail) <= 256
    ensures var r, c := WholeWrite(s, value), Change(s.now, value);
            if !OnTime(s.any, s.last, s.now, value) then r == s
            else if |Contents(s)| < 256 then
              Contents(r) == Contents(s) + [c] && r == s.(slots := r.slots, head := r.head, last := c, any := true)
            else r == s.(dropped := (s.dropped + 1) % 0x1_0000_0000)
  {
    hide Sub, WholeWrite, OnTime;
    WholeWriteLogs(s, value);
  }

  /** The callback, spelt out as one. */
  lemma WholeWriteIs(s: Ring, value: Word)
    requires s.producer.Ready?
    ensures var c := Change(s.now, value);
            WholeWrite(s, value) ==
              if s.any && (value == s.last.value || (s.now - s.last.us) % CLOCK_WRAP < SPACING) then s
              else if Sub(s.head, s.tail) >= CHANGES then s.(dropped := Inc(s.dropped))
              else s.(slots := s.slots[s.head % CHANGES := c], head := Inc(s.head), last := c, any := true)
  {
    hide Sub, Inc;
  }

  lemma BeginKeeps(s: Ring, value: Word)
    requires Ok(s)
    ensures Ok(BeginWrite(s, value)) && Contents(BeginWrite(s, value)) == Contents(s)
  {
    hide Sub;
  }

  lemma ProducerMoves(s: Ring)
    ensures var r := ProducerStep(s);
            match s.producer
            case Ready => r == s
            case Checking(c, head) =>
              r == s.(producer := if Sub(head, s.tail) >= 256 then Refusing else Storing(c, head))
            case Refusing => r == s.(dropped := (s.dropped + 1) % 0x1_0000_0000, producer := Ready)
            case Storing(c, head) => r == s.(slots := r.slots, producer := Publishing(c, head))
            case Publishing(c, head) => r == s.(head := r.head, last := c, any := true, producer := Ready)
  {
    hide Sub;
  }

  class Log {
    const slots: array<Change>
    var head: Counter
    var tail: Counter
    var dropped: Counter
    var last: Change
    var any: bool

    predicate Valid()
      reads this, slots
    {
      slots.Length == CHANGES && Ok(State(CLOCK_WRAP - 1))
    }

    /** The ring with both threads outside it, as the clock reads `now`. */
    function State(now: Micros): Ring
      requires slots.Length == CHANGES
      reads this, slots
    {
      Ring(slots[..], head, tail, dropped, last, any, now, Ready, Waiting)
    }

    constructor ()
      ensures Valid() && fresh(slots) && State(0) == Initial()
    {
      slots := new Change[CHANGES](i => Change(0, 0));
      head, tail, dropped, last, any := 0, 0, 0, Change(0, 0), false;
    }

    /** A word written to the display at time `us`. */
    method OnDato(value: Word, us: Micros)
      requires slots.Length == CHANGES
      modifies this, slots
      ensures State(us) == WholeWrite(old(State(us)), value)
      ensures old(Valid() && (any ==> last.us <= us)) ==>
                var n, late := old(|Contents(State(us))|), old(OnTime(any, last, us, value));
                && (late && n < 256 ==> Contents(State(us)) == old(Contents(State(us))) + [Change(us, value)])
                && (late && n < 256 ==> any && last == Change(us, value) && dropped == old(dropped))
                && (late && n == 256 ==> State(us) == old(State(us)).(dropped := old((dropped + 1) % 0x1_0000_0000)))
                && (!late ==> State(us) == old(State(us)))
    {
      hide Sub, Inc, Ok, OnTime, Contents, WholeWrite;
      ghost var s := State(us);
      WholeWriteIs(s, value);
      if Valid() && (any ==> last.us <= us) { LogMeans(s, value); }
      if any && value == last.value { return; }
      if any && (us - last.us) % CLOCK_WRAP < SPACING { return; }
      if Sub(head, tail) >= CHANGES {
        dropped := Inc(dropped);
        return;
      }
      slots[head % CHANGES] := Change(us, value);
      head := Inc(head);
      last := Change(us, value);
      any := true;
    }

    /** The poll: every change waiting, oldest first, and how many were refused since the last poll. */
    method DrainChanges() returns (out: seq<Change>, refused: Counter)
      requires Valid()
      modifies this
      ensures Valid() && out == Contents(old(State(0))) && Contents(State(0)) == []
      ensures refused == old(dropped) && dropped == 0
      ensures head == old(head) && last == old(last) && any == old(any)
    {
      hide Sub, Inc, Contents;
      var at: Counter, upTo := tail, head;
      out := [];
      ghost var all := Contents(State(0));
      SubSelf(at);
      while at != upTo
        invariant unchanged(this)
        invariant Sub(upTo, at) + |out| == |all| && out == all[..|out|]
        invariant Sub(at, tail) == |out|
        decreases |all| - |out|
      {
        SubIncBelow(upTo, at);
        SubInc(at, tail);
        Oldest(State(0), at, |out|);
        out := out + [slots[at % CHANGES]];
        at := Inc(at);
      }
      SubSelf(upTo);
      tail := at;
      refused := dropped;
      dropped := 0;
    }
  }
}
