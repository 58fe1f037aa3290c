/** The DEUNA transmit ring: entries the host has handed over are read, sent and handed back.  The frame's bytes are
not modelled, only how many of them the transmit buffer holds; what the link does with a frame is an input. */
module DeunaTransmit {
  import opened GuestMemory
  import opened DeunaRing
  import opened ByteDma

  const ETH_MIN_PACKET := 60
  const ETH_MAX_PACKET := 1514

  /** What becomes of a frame: whether the link took it, and whether its destination is one of the station's
  addresses. */
  datatype Outcome = Outcome(sent: bool, matched: bool)

  /** Fixed during a walk; `pads` is the mode bit that allows padding, `loops` the internal loopback, and `link`
  says what becomes of the n-th frame. */
  datatype Env = Env(space: nat, ring: Ring, pads: bool, loops: bool, link: nat -> Outcome)

  /** The transmit buffer and the controller's notes on the message in it; `frames` counts the frames completed. */
  datatype Message = Message(len: nat, giant: bool, runt: bool, frames: nat)

  /** One entry handed back. */
  datatype Report = Report(index: nat, before: seq<Word>, after: seq<Word>, ended: bool, message: Message)

  datatype Stop = Limit | NothingOwned | EntryTimeout | BufferTimeout

  datatype Tx = Tx(mem: Memory, next: nat, message: Message, log: seq<Report>, stop: Stop)

  predicate Starts(w: Word) { w / 0x200 % 2 == 1 }
  predicate Ends(w: Word) { w / 0x100 % 2 == 1 }

  predicate OwnedEntry(env: Env, m: Memory, i: nat, words: nat)
    requires words >= 4
  {
    var at := EntryAddress(env.ring, i);
    EntryAnswers(m, env.space, at, words) && Owned(WordsAt(m, at / 2, words)[2])
  }

  /** The first entry from `i` on that answers and is owned by the controller, or the ring's length. */
  function FindOwned(env: Env, m: Memory, i: nat): (j: nat)
    ensures i <= env.ring.count ==> i <= j <= env.ring.count
    ensures j < env.ring.count ==> OwnedEntry(env, m, j, 4)
    decreases env.ring.count - i
  {
    if i >= env.ring.count then env.ring.count
    else if OwnedEntry(env, m, i, 4) then i
    else FindOwned(env, m, i + 1)
  }

  /** Where the walk turns next: an entry the host owns makes it look for another one round the ring. */
  function Target(env: Env, m: Memory, next: nat): nat
    requires env.ring.entryWords >= 4
  {
    if EntryAnswers(m, env.space, EntryAddress(env.ring, next), env.ring.entryWords)
       && !OwnedEntry(env, m, next, env.ring.entryWords) && FindOwned(env, m, 0) < env.ring.count
    then FindOwned(env, m, 0) else next
  }

  /** A message as an entry that starts one leaves it. */
  function Begun(g: Message, w: Word): Message {
    if Starts(w) then Message(0, false, false, g.frames) else g
  }

  /** How much of an entry's buffer still fits. */
  function Room(g: Message, slen: Word): nat {
    if g.len >= ETH_MAX_PACKET then 0
    else if g.len + slen > ETH_MAX_PACKET then ETH_MAX_PACKET - g.len
    else slen
  }

  predicate Overflows(g: Message, slen: Word) { g.len >= ETH_MAX_PACKET || g.len + slen > ETH_MAX_PACKET }

  function Filled(g: Message, slen: Word): Message {
    g.(len := g.len + Room(g, slen), giant := g.giant || Overflows(g, slen))
  }

  /** The end of a message: padded to the smallest frame, a runt unless padding is allowed. */
  function Closed(env: Env, g: Message): Message {
    if g.len < ETH_MIN_PACKET then g.(len := ETH_MIN_PACKET, runt := g.runt || !env.pads, frames := g.frames + 1)
    else g.(frames := g.frames + 1)
  }

  function B(b: bool): nat { if b then 1 else 0 }

  predicate Refused(env: Env, g: Message) { !env.loops && !env.link(g.frames).sent }

  /** Word 2 written back: ownership given up, start and end kept, and for a last segment the match and error bits. */
  function Status2(env: Env, w: Word, g: Message): Word {
    if !Ends(w) then w % 0x400
    else
      var matched := env.link(g.frames).matched;
      0x4000 * B(g.giant || g.runt || Refused(env, g) || !matched) + 0x2000 * B(matched) + w % 0x400
  }

  /** Word 3: bit 15 for a message of the wrong length, or for success without a match; bit 10 for a frame refused. */
  function Status3(env: Env, w: Word, g: Message): Word {
    if !Ends(w) then 0
    else
      var bad, refused := g.giant || g.runt, Refused(env, g);
      0x8000 * B(bad || (!refused && !env.link(g.frames).matched)) + 0x400 * B(refused)
  }

  predicate BufferReads(m: Memory, space: nat, addr: nat, n: nat) {
    n == 0 || (addr + n <= space && addr / 2 * 2 + (n + 1) / 2 * 2 <= space && AllAnswer(m, addr / 2, (n + 1) / 2))
  }

  /** What an owned entry makes of the message; `g` is the message as the entry finds it. */
  function Handle(env: Env, index: nat, desc: seq<Word>, g: Message): (r: Report)
    requires |desc| >= 4
    ensures r.index == index && r.before == desc && |r.after| == |desc|
  {
    var filled := Filled(Begun(g, desc[2]), desc[0]);
    var closed := if Ends(desc[2]) then Closed(env, filled) else filled;
    var noted := closed.(frames := g.frames);
    Report(index, desc, desc[2 := Status2(env, desc[2], noted)][3 := Status3(env, desc[2], noted)],
           Ends(desc[2]), closed)
  }

  function Desc(env: Env, m: Memory, i: nat): (d: seq<Word>)
    requires env.ring.entryWords >= 4 && OwnedEntry(env, m, i, env.ring.entryWords)
    ensures |d| == env.ring.entryWords && Owned(d[2])
  {
    WordsAt(m, EntryAddress(env.ring, i) / 2, env.ring.entryWords)
  }

  predicate DataReads(env: Env, m: Memory, desc: seq<Word>, g: Message)
    requires |desc| >= 4
  {
    BufferReads(m, env.space, SegmentAddress(desc[2], desc[1]), Room(Begun(g, desc[2]), desc[0]))
  }

  /** An entry the walk handles: owned where it turns, with a readable buffer. */
  predicate GoesOn(env: Env, m: Memory, next: nat, g: Message)
    requires env.ring.entryWords >= 4
  {
    var i := Target(env, m, next);
    && OwnedEntry(env, m, i, env.ring.entryWords)
    && DataReads(env, m, Desc(env, m, i), g)
  }

  function NextReport(env: Env, m: Memory, next: nat, g: Message): (r: Report)
    requires env.ring.entryWords >= 4 && OwnedEntry(env, m, Target(env, m, next), env.ring.entryWords)
    ensures r.index == Target(env, m, next) && |r.after| == |r.before| == env.ring.entryWords
    ensures r.before == Desc(env, m, r.index) && Owned(r.before[2])
  {
    Handle(env, Target(env, m, next), Desc(env, m, Target(env, m, next)), g)
  }

  function HandedBack(env: Env, m: Memory, r: Report): Memory {
    Written(m, EntryAddress(env.ring, r.index), r.after)
  }

  /** The message as an entry whose buffer cannot be read leaves it. */
  function Abandoned(env: Env, m: Memory, i: nat, g: Message): Message
    requires env.ring.entryWords >= 4 && OwnedEntry(env, m, i, env.ring.entryWords)
  {
    var desc := Desc(env, m, i);
    var begun := Begun(g, desc[2]);
    begun.(giant := begun.giant || Overflows(begun, desc[0]))
  }

  /** How a walk ends that cannot go on. */
  function Halted(env: Env, m: Memory, next: nat, g: Message, more: bool): Tx
    requires env.ring.entryWords >= 4
  {
    var i := Target(env, m, next);
    if !more then Tx(m, next, g, [], Limit)
    else if !EntryAnswers(m, env.space, EntryAddress(env.ring, i), env.ring.entryWords) then
      Tx(m, i, g, [], EntryTimeout)
    else if !OwnedEntry(env, m, i, env.ring.entryWords) then Tx(m, i, g, [], NothingOwned)
    else Tx(m, i, Abandoned(env, m, i, g), [], BufferTimeout)
  }

  function Walk(env: Env, m: Memory, next: nat, g: Message, budget: nat): Tx
    requires env.ring.entryWords >= 4
    decreases budget
  {
    if budget > 0 && GoesOn(env, m, next, g) then
      var r := NextReport(env, m, next, g);
      var rest := Walk(env, HandedBack(env, m, r), Advance(env.ring, r.index), r.message, budget - 1);
      rest.(log := [r] + rest.log)
    else Halted(env, m, next, g, budget > 0)
  }

  // --- what a walk keeps ---------------------------------------------------------------

  lemma TargetIn(env: Env, m: Memory, next: nat)
    requires env.ring.entryWords >= 4 && next < env.ring.count
    ensures Target(env, m, next) < env.ring.count
  {
  }

  predicate LengthOk(g: Message) { g.len <= ETH_MAX_PACKET }

  /** An entry handed back was the controller's and is the host's; only its words 2 and 3 are new.  A message never
  outgrows the largest frame, and one that ends is at least the smallest. */
  predicate ReportOk(env: Env, r: Report) {
    && |r.before| == |r.after| == env.ring.entryWords >= 4 && r.index < env.ring.count
    && Owned(r.before[2]) && !Owned(r.after[2])
    && r.after == r.before[2 := r.after[2]][3 := r.after[3]]
    && SegmentAddress(r.after[2], r.after[1]) == SegmentAddress(r.before[2], r.before[1])
    && LengthOk(r.message) && (r.ended ==> ETH_MIN_PACKET <= r.message.len)
  }

  lemma HandleOk(env: Env, index: nat, desc: seq<Word>, g: Message)
    requires |desc| == env.ring.entryWords >= 4 && index < env.ring.count && Owned(desc[2]) && LengthOk(g)
    ensures ReportOk(env, Handle(env, index, desc, g))
  {
    hide Status2, Status3, Begun, Room, Overflows;
    BegunOk(g, desc[2]);
    var filled := Filled(Begun(g, desc[2]), desc[0]);
    RoomFits(Begun(g, desc[2]), desc[0]);
    var closed := if Ends(desc[2]) then Closed(env, filled) else filled;
    Status2Keeps(env, desc[2], closed.(frames := g.frames));
  }

  lemma BegunOk(g: Message, w: Word)
    requires LengthOk(g)
    ensures LengthOk(Begun(g, w))
  {
  }

  lemma RoomFits(g: Message, slen: Word)
    requires LengthOk(g)
    ensures g.len + Room(g, slen) <= ETH_MAX_PACKET
  {
  }

  lemma Status2Keeps(env: Env, w: Word, g: Message)
    ensures var r := Status2(env, w, g); !Owned(r) && r % 4 == w % 4
  {
  }

  /** A completed message is reported with what became of it. */
  lemma StatusDecodes(env: Env, index: nat, desc: seq<Word>, g: Message)
    requires |desc| >= 4 && Ends(desc[2])
    ensures var r := Handle(env, index, desc, g);
            var sent := env.loops || env.link(g.frames).sent;
            && (r.after[3] / 0x400 % 2 == 1 <==> !sent)
            && (r.after[2] / 0x2000 % 2 == 1 <==> env.link(g.frames).matched)
            && (r.after[2] / 0x4000 % 2 == 0 <==>
                  sent && env.link(g.frames).matched && !r.message.giant && !r.message.runt)
            && Ends(r.after[2]) && (Starts(r.after[2]) <==> Starts(desc[2]))
  {
    var r := Handle(env, index, desc, g);
    var low := desc[2] % 0x400;
    var errs := B(r.message.giant || r.message.runt || Refused(env, r.message.(frames := g.frames))
        || !env.link(g.frames).matched);
    BitsApart(errs, B(env.link(g.frames).matched), low);
    LowBits(desc[2]);
  }

  lemma BitsApart(errs: nat, matched: nat, low: nat)
    requires errs < 2 && matched < 2 && low < 0x400
    ensures var w := 0x4000 * errs + 0x2000 * matched + low;
            && w / 0x4000 % 2 == errs && w / 0x2000 % 2 == matched
            && w / 0x200 % 2 == low / 0x200 % 2 && w / 0x100 % 2 == low / 0x100 % 2
  {
    var w := 0x4000 * errs + 0x2000 * matched + low;
    assert w / 0x200 == 0x20 * errs + 0x10 * matched + low / 0x200;
    assert w / 0x100 == 0x40 * errs + 0x20 * matched + low / 0x100;
  }

  lemma LowBits(w: Word)
    ensures (w % 0x400) / 0x200 % 2 == w / 0x200 % 2 && (w % 0x400) / 0x100 % 2 == w / 0x100 % 2
  {
    var a, b := w / 0x400, w % 0x400;
    assert w / 0x200 == 2 * a + b / 0x200;
    assert w / 0x100 == 4 * a + b / 0x100;
  }

  /** For any guest memory and any link, the walk handles at most `budget` entries, each of them the controller's own,
  hands each back, and leaves the index in the ring. */
  lemma {:induction false} WalkDisciplined(env: Env, m: Memory, next: nat, g: Message, budget: nat)
    requires env.ring.entryWords >= 4 && next < env.ring.count && LengthOk(g)
    ensures var r := Walk(env, m, next, g, budget);
            && |r.log| <= budget && r.next < env.ring.count && LengthOk(r.message)
            && forall k :: 0 <= k < |r.log| ==> ReportOk(env, r.log[k])
    decreases budget
  {
    hide NextReport, HandedBack, Advance, ReportOk, Target, DataReads, EntryAnswers;
    TargetIn(env, m, next);
    if budget > 0 && GoesOn(env, m, next, g) {
      var r := NextReport(env, m, next, g);
      ReportsOk(env, m, next, g);
      ReportLength(env, r);
      AdvanceKeeps(env.ring, r.index);
      WalkDisciplined(env, HandedBack(env, m, r), Advance(env.ring, r.index), r.message, budget - 1);
    }
  }

  lemma ReportsOk(env: Env, m: Memory, next: nat, g: Message)
    requires env.ring.entryWords >= 4 && OwnedEntry(env, m, Target(env, m, next), env.ring.entryWords)
    requires Target(env, m, next) < env.ring.count && LengthOk(g)
    ensures ReportOk(env, NextReport(env, m, next, g))
  {
    hide Handle, Target, ReportOk, OwnedEntry, Desc;
    HandleOk(env, Target(env, m, next), Desc(env, m, Target(env, m, next)), g);
  }

  lemma ReportLength(env: Env, r: Report)
    requires ReportOk(env, r)
    ensures LengthOk(r.message)
  {
  }

  /** A walk with work to do never passes over it: it stops short of its limit only where no entry that answers
  is owned, or where the bus times out. */
  lemma {:induction false} WalkStops(env: Env, m: Memory, next: nat, g: Message, budget: nat)
    requires env.ring.entryWords >= 4 && next < env.ring.count
    ensures var r := Walk(env, m, next, g, budget);
            && (r.stop == Limit <==> |r.log| == budget)
            && (r.stop == NothingOwned ==> forall i :: 0 <= i < env.ring.count ==> !OwnedEntry(env, r.mem, i, 4))
    decreases budget
  {
    hide NextReport, HandedBack, Advance, DataReads, EntryAnswers, OwnedEntry;
    TargetIn(env, m, next);
    if budget > 0 && GoesOn(env, m, next, g) {
      var r := NextReport(env, m, next, g);
      AdvanceKeeps(env.ring, r.index);
      WalkStops(env, HandedBack(env, m, r), Advance(env.ring, r.index), r.message, budget - 1);
    } else {
      NotFound(env, m, 0);
      var i := Target(env, m, next);
      if EntryAnswers(m, env.space, EntryAddress(env.ring, i), env.ring.entryWords) {
        OwnedAgree(env, m, i, env.ring.entryWords);
      }
    }
  }

  /** Looking at an entry's first four words or at all of them, its owner is the same. */
  lemma OwnedAgree(env: Env, m: Memory, i: nat, n: nat)
    requires n >= 4 && EntryAnswers(m, env.space, EntryAddress(env.ring, i), n)
    ensures OwnedEntry(env, m, i, n) <==> OwnedEntry(env, m, i, 4)
  {
    var at := EntryAddress(env.ring, i) / 2;
    AllAnswerParts(m, at, n, 4);
    WordsAtIs(m, at, n, 2);
    WordsAtIs(m, at, 4, 2);
  }

  lemma {:induction false} NotFound(env: Env, m: Memory, i: nat)
    ensures FindOwned(env, m, i) >= env.ring.count ==> forall j :: i <= j < env.ring.count ==> !OwnedEntry(env, m, j, 4)
    decreases env.ring.count - i
  {
    hide OwnedEntry;
    if i < env.ring.count { NotFound(env, m, i + 1); }
  }

  // --- memory ---------------------------------------------------------------------------

  /** The bytes of an entry's two status words. */
  predicate InStatus(env: Env, r: Report, a: nat) {
    var start := EntryAddress(env.ring, r.index) / 2 * 2;
    start + 4 <= a < start + 8
  }

  /** Handing an entry back changes its status words and nothing else. */
  lemma HandedBackAt(env: Env, m: Memory, r: Report, a: nat)
    requires env.ring.entryWords >= 4 && OwnedEntry(env, m, r.index, env.ring.entryWords) && ReportOk(env, r)
    requires r.before == Desc(env, m, r.index) && a in m
    ensures var m2 := HandedBack(env, m, r);
            m2.Keys == m.Keys && (!InStatus(env, r, a) ==> m2[a] == m[a])
  {
    hide Unpack, WordsAt, WithBytes;
    var at, n := EntryAddress(env.ring, r.index), env.ring.entryWords;
    var start := at / 2 * 2;
    WrittenAll(m, at, r.after);
    WithBytesAt(m, start, Unpack(r.after), a);
    if start <= a < start + 2 * n && !InStatus(env, r, a) {
      var k := (a - start) / 2;
      BytesOfWord(r.after, k);
      WordsAtIs(m, at / 2, n, k);
      assert a - start == 2 * k || a - start == 2 * k + 1;
    }
  }

  /** Whatever the guest's memory holds, a transmit walk changes only status words of entries it handed back. */
  lemma {:induction false} WalkFrame(env: Env, m: Memory, next: nat, g: Message, budget: nat, a: nat)
    requires env.ring.entryWords >= 4 && next < env.ring.count && LengthOk(g) && a in m
    ensures var r := Walk(env, m, next, g, budget);
            && r.mem.Keys == m.Keys
            && ((forall k :: 0 <= k < |r.log| ==> !InStatus(env, r.log[k], a)) ==> r.mem[a] == m[a])
    decreases budget
  {
    hide NextReport, HandedBack, Advance, ReportOk, Target, DataReads, OwnedEntry, EntryAnswers, InStatus;
    TargetIn(env, m, next);
    if budget > 0 && GoesOn(env, m, next, g) {
      var r := NextReport(env, m, next, g);
      ReportsOk(env, m, next, g);
      ReportLength(env, r);
      HandedBackAt(env, m, r, a);
      AdvanceKeeps(env.ring, r.index);
      var rest := Walk(env, HandedBack(env, m, r), Advance(env.ring, r.index), r.message, budget - 1);
      WalkFrame(env, HandedBack(env, m, r), Advance(env.ring, r.index), r.message, budget - 1, a);
      var log := Walk(env, m, next, g, budget).log;
      assert log[0] == r && forall k :: 0 <= k < |rest.log| ==> log[k + 1] == rest.log[k];
    }
  }

  // --- a host that writes meanwhile ------------------------------------------------------------

  /** The loop finds its entry the host's and jumps to another, which counts as no entry handled. */
  predicate Jumps(env: Env, m: Memory, next: nat, to: nat)
    requires env.ring.entryWords >= 4
  {
    && EntryAnswers(m, env.space, EntryAddress(env.ring, next), env.ring.entryWords)
    && !OwnedEntry(env, m, next, env.ring.entryWords) && FindOwned(env, m, 0) == to < env.ring.count
  }

  /** A ring of two entries at address 0, one of them the controller's. */
  function PairMemory(owned: nat): Memory {
    map a: nat | a < 16 :: PairByte(owned, a)
  }

  function PairByte(owned: nat, a: nat): Byte { if a == 8 * owned + 5 then 0x80 else 0 }

  lemma PairOwned(env: Env, owned: nat, i: nat)
    requires env.ring == Ring(0, 4, 2) && env.space >= 16 && owned < 2 && i < 2
    ensures EntryAnswers(PairMemory(owned), env.space, EntryAddress(env.ring, i), 4)
    ensures OwnedEntry(env, PairMemory(owned), i, 4) <==> i == owned
  {
    hide WordsAt, AllAnswer, PairMemory, WordAt;
    var m, w := PairMemory(owned), 4 * i;
    PairWords(owned, i);
    FourAnswer(m, w);
    WordsAtIs(m, w, 4, 2);
  }

  lemma PairWords(owned: nat, i: nat)
    requires owned < 2 && i < 2
    ensures var m, w := PairMemory(owned), 4 * i;
            && Answers(m, w) && Answers(m, w + 1) && Answers(m, w + 2) && Answers(m, w + 3)
            && WordAt(m, w + 2) == if i == owned then 0x8000 else 0
  {
  }

  lemma FourAnswer(m: Memory, w: nat)
    requires Answers(m, w) && Answers(m, w + 1) && Answers(m, w + 2) && Answers(m, w + 3)
    ensures AllAnswer(m, w, 4)
  {
    assert AllAnswer(m, w + 3, 1) && AllAnswer(m, w + 2, 2) && AllAnswer(m, w + 1, 3);
  }

  /** With a host that takes back the entry found and hands over the other one each time, every turn is a jump, back
  and forth: the loop ends only because memory, unlike here, holds still during a walk. */
  lemma JumpsForever(env: Env, m0: Memory, m1: Memory)
    requires env.ring == Ring(0, 4, 2) && env.space >= 16 && m0 == PairMemory(0) && m1 == PairMemory(1)
    ensures Jumps(env, m1, 0, 1) && Jumps(env, m0, 1, 0)
  {
    hide OwnedEntry, PairMemory, EntryAnswers;
    forall owned: nat | owned < 2 ensures Jumps(env, PairMemory(owned), 1 - owned, owned) {
      PairOwned(env, owned, 0);
      PairOwned(env, owned, 1);
      assert FindOwned(env, PairMemory(owned), 2) == 2;
      assert FindOwned(env, PairMemory(owned), 1) == if owned == 1 then 1 else 2;
    }
  }
}
