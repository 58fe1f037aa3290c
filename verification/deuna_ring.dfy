/** The DEUNA's descriptor rings and the port commands that set them up. */
module DeunaRing {
  import opened GuestMemory

  /** A ring: where it starts, the length of an entry in words, and how many entries it has. */
  datatype Ring = Ring(base: nat, entryWords: nat, count: nat)

  const NO_RING := Ring(0, 0, 0)

  function EntryAddress(r: Ring, i: nat): nat { r.base + 2 * r.entryWords * i }

  /** The entry after `i`, round the ring. */
  function Advance(r: Ring, i: nat): nat { if i + 1 >= r.count then 0 else i + 1 }

  /** The ownership bit in an entry's third word. */
  predicate Owned(w: Word) { w >= 0x8000 }

  predicate InRange(space: nat, addr: nat, n: nat) { addr < space && addr + n <= space }

  predicate EntryAnswers(m: Memory, space: nat, addr: nat, n: nat) {
    InRange(space, addr, 2 * n) && ReadOk(m, addr, n)
  }

  /** The 18-bit address in an entry's words 1 and 2. */
  function SegmentAddress(hi: Word, lo: Word): nat { hi % 4 * 0x1_0000 + lo }

  // --- port commands -----------------------------------------------------------------

  datatype PortState = Ready | Running | Halted

  datatype Port = Port(state: PortState, tx: Ring, rx: Ring, txNext: nat, rxNext: nat)

  function ResetPort(): Port { Port(Ready, NO_RING, NO_RING, 0, 0) }

  /** What the ring format function reads out of its six-word block, if it accepts it. */
  predicate FormatAccepted(p: Port, udb: seq<Word>)
    requires |udb| == 6
  {
    && p.state != Running
    && udb[0] % 2 == 0 && udb[1] / 4 % 64 == 0 && udb[3] % 2 == 0 && udb[4] / 4 % 64 == 0 && udb[5] >= 2
  }

  function RingBase(hi: Word, lo: Word): nat { SegmentAddress(hi, lo) - lo % 2 }

  function WriteRingFormat(p: Port, udb: seq<Word>): Port
    requires |udb| == 6
  {
    if FormatAccepted(p, udb) then
      p.(tx := Ring(RingBase(udb[1], udb[0]), udb[1] / 0x100, udb[2]),
         rx := Ring(RingBase(udb[4], udb[3]), udb[4] / 0x100, udb[5]), txNext := 0, rxNext := 0)
    else p
  }

  /** The port commands that change the port's state, and the reset. */
  datatype Command = Start | Stop | Halt | SelfTest | ResetAll

  function Execute(p: Port, c: Command): Port {
    match c
    case Start => if p.state == Ready then p.(state := Running, txNext := 0, rxNext := 0) else p
    case Stop => if p.state == Running then p.(state := Ready) else p
    case Halt => if p.state == Ready || p.state == Running then p.(state := Halted) else p
    case SelfTest => p.(state := Ready)
    case ResetAll => ResetPort()
  }

  /** An index lies in its ring; an empty ring has no entries to index. */
  predicate IndexOk(r: Ring, i: nat) { i < r.count || (r.count == 0 && i == 0) }

  /** Bases are even 18-bit addresses, entries at most 255 words, and both indices lie in their rings. */
  predicate PortOk(p: Port) {
    && IndexOk(p.tx, p.txNext) && IndexOk(p.rx, p.rxNext)
    && p.tx.base % 2 == 0 && p.rx.base % 2 == 0 && p.tx.base < 0x4_0000 && p.rx.base < 0x4_0000
    && p.tx.entryWords < 0x100 && p.rx.entryWords < 0x100
    && p.tx.count < 0x1_0000 && p.rx.count < 0x1_0000 && p.rx.count != 1
  }

  /** Commands keep the rings in shape, and while the port stays running they never change. */
  lemma CommandKeeps(p: Port, c: Command)
    requires PortOk(p)
    ensures var q := Execute(p, c);
            && PortOk(q)
            && (p.state == Running && q.state == Running ==> q.tx == p.tx && q.rx == p.rx)
            && (p.state != Running && q.state == Running ==> c == Start && q.txNext == 0 && q.rxNext == 0)
  {
  }

  /** The ring format function changes the rings of a port that is not running, and nothing at all otherwise. */
  lemma FormatKeeps(p: Port, udb: seq<Word>)
    requires PortOk(p) && |udb| == 6
    ensures var r := WriteRingFormat(p, udb);
            && PortOk(r) && r.state == p.state && (!FormatAccepted(p, udb) ==> r == p)
            && (FormatAccepted(p, udb) ==> p.state != Running && r.txNext == r.rxNext == 0)
  {
  }

  lemma AdvanceKeeps(r: Ring, i: nat)
    requires i < r.count
    ensures Advance(r, i) < r.count && Advance(r, i) == (i + 1) % r.count
  {
    if i + 1 < r.count { SmallMod(i + 1, r.count); }
  }

  lemma SmallMod(x: nat, n: nat)
    requires x < n
    ensures x % n == x
  {
  }

  /** An entry of a ring the host may set up lies below the end of a 32-bit address. */
  lemma EntryFits(r: Ring, i: nat)
    requires r.base < 0x4_0000 && r.entryWords < 0x100 && i < r.count < 0x1_0000
    ensures EntryAddress(r, i) + 2 * r.entryWords < 0x1_0000_0000
  {
    Product(2 * r.entryWords, 0x1FE, i);
  }

  lemma Product(a: nat, b: nat, i: nat)
    requires a <= b && i < 0x1_0000
    ensures a * i <= b * 0x1_0000
  {
    Grow(a, b, i);
    Grow(i, 0x1_0000, b);
  }

  lemma Grow(a: nat, b: nat, i: nat)
    requires a <= b
    ensures a * i <= b * i
  {
  }
}
