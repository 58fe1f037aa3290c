/** What the DEUNA's commands, arrivals and modes come to for a host, spelt out in the words and bits it sees. */
module DeunaEffects {
  import opened GuestMemory
  import opened ByteDma
  import opened DeunaRing
  import opened DeunaCommand
  import opened DeunaController
  import R = DeunaReceive
  import T = DeunaTransmit

  // --- frames -------------------------------------------------------------------

  /** A frame of these bytes as it is staged: cut to 1514 bytes, followed by zeros up to 60, and by four zeros where the
  check characters go. */
  predicate Framed(data: seq<Byte>, frame: seq<Byte>) {
    var n := if |data| > 1514 then 1514 else |data|;
    && |frame| == (if n < 60 then 60 else n) + 4 && frame[..n] == data[..n]
    && forall k :: n <= k < |frame| ==> frame[k] == 0
  }

  lemma StageFrames(data: seq<Byte>, loopback: bool)
    ensures var i := R.Stage(data, loopback); Framed(data, i.bytes) && i.used == 0 && i.loopback == loopback
  {
  }

  /** What the queue holds after an arrival: the frames before, the oldest of 500 lost, and the new one. */
  lemma ArrivalQueues(n: Nic, data: seq<Byte>, loopback: bool)
    requires NicOk(n) && data != []
    ensures var r, k := Arrived(n, data, loopback), if |n.queue| == 500 then 1 else 0;
            && |r.queue| == |n.queue| + 1 - k && r.queue[..|r.queue| - 1] == n.queue[k..]
            && Framed(data, r.queue[|r.queue| - 1].bytes) && r.queue[|r.queue| - 1].used == 0
            && r.queue[|r.queue| - 1].loopback == loopback
            && r.lost == n.lost + k && (r.bits.rcbi <==> n.bits.rcbi || k == 1)
            && r == n.(queue := r.queue, lost := r.lost, bits := n.bits.(rcbi := r.bits.rcbi))
  {
    hide Framed, R.Stage;
    StageFrames(data, loopback);
    var q := n.queue + [R.Stage(data, loopback)];
    if n.queue != [] { assert q[1..] == n.queue[1..] + [R.Stage(data, loopback)]; }
    assert n.queue[0..] == n.queue;
  }

  /** An entry whose buffer has no byte, or gets none, needs no memory behind its address. */
  lemma EmptySegmentFits(m: Memory, space: nat, addr: nat)
    ensures R.BufferAnswers(m, space, addr, 0)
  {
  }

  /** Which bits of the mode word the walks go by: 13 turns data chaining off, 12 allows padding, 2 and 7 together
  loop. */
  lemma ModeBits(u: Setup, n: Nic)
    ensures RxEnv(u, n).unchained <==> n.mode % 0x4000 >= 0x2000
    ensures TxEnv(u, n).pads <==> n.mode % 0x2000 >= 0x1000
    ensures TxEnv(u, n).loops <==> n.mode % 8 >= 4 && n.mode % 0x100 >= 0x80
    ensures RxEnv(u, n).ring == n.port.rx && TxEnv(u, n).ring == n.port.tx
    ensures RxEnv(u, n).space == TxEnv(u, n).space == u.space
  {
    hide Unchained, Pads, Loops;
    UnchainedBit(n.mode);
    PadsBit(n.mode);
    LoopsBits(n.mode);
  }

  lemma UnchainedBit(mode: Word)
    ensures Unchained(mode) <==> mode % 0x4000 >= 0x2000
  {
  }

  lemma PadsBit(mode: Word)
    ensures Pads(mode) <==> mode % 0x2000 >= 0x1000
  {
  }

  lemma LoopsBits(mode: Word)
    ensures Loops(mode) <==> mode % 8 >= 4 && mode % 0x100 >= 0x80
  {
    BitTwo(mode);
    BitSeven(mode);
  }

  lemma BitTwo(mode: nat)
    ensures mode / 4 % 2 == 1 <==> mode % 8 >= 4
  {
    var q, r := mode / 8, mode % 8;
    assert mode / 4 == 2 * q + r / 4;
  }

  lemma BitSeven(mode: nat)
    ensures mode / 0x80 % 2 == 1 <==> mode % 0x100 >= 0x80
  {
    var q, r := mode / 0x100, mode % 0x100;
    assert mode / 0x80 == 2 * q + r / 0x80;
  }

  // --- commands --------------------------------------------------------------------

  /** An 18-bit address in two words. */
  function Base18(hi: nat, lo: nat): nat { hi % 4 * 0x1_0000 + lo }

  /** The rings an accepted format block sets up: base, entry length and entry count, transmit first. */
  lemma RingsSetUp(p: Port, udb: seq<Word>)
    requires |udb| == 6 && FormatAccepted(p, udb)
    ensures var r := WriteRingFormat(p, udb);
            && r.tx == Ring(Base18(udb[1], udb[0]), udb[1] / 0x100, udb[2])
            && r.rx == Ring(Base18(udb[4], udb[3]), udb[4] / 0x100, udb[5])
            && r.state == p.state && r.txNext == r.rxNext == 0
  {
  }

  /** Exactly which blocks are accepted: on a port that is not running, with even 18-bit bases and two receive
  entries. */
  lemma AcceptedExactly(p: Port, udb: seq<Word>)
    requires |udb| == 6
    ensures FormatAccepted(p, udb) <==>
              && p.state != Running && udb[5] > 1
              && udb[0] % 2 == 0 && udb[3] % 2 == 0 && udb[1] % 0x100 < 4 && udb[4] % 0x100 < 4
  {
  }

  /** A start of a ready port: it runs, both indices at zero, and every receive entry of three words or more that
  answers is the controller's; in any other state it changes nothing but the answer. */
  lemma StartEffect(u: Setup, n: Nic, j: nat)
    requires NicOk(n) && j < n.port.rx.count && n.port.rx.entryWords >= 3
    requires EntryAnswers(n.mem, u.space, EntryAddress(n.port.rx, j), n.port.rx.entryWords)
    ensures var r, at, words := Step(u, n, Perform(Change(Start))), EntryAddress(n.port.rx, j), n.port.rx.entryWords;
            if n.port.state == Ready then
              && r.port == n.port.(state := Running, txNext := 0, rxNext := 0)
              && EntryAnswers(r.mem, u.space, at, words) && Owned(WordsAt(r.mem, at / 2, words)[2])
            else r == n.(bits := n.bits.(pcei := true))
  {
    hide AllArmed, EntryAddress, EntryAnswers, WordsAt;
    StartOwns(n.mem, u.space, n.port.rx, j);
  }

  /** A reset leaves no ring, no frame, no mode and no bit but DNI; guest memory and the transmit buffer stay. */
  lemma ResetEffect(u: Setup, n: Nic)
    requires NicOk(n)
    ensures Step(u, n, Perform(Change(ResetAll)))
         == Nic(Port.Port(Ready, Ring(0, 0, 0), Ring(0, 0, 0), 0, 0), n.mem, [], 0, n.message,
                Bits(false, false, false, false, true, false), 0, 0)
  {
  }

  /** Stop, halt and self-test change the state, where they apply; guest memory stays under all of them. */
  lemma StateEffect(u: Setup, n: Nic, c: Command)
    requires NicOk(n) && c != Start && c != ResetAll
    ensures var r := Step(u, n, Perform(Change(c)));
            && r.mem == n.mem && r.port == n.port.(state := r.port.state)
            && r.port.state == (match c
                 case Stop => if n.port.state == Running then Ready else n.port.state
                 case Halt => Halted
                 case _ => Ready)
  {
  }

  /** The address of the command block, in two register values; the boot image goes to an even one. */
  lemma AddressEffect(u: Setup, n: Nic, hi: nat, lo: Word, rom: seq<Byte>)
    requires NicOk(n)
    ensures Step(u, n, Perform(Locate(hi, lo))) == n.(pcbb := hi * 0x1_0000 + lo, bits := n.bits.(dni := true))
    ensures var r, at := Step(u, n, Perform(Boot(hi, lo, rom))), hi * 0x1_0000 + (lo - lo % 2);
            var done := at != 0 && rom != [] && at + |rom| <= u.space && BytesAnswer(n.mem, at, |rom|);
            && (done ==> r == n.(mem := WithBytes(n.mem, at, rom), bits := n.bits.(dni := true)))
            && (!done ==> r == n.(mem := r.mem, bits := n.bits.(pcei := true)))
  {
    hide BootDone, Booted, WithBytes, BytesAnswer;
    var at := hi * 0x1_0000 + (lo - lo % 2);
    EvenAt(hi, lo);
    if at != 0 && rom != [] { BootLoads(n.mem, u.space, at, rom); }
  }

  lemma EvenAt(hi: nat, lo: Word)
    ensures BootAddress(hi, lo) == hi * 0x1_0000 + (lo - lo % 2) && BootAddress(hi, lo) % 2 == 0
  {
  }

  /** The host clears exactly the bits it acknowledges. */
  lemma AcknowledgeEffect(u: Setup, n: Nic, acked: Bits)
    requires NicOk(n)
    ensures var r := Step(u, n, Acknowledge(acked));
            && r == n.(bits := r.bits)
            && (r.bits.seri <==> n.bits.seri && !acked.seri) && (r.bits.pcei <==> n.bits.pcei && !acked.pcei)
            && (r.bits.rxi <==> n.bits.rxi && !acked.rxi) && (r.bits.txi <==> n.bits.txi && !acked.txi)
            && (r.bits.dni <==> n.bits.dni && !acked.dni) && (r.bits.rcbi <==> n.bits.rcbi && !acked.rcbi)
  {
  }
}
