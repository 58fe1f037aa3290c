/** The DEUNA's command block: the functions that read and write ring format and mode, the ownership a start
hands out, and the boot image. */
module DeunaCommand {
  import opened GuestMemory
  import opened ByteDma
  import opened DeunaRing
  import WordArithmetic

  // --- modes -------------------------------------------------------------------

  /** No data chaining, transmit padding, internal loopback. */
  predicate Unchained(mode: Word) { mode / 0x2000 % 2 == 1 }
  predicate Pads(mode: Word) { mode / 0x1000 % 2 == 1 }
  predicate Loops(mode: Word) { mode / 4 % 2 == 1 && mode / 0x80 % 2 == 1 }

  // --- the ring format -------------------------------------------------------------

  /** The block the read function answers with. */
  function ReadRingFormat(p: Port): (udb: seq<Word>)
    requires PortOk(p)
    ensures |udb| == 6
  {
    [p.tx.base % 0x1_0000, 0x100 * p.tx.entryWords + p.tx.base / 0x1_0000 % 4, p.tx.count,
     p.rx.base % 0x1_0000, 0x100 * p.rx.entryWords + p.rx.base / 0x1_0000 % 4, p.rx.count]
  }

  /** What a host reads after its block was accepted is its block. */
  lemma FormatReadsBack(p: Port, udb: seq<Word>)
    requires PortOk(p) && |udb| == 6 && FormatAccepted(p, udb)
    ensures PortOk(WriteRingFormat(p, udb)) && ReadRingFormat(WriteRingFormat(p, udb)) == udb
  {
    FormatKeeps(p, udb);
    BaseParts(udb[1], udb[0]);
    BaseParts(udb[4], udb[3]);
  }

  lemma BaseParts(hi: Word, lo: Word)
    requires lo % 2 == 0 && hi / 4 % 64 == 0
    ensures RingBase(hi, lo) % 0x1_0000 == lo && RingBase(hi, lo) / 0x1_0000 % 4 == hi % 4
    ensures 0x100 * (hi / 0x100) + hi % 4 == hi
  {
  }

  /** A stopped port takes back the block it gave, and has the same rings. */
  lemma FormatWritesBack(p: Port)
    requires PortOk(p) && p.state != Running && p.rx.count >= 2
    ensures var udb := ReadRingFormat(p);
            FormatAccepted(p, udb) && WriteRingFormat(p, udb).tx == p.tx && WriteRingFormat(p, udb).rx == p.rx
  {
    WordParts(p.tx.base, p.tx.entryWords);
    WordParts(p.rx.base, p.rx.entryWords);
  }

  lemma WordParts(base: nat, entryWords: nat)
    requires base < 0x4_0000 && base % 2 == 0 && entryWords < 0x100
    ensures var hi: Word, lo: Word := 0x100 * entryWords + base / 0x1_0000 % 4, base % 0x1_0000;
            lo % 2 == 0 && hi / 4 % 64 == 0 && RingBase(hi, lo) == base && hi / 0x100 == entryWords
  {
  }

  // --- the command block -----------------------------------------------------------

  /** What the functions that are not modelled come to: done or refused, and guest memory after. */
  datatype Aside = Aside(done: bool, mem: Memory)

  datatype Reply = Reply(port: Port, mode: Word, mem: Memory, ok: bool)

  const NOTHING := 0
  const READ_RINGS := 8
  const WRITE_RINGS := 9
  const READ_MODE := 12
  const WRITE_MODE := 13

  predicate NotModelled(code: Word) {
    code in {1, 2, 4, 5, 6, 7, 10, 11, 14, 15, 16, 17, 18, 19, 20, 21}
  }

  /** The block's words 1 and 2 hold an even 18-bit address. */
  predicate Addressed(pcb: seq<Word>)
    requires |pcb| == 4
  {
    pcb[1] % 2 == 0 && pcb[2] / 4 % 64 == 0
  }

  function BlockAddress(pcb: seq<Word>): nat
    requires |pcb| == 4
  {
    SegmentAddress(pcb[2], pcb[1])
  }

  /** A range-checked word write. */
  function Stored(m: Memory, space: nat, addr: nat, ws: seq<Word>): Memory {
    if InRange(space, addr, 2 * |ws|) then Written(m, addr, ws) else m
  }

  function Perform(space: nat, p: Port, mode: Word, m: Memory, pcbb: nat, pcb: seq<Word>, aside: Aside): Reply
    requires |pcb| == 4 && PortOk(p)
  {
    var refused := Reply(p, mode, m, false);
    var code := pcb[0];
    if code == NOTHING then Reply(p, mode, m, true)
    else if code == READ_RINGS then
      if !Addressed(pcb) then refused
      else
        var udb, at := ReadRingFormat(p), BlockAddress(pcb);
        Reply(p, mode, Stored(m, space, at, udb), EntryAnswers(m, space, at, 6))
    else if code == WRITE_RINGS then
      if !Addressed(pcb) || p.state == Running || !EntryAnswers(m, space, BlockAddress(pcb), 6) then refused
      else
        var udb := WordsAt(m, BlockAddress(pcb) / 2, 6);
        Reply(WriteRingFormat(p, udb), mode, m, FormatAccepted(p, udb))
    else if code == READ_MODE then
      Reply(p, mode, Stored(m, space, pcbb + 2, [mode]), EntryAnswers(m, space, pcbb + 2, 1))
    else if code == WRITE_MODE then Reply(p, pcb[1], m, true)
    else if NotModelled(code) then Reply(p, mode, aside.mem, aside.done)
    else refused
  }

  /** `execute_command`, on the block at `pcbb`. */
  function Obey(space: nat, p: Port, mode: Word, m: Memory, pcbb: nat, aside: Aside): Reply
    requires PortOk(p)
  {
    if !EntryAnswers(m, space, pcbb, 4) then Reply(p, mode, m, false)
    else
      var pcb := WordsAt(m, pcbb / 2, 4);
      if pcb[0] >= 0x100 then Reply(p, mode, m, false) else Perform(space, p, mode, m, pcbb, pcb, aside)
  }

  /** A command block moves no ring of a running port; it changes rings only when it is done, and the mode only by
  its own function. */
  lemma ObeyKeeps(space: nat, p: Port, mode: Word, m: Memory, pcbb: nat, aside: Aside)
    requires PortOk(p)
    ensures var r := Obey(space, p, mode, m, pcbb, aside);
            && PortOk(r.port) && r.port.state == p.state
            && (r.port != p ==> r.ok && p.state != Running && r.port.txNext == r.port.rxNext == 0)
            && (!r.ok ==> r.port == p && r.mode == mode)
  {
    hide WordsAt, AllAnswer, FormatAccepted, WriteRingFormat, Written, ReadRingFormat, NotModelled, PortOk;
    if EntryAnswers(m, space, pcbb, 4) {
      var pcb := WordsAt(m, pcbb / 2, 4);
      if pcb[0] == WRITE_RINGS && EntryAnswers(m, space, BlockAddress(pcb), 6) {
        FormatKeeps(p, WordsAt(m, BlockAddress(pcb) / 2, 6));
      }
    }
  }

  /** The words at an address a host and the controller agree on. */
  predicate Has(m: Memory, space: nat, at: nat, ws: seq<Word>) {
    EntryAnswers(m, space, at, |ws|) && WordsAt(m, at / 2, |ws|) == ws
  }

  /** The mode in force is found where the mode function takes its parameter from. */
  lemma ModeReadBack(space: nat, p: Port, mode: Word, m: Memory, pcbb: nat, pcb: seq<Word>, aside: Aside)
    requires PortOk(p) && |pcb| == 4 && pcb[0] == READ_MODE
    ensures var r := Perform(space, p, mode, m, pcbb, pcb, aside);
            && r.port == p && r.mode == mode && (r.ok <==> EntryAnswers(m, space, pcbb + 2, 1))
            && (r.ok ==> Has(r.mem, space, pcbb + 2, [mode]))
  {
    hide WordsAt, Written, PortOk, AllAnswer, ReadRingFormat, WriteRingFormat;
    if EntryAnswers(m, space, pcbb + 2, 1) { WordsStored(m, pcbb + 2, [mode]); }
  }

  /** The ring format a host asks for is in its block afterwards. */
  lemma RingsReadBack(space: nat, p: Port, mode: Word, m: Memory, pcbb: nat, pcb: seq<Word>, aside: Aside)
    requires PortOk(p) && |pcb| == 4 && pcb[0] == READ_RINGS && Addressed(pcb)
    ensures var r, udb, at := Perform(space, p, mode, m, pcbb, pcb, aside), ReadRingFormat(p), BlockAddress(pcb);
            && r.port == p && r.mode == mode && (r.ok <==> EntryAnswers(m, space, at, |udb|))
            && (r.ok ==> Has(r.mem, space, at, udb))
  {
    hide WordsAt, Written, PortOk, AllAnswer, ReadRingFormat, WriteRingFormat, SegmentAddress;
    if EntryAnswers(m, space, BlockAddress(pcb), 6) { WordsStored(m, BlockAddress(pcb), ReadRingFormat(p)); }
  }

  predicate Formatted(p: Port, udb: seq<Word>) { PortOk(p) && ReadRingFormat(p) == udb }

  /** The ring format a host writes is the one it reads back. */
  lemma RingsWritten(space: nat, p: Port, mode: Word, m: Memory, pcbb: nat, pcb: seq<Word>, aside: Aside,
                     udb: seq<Word>)
    requires PortOk(p) && |pcb| == 4 && pcb[0] == WRITE_RINGS
    requires |udb| == 6 && Has(m, space, BlockAddress(pcb), udb)
    ensures var r := Perform(space, p, mode, m, pcbb, pcb, aside);
            && (r.ok <==> Addressed(pcb) && FormatAccepted(p, udb)) && (!r.ok ==> r == Reply(p, mode, m, false))
            && (r.ok ==> r.mode == mode && r.mem == m && Formatted(r.port, udb))
  {
    hide WordsAt, PortOk, AllAnswer, ReadRingFormat, SegmentAddress;
    if FormatAccepted(p, udb) { FormatReadsBack(p, udb); }
  }

  lemma {:induction false} BytesOf(ws: seq<Word>, k: nat)
    requires k < |ws|
    ensures Unpack(ws)[2 * k] == Low(ws[k]) && Unpack(ws)[2 * k + 1] == High(ws[k])
  {
    hide High, Low;
    var rest := Unpack(ws[1..]);
    assert Unpack(ws) == [Low(ws[0]), High(ws[0])] + rest;
    if k > 0 {
      BytesOf(ws[1..], k - 1);
      assert Unpack(ws)[2 * k] == rest[2 * (k - 1)] && Unpack(ws)[2 * k + 1] == rest[2 * (k - 1) + 1];
    }
  }

  lemma WordsOfBytes(x: seq<Word>, y: seq<Word>)
    requires |x| == |y| && Unpack(x) == Unpack(y)
    ensures x == y
  {
    hide Unpack;
    forall k | 0 <= k < |x| ensures x[k] == y[k] {
      BytesOf(x, k);
      BytesOf(y, k);
      assert x[k] == Pack(Low(x[k]), High(x[k])) == Pack(Low(y[k]), High(y[k]));
    }
  }

  /** Words written are the words read back. */
  lemma WordsStored(m: Memory, addr: nat, ws: seq<Word>)
    requires ReadOk(m, addr, |ws|)
    ensures ReadOk(Written(m, addr, ws), addr, |ws|) && WordsAt(Written(m, addr, ws), addr / 2, |ws|) == ws
  {
    hide Unpack, WithBytes, WordsAt;
    var r := Written(m, addr, ws);
    WrittenAll(m, addr, ws);
    AnswersSame(m, r, addr / 2, |ws|);
    WordsHold(m, addr / 2, |ws|);
    ReadBack(m, addr / 2 * 2, Unpack(ws));
    WordsHold(r, addr / 2, |ws|);
    WordsOfBytes(WordsAt(r, addr / 2, |ws|), ws);
  }

  /** Which command blocks are refused outright, with nothing changed: those that do not answer, have anything in the
  upper byte of the function word, or name no function; and for the ring format those without an even 18-bit address. */
  lemma BlockRefused(space: nat, p: Port, mode: Word, m: Memory, pcbb: nat, pcb: seq<Word>, aside: Aside)
    requires PortOk(p) && |pcb| == 4
    ensures !EntryAnswers(m, space, pcbb, 4) ==> Obey(space, p, mode, m, pcbb, aside) == Reply(p, mode, m, false)
    ensures EntryAnswers(m, space, pcbb, 4) && WordsAt(m, pcbb / 2, 4) == pcb && pcb[0] >= 0x100 ==>
              Obey(space, p, mode, m, pcbb, aside) == Reply(p, mode, m, false)
    ensures EntryAnswers(m, space, pcbb, 4) && WordsAt(m, pcbb / 2, 4) == pcb && pcb[0] < 0x100 ==>
              Obey(space, p, mode, m, pcbb, aside) == Perform(space, p, mode, m, pcbb, pcb, aside)
    ensures pcb[0] == 3 || pcb[0] > 21 ==>
              Perform(space, p, mode, m, pcbb, pcb, aside) == Reply(p, mode, m, false)
    ensures (pcb[0] == 8 || pcb[0] == 9) && (pcb[1] % 2 == 1 || pcb[2] % 0x100 >= 4) ==>
              Perform(space, p, mode, m, pcbb, pcb, aside) == Reply(p, mode, m, false)
    ensures pcb[0] == 0 ==> Perform(space, p, mode, m, pcbb, pcb, aside) == Reply(p, mode, m, true)
    ensures pcb[0] == 13 ==> Perform(space, p, mode, m, pcbb, pcb, aside) == Reply(p, pcb[1], m, true)
    ensures pcb[0] in {1, 2, 4, 5, 6, 7, 10, 11, 14, 15, 16, 17, 18, 19, 20, 21} ==>
              Perform(space, p, mode, m, pcbb, pcb, aside) == Reply(p, mode, aside.mem, aside.done)
  {
    hide EntryAnswers, WordsAt, PortOk, FormatAccepted, WriteRingFormat, ReadRingFormat, Stored, SegmentAddress;
    AddressedBits(pcb);
  }

  lemma AddressedBits(pcb: seq<Word>)
    requires |pcb| == 4
    ensures Addressed(pcb) <==> pcb[1] % 2 == 0 && pcb[2] % 0x100 < 4
  {
  }

  // --- ownership at the start ----------------------------------------------------------

  function Taken(w: Word): Word { if Owned(w) then w else w + 0x8000 }

  function TakenHigh(b: Byte): Byte { if b >= 0x80 then b else b + 0x80 }

  /** One receive entry, if it answers, is the controller's. */
  function Armed(m: Memory, space: nat, r: Ring, i: nat): Memory
    requires r.entryWords >= 3
  {
    var at := EntryAddress(r, i);
    if !EntryAnswers(m, space, at, r.entryWords) then m
    else
      var desc := WordsAt(m, at / 2, r.entryWords);
      Written(m, at, desc[2 := Taken(desc[2])])
  }

  function AllArmed(m: Memory, space: nat, r: Ring, i: nat): Memory
    requires r.entryWords >= 3
    decreases r.count - i
  {
    if i >= r.count then m else AllArmed(Armed(m, space, r, i), space, r, i + 1)
  }

  predicate ArmedByte(m: Memory, space: nat, r: Ring, i: nat, a: nat) {
    exists j :: i <= j < r.count
      && EntryAnswers(m, space, EntryAddress(r, j), r.entryWords) && a == EntryAddress(r, j) + 5
  }

  lemma TakenHighByte(w: Word)
    ensures Taken(w) == Pack(Low(w), TakenHigh(High(w)))
  {
  }

  lemma ArmedAt(m: Memory, space: nat, r: Ring, i: nat, a: nat)
    requires r.entryWords >= 3 && r.base % 2 == 0 && a in m
    ensures var m1, at := Armed(m, space, r, i), EntryAddress(r, i);
            && m1.Keys == m.Keys
            && m1[a] == if EntryAnswers(m, space, at, r.entryWords) && a == at + 5 then TakenHigh(m[a]) else m[a]
  {
    hide Unpack, WordsAt, Taken, TakenHigh, WithBytes;
    var at, n := EntryAddress(r, i), r.entryWords;
    EvenAddress(r, i);
    if EntryAnswers(m, space, at, n) {
      var desc := WordsAt(m, at / 2, n);
      var bytes := BytesOfWindow(m, at, n);
      TakenHighByte(desc[2]);
      UnpackUpdate(desc, 5, TakenHigh(High(desc[2])));
      BytesOf(desc, 2);
      WrittenAll(m, at, desc[2 := Taken(desc[2])]);
      WithBytesAt(m, at, Unpack(desc)[5 := TakenHigh(High(desc[2]))], a);
    }
  }

  lemma EvenAddress(r: Ring, i: nat)
    requires r.base % 2 == 0
    ensures EntryAddress(r, i) % 2 == 0 && EntryAddress(r, i) / 2 * 2 == EntryAddress(r, i)
  {
    WordArithmetic.DivModParts(EntryAddress(r, i), 2);
    assert EntryAddress(r, i) == 2 * (r.base / 2 + r.entryWords * i) by { Halves(r.base / 2, r.entryWords, i); }
  }

  lemma Halves(half: nat, n: nat, i: nat)
    ensures 2 * half + 2 * n * i == 2 * (half + n * i)
  {
  }

  /** Memory after a start, byte by byte: the top bit of word 2 of every receive entry that answers is set, and
  nothing else changes. */
  lemma {:induction false} AllArmedAt(m: Memory, space: nat, r: Ring, i: nat, a: nat)
    requires r.entryWords >= 3 && r.base % 2 == 0 && a in m
    ensures var m1 := AllArmed(m, space, r, i);
            m1.Keys == m.Keys && m1[a] == if ArmedByte(m, space, r, i, a) then TakenHigh(m[a]) else m[a]
    decreases r.count - i
  {
    hide Armed, EntryAddress, AllAnswer;
    if i < r.count {
      var m1 := Armed(m, space, r, i);
      ArmedAt(m, space, r, i, a);
      AllArmedAt(m1, space, r, i + 1, a);
      forall j: nat
        ensures EntryAnswers(m1, space, EntryAddress(r, j), r.entryWords)
             == EntryAnswers(m, space, EntryAddress(r, j), r.entryWords)
      {
        AnswersSame(m, m1, EntryAddress(r, j) / 2, r.entryWords);
      }
      assert ArmedByte(m, space, r, i, a) <==>
             ArmedByte(m, space, r, i + 1, a)
             || (EntryAnswers(m, space, EntryAddress(r, i), r.entryWords) && a == EntryAddress(r, i) + 5);
    }
  }

  /** So every entry that answers is the controller's when it starts. */
  lemma StartOwns(m: Memory, space: nat, r: Ring, j: nat)
    requires r.entryWords >= 3 && r.base % 2 == 0 && j < r.count
    requires EntryAnswers(m, space, EntryAddress(r, j), r.entryWords)
    ensures var m1, at := AllArmed(m, space, r, 0), EntryAddress(r, j);
            EntryAnswers(m1, space, at, r.entryWords) && Owned(WordsAt(m1, at / 2, r.entryWords)[2])
  {
    hide AllArmed, EntryAddress, Armed, TakenHigh;
    var m1, at, n := AllArmed(m, space, r, 0), EntryAddress(r, j), r.entryWords;
    EvenAddress(r, j);
    WordsHold(m, at / 2, n);
    AllArmedAt(m, space, r, 0, at + 5);
    assert ArmedByte(m, space, r, 0, at + 5);
    AnswersSame(m, m1, at / 2, n);
    var bytes := BytesOfWindow(m1, at, n);
    BytesOf(WordsAt(m1, at / 2, n), 2);
    HighMakesOwned(WordsAt(m1, at / 2, n)[2], m[at + 5]);
  }

  lemma HighMakesOwned(w: Word, b: Byte)
    requires High(w) == TakenHigh(b)
    ensures Owned(w)
  {
  }

  // --- the boot image --------------------------------------------------------------------

  const CHUNK := 512

  /** The image is written in pieces, up to the first that fails. */
  function Booted(m: Memory, space: nat, addr: nat, rom: seq<Byte>): Memory
    decreases |rom|
  {
    if rom == [] then m
    else
      var n := if |rom| > CHUNK then CHUNK else |rom|;
      var m1 := WindowWritten(m, space, addr, rom[..n]);
      if addr + n <= space && BytesAnswer(m, addr, n) then Booted(m1, space, addr + n, rom[n..]) else m1
  }

  /** A transfer in two pieces, the first of whole words, answers if both do. */
  lemma AnswerParts(m: Memory, addr: nat, n: nat, k: nat)
    requires addr % 2 == 0 && k % 2 == 0 && k <= n
    ensures BytesAnswer(m, addr, n) <==> BytesAnswer(m, addr, k) && BytesAnswer(m, addr + k, n - k)
  {
    assert Span(addr, k) == k / 2 && Span(addr, n) == (n + 1) / 2 && Span(addr + k, n - k) == (n - k + 1) / 2;
    assert (addr + k) / 2 == addr / 2 + k / 2;
    AllAnswerParts(m, addr / 2, Span(addr, n), k / 2);
  }

  /** Every piece arrived. */
  predicate BootDone(m: Memory, space: nat, addr: nat, rom: seq<Byte>)
    decreases |rom|
  {
    rom == []
    || (var n := if |rom| > CHUNK then CHUNK else |rom|;
        && addr + n <= space && BytesAnswer(m, addr, n)
        && BootDone(WindowWritten(m, space, addr, rom[..n]), space, addr + n, rom[n..]))
  }

  /** The image arrives if all of its words answer, and then as one write of it would have it; otherwise it is
  reported as failed. */
  lemma {:induction false} BootLoads(m: Memory, space: nat, addr: nat, rom: seq<Byte>)
    requires addr % 2 == 0 && rom != []
    ensures BootDone(m, space, addr, rom) <==> addr + |rom| <= space && BytesAnswer(m, addr, |rom|)
    ensures BootDone(m, space, addr, rom) ==> Booted(m, space, addr, rom) == WithBytes(m, addr, rom)
    decreases |rom|
  {
    hide WithBytes, WindowWritten, BytesAnswer;
    var n := if |rom| > CHUNK then CHUNK else |rom|;
    var m1 := WindowWritten(m, space, addr, rom[..n]);
    assert rom[..n] + rom[n..] == rom;
    if n < |rom| { AnswerParts(m, addr, |rom|, n); }
    if addr + n <= space && BytesAnswer(m, addr, n) {
      WritersAgree(m, space, addr, rom[..n]);
      WithBytesJoin(m, addr, rom[..n], rom[n..]);
      if n < |rom| {
        StillAnswer(m, m1, addr + n, |rom| - n);
        BootLoads(m1, space, addr + n, rom[n..]);
      } else {
        assert rom[n..] == [] && rom[..n] == rom;
      }
    }
  }

  lemma StillAnswer(m: Memory, m1: Memory, addr: nat, n: nat)
    requires m.Keys == m1.Keys
    ensures BytesAnswer(m1, addr, n) == BytesAnswer(m, addr, n)
  {
    AnswersSame(m, m1, addr / 2, Span(addr, n));
  }
}
