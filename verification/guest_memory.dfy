/** Guest memory as a bus master reaches it.

A DMA transfer is a run of word cycles.  Bit 0 of an address takes no part in
a word cycle: word `i` is the bytes `2 * i` (low half) and `2 * i + 1` (high
half).  A word that no memory answers for is missing from the map; the cycle
that addresses it times out, and the transfer ends there with the words before
it already transferred. */
module GuestMemory {
  type Word = w: int | 0 <= w < 0x1_0000
  type Byte = b: int | 0 <= b < 0x100
  type Memory = map<nat, Byte>

  function Low(w: Word): Byte { w % 0x100 }

  function High(w: Word): Byte { w / 0x100 }

  function Pack(lo: Byte, hi: Byte): (w: Word)
    ensures Low(w) == lo && High(w) == hi
  {
    lo + 0x100 * hi
  }

  /** Memory once `bs` has been written from address `addr` on; missing bytes stay missing. */
  function WithBytes(m: Memory, addr: nat, bs: seq<Byte>): (r: Memory)
    ensures r.Keys == m.Keys
  {
    map a | a in m :: if addr <= a < addr + |bs| then bs[a - addr] else m[a]
  }

  predicate Answers(m: Memory, i: nat) {
    2 * i in m && 2 * i + 1 in m
  }

  predicate AllAnswer(m: Memory, i: nat, n: nat)
    decreases n
  {
    n == 0 || (Answers(m, i) && AllAnswer(m, i + 1, n - 1))
  }

  function WordAt(m: Memory, i: nat): Word
    requires Answers(m, i)
  {
    Pack(m[2 * i], m[2 * i + 1])
  }

  /** How many of the `n` words from word `i` on answer before the first that does not. */
  function Reach(m: Memory, i: nat, n: nat): (r: nat)
    ensures r <= n
    decreases n
  {
    if n == 0 || !Answers(m, i) then 0 else Reach(m, i + 1, n - 1) + 1
  }

  function WordsAt(m: Memory, i: nat, n: nat): (ws: seq<Word>)
    requires AllAnswer(m, i, n)
    ensures |ws| == n
    decreases n
  {
    if n == 0 then [] else [WordAt(m, i)] + WordsAt(m, i + 1, n - 1)
  }

  /** The bytes of `ws` in memory order. */
  function Unpack(ws: seq<Word>): (bs: seq<Byte>)
    ensures |bs| == 2 * |ws|
  {
    if ws == [] then [] else [Low(ws[0]), High(ws[0])] + Unpack(ws[1..])
  }

  predicate ReadOk(m: Memory, addr: nat, n: nat) {
    AllAnswer(m, addr / 2, n)
  }

  /** What a write transfer leaves behind: everything up to the word that timed out. */
  function Written(m: Memory, addr: nat, ws: seq<Word>): Memory {
    WithBytes(m, addr / 2 * 2, Unpack(ws[..Reach(m, addr / 2, |ws|)]))
  }

  // --- byte-wise writes ---------------------------------------------------

  lemma WithNoBytes(m: Memory, addr: nat)
    ensures WithBytes(m, addr, []) == m
  {
  }

  /** A write changes exactly the bytes of its range. */
  lemma WithBytesAt(m: Memory, addr: nat, bs: seq<Byte>, a: nat)
    requires a in m
    ensures a in WithBytes(m, addr, bs)
    ensures WithBytes(m, addr, bs)[a] == if addr <= a < addr + |bs| then bs[a - addr] else m[a]
  {
  }

  /** Two adjacent writes are one. */
  lemma WithBytesJoin(m: Memory, addr: nat, x: seq<Byte>, y: seq<Byte>)
    ensures WithBytes(WithBytes(m, addr, x), addr + |x|, y) == WithBytes(m, addr, x + y)
  {
  }

  lemma AnswersSame(m: Memory, m1: Memory, i: nat, n: nat)
    requires m.Keys == m1.Keys
    ensures AllAnswer(m, i, n) == AllAnswer(m1, i, n)
    ensures Reach(m, i, n) == Reach(m1, i, n)
    decreases n
  {
    if n > 0 { AnswersSame(m, m1, i + 1, n - 1); }
  }

  lemma ReachAll(m: Memory, i: nat, n: nat)
    ensures Reach(m, i, n) == n <==> AllAnswer(m, i, n)
    decreases n
  {
    if n > 0 { ReachAll(m, i + 1, n - 1); }
  }

  /** One more word reached. */
  lemma ReachStep(m: Memory, i: nat, n: nat, k: nat)
    requires k <= n && AllAnswer(m, i, k)
    ensures k < n && Answers(m, i + k) ==>
              AllAnswer(m, i, k + 1) && WordsAt(m, i, k + 1) == WordsAt(m, i, k) + [WordAt(m, i + k)]
    ensures k == n || !Answers(m, i + k) ==> Reach(m, i, n) == k
    decreases k
  {
    if k > 0 { ReachStep(m, i + 1, n - 1, k - 1); assert i + 1 + (k - 1) == i + k; }
  }

  lemma ReachParts(m: Memory, i: nat, n: nat, k: nat)
    requires k <= n && AllAnswer(m, i, k)
    ensures Reach(m, i, n) == k + Reach(m, i + k, n - k)
    decreases k
  {
    if k > 0 { ReachParts(m, i + 1, n - 1, k - 1); assert i + 1 + (k - 1) == i + k; }
  }

  lemma UnpackJoin(x: seq<Word>, y: seq<Word>)
    ensures Unpack(x + y) == Unpack(x) + Unpack(y)
  {
    if x == [] {
      assert x + y == y;
    } else {
      UnpackJoin(x[1..], y);
      assert (x + y)[1..] == x[1..] + y;
    }
  }

  // --- the byte order of a word ---------------------------------------------

  lemma {:induction false} WordsAtIs(m: Memory, i: nat, n: nat, k: nat)
    requires AllAnswer(m, i, n) && k < n
    ensures Answers(m, i + k) && WordsAt(m, i, n)[k] == WordAt(m, i + k)
    decreases k
  {
    if k > 0 { WordsAtIs(m, i + 1, n - 1, k - 1); }
  }

  /** A word read is its low byte, at the even address, and 256 times its high byte, at the odd one. */
  lemma WordsRead(m: Memory, i: nat, n: nat, k: nat)
    requires AllAnswer(m, i, n) && k < n
    ensures Answers(m, i + k)
    ensures var lo: nat, hi: nat := m[2 * (i + k)], m[2 * (i + k) + 1]; WordsAt(m, i, n)[k] == lo + 0x100 * hi
  {
    WordsAtIs(m, i, n, k);
  }

  lemma {:induction false} BytesOfWord(ws: seq<Word>, k: nat)
    requires k < |ws|
    ensures Unpack(ws)[2 * k] == ws[k] % 0x100 && Unpack(ws)[2 * k + 1] == ws[k] / 0x100
  {
    if k > 0 { BytesOfWord(ws[1..], k - 1); }
  }

  /** A write every word of which answers leaves each word's low byte at the even address and its high byte at the
  odd one. */
  lemma WordStored(m: Memory, addr: nat, ws: seq<Word>, k: nat)
    requires ReadOk(m, addr, |ws|) && k < |ws|
    ensures var r, a := Written(m, addr, ws), 2 * (addr / 2 + k);
            a in r && a + 1 in r && r[a] == ws[k] % 0x100 && r[a + 1] == ws[k] / 0x100
  {
    hide Unpack, WordsAt;
    var i := addr / 2;
    ReachAll(m, i, |ws|);
    assert ws[..|ws|] == ws;
    BytesOfWord(ws, k);
    WordsRead(m, i, |ws|, k);
    WithBytesAt(m, 2 * i, Unpack(ws), 2 * (i + k));
    WithBytesAt(m, 2 * i, Unpack(ws), 2 * (i + k) + 1);
  }

  /** The bus, seen from a device that is master on it. */
  class Bus {
    var mem: Memory

    constructor (m: Memory)
      ensures mem == m
    {
      mem := m;
    }

    /** DATI word cycles from `addr` on. */
    method ReadWords(addr: nat, n: nat) returns (ok: bool, ws: seq<Word>)
      ensures ok == ReadOk(mem, addr, n)
      ensures ok ==> ws == WordsAt(mem, addr / 2, n)
    {
      var k := 0;
      ws := [];
      while k < n && Answers(mem, addr / 2 + k)
        invariant k <= n && AllAnswer(mem, addr / 2, k)
        invariant ws == WordsAt(mem, addr / 2, k)
      {
        ws := ws + [WordAt(mem, addr / 2 + k)];
        ReachStep(mem, addr / 2, n, k);
        k := k + 1;
      }
      ok := k == n;
      ReachStep(mem, addr / 2, n, k);
      ReachAll(mem, addr / 2, n);
    }

    /** DATO word cycles from `addr` on. */
    method WriteWords(addr: nat, ws: seq<Word>) returns (ok: bool)
      modifies this
      ensures ok == ReadOk(old(mem), addr, |ws|)
      ensures mem == Written(old(mem), addr, ws)
    {
      hide WithBytes, Unpack, Low, High;
      ghost var m := mem;
      var i, k := addr / 2, 0;
      WithNoBytes(m, 2 * i);
      while k < |ws| && Answers(mem, i + k)
        invariant k <= |ws| && AllAnswer(m, i, k)
        invariant mem == WithBytes(m, 2 * i, Unpack(ws[..k]))
      {
        mem := mem[2 * (i + k) := Low(ws[k])][2 * (i + k) + 1 := High(ws[k])];
        WriteStep(m, i, ws, k);
        ReachStep(m, i, |ws|, k);
        k := k + 1;
      }
      ok := k == |ws|;
      ReachStep(m, i, |ws|, k);
      ReachAll(m, i, |ws|);
    }
  }

  lemma WriteStep(m: Memory, i: nat, ws: seq<Word>, k: nat)
    requires k < |ws| && Answers(m, i + k)
    ensures WithBytes(m, 2 * i, Unpack(ws[..k]))[2 * (i + k) := Low(ws[k])][2 * (i + k) + 1 := High(ws[k])]
         == WithBytes(m, 2 * i, Unpack(ws[..k + 1]))
  {
    assert ws[..k + 1] == ws[..k] + [ws[k]];
    UnpackJoin(ws[..k], [ws[k]]);
    WithBytesJoin(m, 2 * i, Unpack(ws[..k]), Unpack([ws[k]]));
  }
}
