/** Byte transfers built from word cycles.

The two Ethernet controllers move bytes of any alignment and length over a bus
that only moves words.  The DELQA treats an odd first byte, the whole words and
an odd last byte separately; the DEUNA reads the whole aligned window, merges
and writes it back.  Both are proved to be the one byte-wise write `WithBytes`,
up to the point where a transfer times out. */
module ByteDma {
  import opened GuestMemory

  /** How many words the `n` bytes from `addr` on touch. */
  function Span(addr: nat, n: nat): (s: nat)
    ensures n == 0 ==> s == 0
  {
    if n == 0 then 0 else (n + addr % 2 + 1) / 2
  }

  predicate BytesAnswer(m: Memory, addr: nat, n: nat) {
    AllAnswer(m, addr / 2, Span(addr, n))
  }

  /** How many of the `n` bytes from `addr` on lie before the first word that times out. */
  function BytesReached(m: Memory, addr: nat, n: nat): (r: nat)
    ensures r <= n
  {
    var r := 2 * Reach(m, addr / 2, Span(addr, n)) - addr % 2;
    if r < 0 then 0 else if r > n then n else r
  }

  /** Memory after a byte transfer that may have timed out on its way. */
  function ByteWrite(m: Memory, addr: nat, bs: seq<Byte>): (r: Memory)
    ensures r.Keys == m.Keys
  {
    WithBytes(m, addr, bs[..BytesReached(m, addr, |bs|)])
  }

  /** A transfer that completes writes everything. */
  lemma ByteWriteAll(m: Memory, addr: nat, bs: seq<Byte>)
    ensures BytesReached(m, addr, |bs|) == |bs| <==> BytesAnswer(m, addr, |bs|)
    ensures BytesAnswer(m, addr, |bs|) ==> ByteWrite(m, addr, bs) == WithBytes(m, addr, bs)
  {
    ReachAll(m, addr / 2, Span(addr, |bs|));
    if BytesAnswer(m, addr, |bs|) { assert bs[..|bs|] == bs; }
  }

  predicate Holds(m: Memory, addr: nat, n: nat) {
    forall a :: addr <= a < addr + n ==> a in m
  }

  function BytesAt(m: Memory, addr: nat, n: nat): (bs: seq<Byte>)
    requires Holds(m, addr, n)
    ensures |bs| == n && forall k :: 0 <= k < n ==> bs[k] == m[addr + k]
  {
    seq(n, k requires 0 <= k < n && Holds(m, addr, n) => m[addr + k])
  }

  /** Reading a range back gives the bytes last written there. */
  lemma ReadBack(m: Memory, addr: nat, bs: seq<Byte>)
    requires Holds(m, addr, |bs|)
    ensures Holds(WithBytes(m, addr, bs), addr, |bs|)
    ensures BytesAt(WithBytes(m, addr, bs), addr, |bs|) == bs
  {
    var r := WithBytes(m, addr, bs);
    forall k | 0 <= k < |bs| ensures BytesAt(r, addr, |bs|)[k] == bs[k] {
      assert addr + k in m;
    }
  }

  lemma WordsHold(m: Memory, i: nat, n: nat)
    requires AllAnswer(m, i, n)
    ensures Holds(m, 2 * i, 2 * n)
    ensures Unpack(WordsAt(m, i, n)) == BytesAt(m, 2 * i, 2 * n)
    decreases n
  {
    if n > 0 {
      WordsHold(m, i + 1, n - 1);
      var ws, bs := WordsAt(m, i + 1, n - 1), BytesAt(m, 2 * (i + 1), 2 * (n - 1));
      HoldsFrom(m, 2 * i, 2 * n);
      assert ([WordAt(m, i)] + ws)[1..] == ws;
      assert Unpack(WordsAt(m, i, n)) == [m[2 * i], m[2 * i + 1]] + bs;
      assert BytesAt(m, 2 * i, 2 * n) == [m[2 * i], m[2 * i + 1]] + bs;
    }
  }

  lemma HoldsFrom(m: Memory, addr: nat, n: nat)
    requires n >= 2 && addr in m && addr + 1 in m && Holds(m, addr + 2, n - 2)
    ensures Holds(m, addr, n)
  {
    forall a | addr <= a < addr + n ensures a in m {
      if a >= addr + 2 { assert addr + 2 <= a < addr + 2 + (n - 2); }
    }
  }

  lemma BytesAtHead(m: Memory, addr: nat, n: nat)
    requires n > 0 && addr in m && Holds(m, addr + 1, n - 1)
    ensures Holds(m, addr, n) && BytesAt(m, addr, n) == [m[addr]] + BytesAt(m, addr + 1, n - 1)
  {
    forall a | addr <= a < addr + n ensures a in m {
      if a > addr { assert addr + 1 <= a < addr + 1 + (n - 1); }
    }
  }

  lemma AllAnswerParts(m: Memory, i: nat, n: nat, k: nat)
    requires k <= n
    ensures AllAnswer(m, i, n) <==> AllAnswer(m, i, k) && AllAnswer(m, i + k, n - k)
    decreases k
  {
    if k > 0 { AllAnswerParts(m, i + 1, n - 1, k - 1); assert i + 1 + (k - 1) == i + k; }
  }

  lemma BytesAnswerHold(m: Memory, addr: nat, n: nat)
    requires BytesAnswer(m, addr, n)
    ensures Holds(m, addr, n)
  {
    WordsHold(m, addr / 2, Span(addr, n));
  }

  // --- words and bytes ---------------------------------------------------

  function PackWords(bs: seq<Byte>): (ws: seq<Word>)
    requires |bs| % 2 == 0
    ensures |ws| == |bs| / 2 && Unpack(ws) == bs
  {
    if bs == [] then [] else
      var ws := [Pack(bs[0], bs[1])] + PackWords(bs[2..]);
      assert bs == [bs[0], bs[1]] + bs[2..];
      ws
  }

  lemma UnpackTake(ws: seq<Word>, r: nat)
    requires r <= |ws|
    ensures Unpack(ws[..r]) == Unpack(ws)[..2 * r]
  {
    assert ws == ws[..r] + ws[r..];
    UnpackJoin(ws[..r], ws[r..]);
  }

  // --- DELQA: head, middle, tail -----------------------------------------

  /** Writes one boundary byte by read-modify-write of its word. */
  method MergeByte(bus: Bus, addr: nat, b: Byte) returns (ok: bool)
    modifies bus
    ensures ok == Answers(old(bus.mem), addr / 2)
    ensures bus.mem == if ok then WithBytes(old(bus.mem), addr, [b]) else old(bus.mem)
  {
    var ws;
    ghost var m := bus.mem;
    AllAnswerParts(m, addr / 2, 1, 1);
    ok, ws := bus.ReadWords(addr, 1);
    if !ok { return; }
    assert ws[0] == WordAt(m, addr / 2);
    var word := if addr % 2 == 1 then Pack(Low(ws[0]), b) else Pack(b, High(ws[0]));
    ok := bus.WriteWords(addr, [word]);
    ReachAll(m, addr / 2, 1);
    assert [word][..1] == [word];
    assert Unpack([word]) == [Low(word), High(word)];
  }

  /** Writes the whole words of an even-addressed buffer. */
  method WriteWholeWords(bus: Bus, addr: nat, buffer: seq<Byte>) returns (ok: bool)
    requires addr % 2 == 0 && |buffer| % 2 == 0
    modifies bus
    ensures ok == BytesAnswer(old(bus.mem), addr, |buffer|)
    ensures bus.mem == ByteWrite(old(bus.mem), addr, buffer)
  {
    hide WithBytes, Unpack, Reach;
    var tmp := PackWords(buffer);
    UnpackTake(tmp, Reach(bus.mem, addr / 2, |tmp|));
    ok := bus.WriteWords(addr, tmp);
  }

  lemma ReachShort(m: Memory, i: nat, n: nat, k: nat)
    requires k <= n && !AllAnswer(m, i, k)
    ensures Reach(m, i, n) == Reach(m, i, k) < k
    decreases k
  {
    if Answers(m, i) { ReachShort(m, i + 1, n - 1, k - 1); }
  }

  /** A transfer that times out in its whole words stops where they do. */
  lemma StopsInWords(m: Memory, addr: nat, bs: seq<Byte>, words: nat)
    requires addr % 2 == 0 && words == |bs| / 2 && !AllAnswer(m, addr / 2, words)
    ensures !BytesAnswer(m, addr, |bs|)
    ensures ByteWrite(m, addr, bs) == ByteWrite(m, addr, bs[..2 * words])
  {
    ReachShort(m, addr / 2, Span(addr, |bs|), words);
    AllAnswerParts(m, addr / 2, Span(addr, |bs|), words);
    var r := Reach(m, addr / 2, words);
    assert bs[..2 * words][..2 * r] == bs[..2 * r];
  }

  /** Once the whole words are through, a trailing byte decides the rest. */
  lemma EndsInTail(m: Memory, addr: nat, bs: seq<Byte>, words: nat)
    requires addr % 2 == 0 && |bs| == 2 * words + 1 && AllAnswer(m, addr / 2, words)
    ensures BytesAnswer(m, addr, |bs|) <==> Answers(m, addr / 2 + words)
    ensures ByteWrite(m, addr, bs)
         == if Answers(m, addr / 2 + words) then WithBytes(m, addr, bs) else WithBytes(m, addr, bs[..2 * words])
  {
    ReachParts(m, addr / 2, words + 1, words);
    AllAnswerParts(m, addr / 2, words + 1, words);
    AllAnswerParts(m, addr / 2 + words, 1, 1);
    ByteWriteAll(m, addr, bs);
  }

  lemma SpanAfterOdd(addr: nat, n: nat)
    requires addr % 2 == 1 && n > 0
    ensures Span(addr, n) == 1 + Span(addr + 1, n - 1) && (addr + 1) / 2 == addr / 2 + 1 && (addr + 1) % 2 == 0
  {
  }

  /** An odd first byte goes first, and the rest is a transfer of its own. */
  lemma StartsOdd(m: Memory, addr: nat, bs: seq<Byte>)
    requires addr % 2 == 1 && bs != []
    ensures !Answers(m, addr / 2) ==> !BytesAnswer(m, addr, |bs|) && ByteWrite(m, addr, bs) == m
    ensures Answers(m, addr / 2) ==>
              var m1 := WithBytes(m, addr, [bs[0]]);
              && BytesAnswer(m, addr, |bs|) == BytesAnswer(m1, addr + 1, |bs| - 1)
              && ByteWrite(m, addr, bs) == ByteWrite(m1, addr + 1, bs[1..])
  {
    hide Span, WithBytes;
    var n, m1 := Span(addr, |bs|), WithBytes(m, addr, [bs[0]]);
    WithNoBytes(m, addr);
    SpanAfterOdd(addr, |bs|);
    if Answers(m, addr / 2) {
      AnswersSame(m, m1, addr / 2 + 1, n - 1);
      var done := BytesReached(m1, addr + 1, |bs| - 1);
      WithBytesJoin(m, addr, [bs[0]], bs[1..][..done]);
      assert [bs[0]] + bs[1..][..done] == bs[..1 + done];
    }
  }

  /** The part of `dma_write_bytes` after an odd first byte: whole words, then a trailing low byte. */
  method WriteFromEven(bus: Bus, addr: nat, buffer: seq<Byte>) returns (ok: bool)
    requires addr % 2 == 0
    modifies bus
    ensures ok == BytesAnswer(old(bus.mem), addr, |buffer|)
    ensures bus.mem == ByteWrite(old(bus.mem), addr, buffer)
  {
    hide WithBytes, BytesReached, Reach;
    ghost var m := bus.mem;
    var words := |buffer| / 2;
    ok := true;
    WithNoBytes(m, addr);
    if words > 0 {
      ok := WriteWholeWords(bus, addr, buffer[..2 * words]);
      if !ok {
        StopsInWords(m, addr, buffer, words);
        return;
      }
      ByteWriteAll(m, addr, buffer[..2 * words]);
    }
    if 2 * words < |buffer| {
      EndsInTail(m, addr, buffer, words);
      ok := MergeByte(bus, addr + 2 * words, buffer[2 * words]);
      WithBytesJoin(m, addr, buffer[..2 * words], [buffer[2 * words]]);
      assert buffer[..2 * words] + [buffer[2 * words]] == buffer;
    } else {
      assert buffer[..2 * words] == buffer;
      ByteWriteAll(m, addr, buffer);
    }
  }

  /** DELQA `dma_write_bytes`: leading odd byte, whole words, trailing byte. */
  method SplitWrite(bus: Bus, addr: nat, buffer: seq<Byte>) returns (ok: bool)
    modifies bus
    ensures ok == BytesAnswer(old(bus.mem), addr, |buffer|)
    ensures bus.mem == ByteWrite(old(bus.mem), addr, buffer)
  {
    WithNoBytes(bus.mem, addr);
    if |buffer| == 0 { return true; }
    if addr % 2 == 0 {
      ok := WriteFromEven(bus, addr, buffer);
      return;
    }
    StartsOdd(bus.mem, addr, buffer);
    ok := MergeByte(bus, addr, buffer[0]);
    if ok { ok := WriteFromEven(bus, addr + 1, buffer[1..]); }
  }

  /** The part of `dma_read_bytes` after an odd first byte. */
  method ReadFromEven(bus: Bus, addr: nat, len: nat) returns (ok: bool, buffer: seq<Byte>)
    requires addr % 2 == 0
    ensures ok == BytesAnswer(bus.mem, addr, len)
    ensures ok ==> Holds(bus.mem, addr, len) && buffer == BytesAt(bus.mem, addr, len)
  {
    ok, buffer := true, [];
    var ws;
    var words := len / 2;
    AllAnswerParts(bus.mem, addr / 2, Span(addr, len), words);
    if words > 0 {
      ok, ws := bus.ReadWords(addr, words);
      if !ok { return; }
      WordsHold(bus.mem, addr / 2, words);
      buffer := Unpack(ws);
    }
    if 2 * words < len {
      ok, ws := bus.ReadWords(addr + 2 * words, 1);
      if !ok { return; }
      buffer := buffer + [Low(ws[0])];
    }
  }

  /** DELQA `dma_read_bytes`: leading odd byte, whole words, trailing byte. */
  method SplitRead(bus: Bus, addr: nat, len: nat) returns (ok: bool, buffer: seq<Byte>)
    ensures ok == BytesAnswer(bus.mem, addr, len)
    ensures ok ==> Holds(bus.mem, addr, len) && buffer == BytesAt(bus.mem, addr, len)
  {
    hide Span, BytesAt;
    ok, buffer := true, [];
    if len == 0 { return; }
    if addr % 2 == 0 {
      ok, buffer := ReadFromEven(bus, addr, len);
      return;
    }
    SpanAfterOdd(addr, len);
    AllAnswerParts(bus.mem, addr / 2, Span(addr, len), 1);
    var ws;
    ok, ws := bus.ReadWords(addr, 1);
    if !ok { return; }
    assert ws[0] == WordAt(bus.mem, addr / 2);
    ok, buffer := ReadFromEven(bus, addr + 1, len - 1);
    if ok { BytesAtHead(bus.mem, addr, len); }
    buffer := [High(ws[0])] + buffer;
  }

  // --- DEUNA: aligned window ---------------------------------------------

  /** Puts `b` at byte `at` of the words `tmp`. */
  lemma UnpackUpdate(tmp: seq<Word>, at: nat, b: Byte)
    requires at / 2 < |tmp|
    ensures Unpack(tmp[at / 2 := if at % 2 == 1 then Pack(Low(tmp[at / 2]), b) else Pack(b, High(tmp[at / 2]))])
         == Unpack(tmp)[at := b]
  {
    if at >= 2 {
      UnpackUpdate(tmp[1..], at - 2, b);
      assert tmp[1..][at / 2 - 1] == tmp[at / 2];
    }
    var w := if at % 2 == 1 then Pack(Low(tmp[at / 2]), b) else Pack(b, High(tmp[at / 2]));
    assert tmp[at / 2 := w][1..] == if at < 2 then tmp[1..] else tmp[1..][at / 2 - 1 := w];
  }

  /** `window` with `bs` laid over it from `offset` on. */
  function Spliced(window: seq<Byte>, offset: nat, bs: seq<Byte>): (r: seq<Byte>)
    requires offset + |bs| <= |window|
    ensures |r| == |window|
  {
    window[..offset] + bs + window[offset + |bs|..]
  }

  lemma SplicedNext(window: seq<Byte>, offset: nat, bs: seq<Byte>, i: nat)
    requires i < |bs| && offset + |bs| <= |window|
    ensures Spliced(window, offset, bs[..i])[i + offset := bs[i]] == Spliced(window, offset, bs[..i + 1])
  {
  }

  /** Merges `buffer` into the words of its aligned window, byte by byte. */
  method MergeWindow(buffer: seq<Byte>, offset: nat, window: seq<Word>) returns (tmp: seq<Word>)
    requires offset < 2 && |buffer| + offset <= 2 * |window|
    ensures |tmp| == |window|
    ensures Unpack(tmp) == Spliced(Unpack(window), offset, buffer)
  {
    hide Unpack;
    tmp := window;
    var i := 0;
    assert Spliced(Unpack(window), offset, buffer[..0]) == Unpack(window);
    hide Spliced;
    while i < |buffer|
      invariant 0 <= i <= |buffer| && |tmp| == |window|
      invariant Unpack(tmp) == Spliced(Unpack(window), offset, buffer[..i])
    {
      var wordIndex := (i + offset) / 2;
      var high := (i + offset) % 2 != 0;
      var w := tmp[wordIndex];
      UnpackUpdate(tmp, i + offset, buffer[i]);
      SplicedNext(Unpack(window), offset, buffer, i);
      w := if high then Pack(Low(w), buffer[i]) else Pack(buffer[i], High(w));
      tmp := tmp[wordIndex := w];
      i := i + 1;
    }
    assert buffer[..i] == buffer;
  }

  /** Writing the merged window back is the byte-wise write. */
  lemma WindowIsBytes(m: Memory, addr: nat, buffer: seq<Byte>, n: nat)
    requires Holds(m, addr / 2 * 2, 2 * n) && |buffer| + addr % 2 <= 2 * n
    ensures var w, off := BytesAt(m, addr / 2 * 2, 2 * n), addr % 2;
            WithBytes(m, addr / 2 * 2, Spliced(w, off, buffer)) == WithBytes(m, addr, buffer)
  {
    var w, start := BytesAt(m, addr / 2 * 2, 2 * n), addr / 2 * 2;
    var s := Spliced(w, addr % 2, buffer);
    forall a | a in m ensures WithBytes(m, start, s)[a] == WithBytes(m, addr, buffer)[a] {
      WithBytesAt(m, start, s, a);
      WithBytesAt(m, addr, buffer, a);
    }
  }

  lemma BytesOfWindow(m: Memory, addr: nat, n: nat) returns (w: seq<Byte>)
    requires ReadOk(m, addr, n)
    ensures Holds(m, addr / 2 * 2, 2 * n)
    ensures w == BytesAt(m, addr / 2 * 2, 2 * n) == Unpack(WordsAt(m, addr / 2, n))
  {
    WordsHold(m, addr / 2, n);
    w := BytesAt(m, addr / 2 * 2, 2 * n);
  }

  lemma WrittenAll(m: Memory, addr: nat, ws: seq<Word>)
    requires ReadOk(m, addr, |ws|)
    ensures Written(m, addr, ws) == WithBytes(m, addr / 2 * 2, Unpack(ws))
  {
    ReachAll(m, addr / 2, |ws|);
    assert ws[..|ws|] == ws;
  }

  /** What the DEUNA's write leaves behind: all or nothing through the window, a leading part directly. */
  function WindowWritten(m: Memory, addrSpace: nat, addr: nat, bs: seq<Byte>): Memory {
    if addr + |bs| > addrSpace then m
    else if addr % 2 == 0 && |bs| % 2 == 0 then ByteWrite(m, addr, bs)
    else if BytesAnswer(m, addr, |bs|) then WithBytes(m, addr, bs)
    else m
  }

  /** DEUNA `dma_write_bytes`: whole words directly, anything else through the aligned window. */
  method WindowWrite(bus: Bus, addrSpace: nat, addr: nat, buffer: seq<Byte>) returns (ok: bool)
    modifies bus
    ensures ok == (|buffer| == 0 || (addr + |buffer| <= addrSpace && BytesAnswer(old(bus.mem), addr, |buffer|)))
    ensures bus.mem == WindowWritten(old(bus.mem), addrSpace, addr, buffer)
  {
    hide Unpack, WithBytes, BytesReached, WordsAt;
    ghost var m := bus.mem;
    WithNoBytes(m, addr);
    if |buffer| == 0 { return true; }
    if addrSpace == 0 || addr >= addrSpace || |buffer| > addrSpace - addr { return false; }
    if addr % 2 == 0 && |buffer| % 2 == 0 {
      ok := WriteWholeWords(bus, addr, buffer);
      return;
    }
    var wordCount := (|buffer| + addr % 2 + 1) / 2;
    var window;
    ok, window := bus.ReadWords(addr, wordCount);
    if !ok { return; }
    ghost var w := BytesOfWindow(m, addr, wordCount);
    var tmp := MergeWindow(buffer, addr % 2, window);
    WindowIsBytes(m, addr, buffer, wordCount);
    WrittenAll(m, addr, tmp);
    ok := bus.WriteWords(addr, tmp);
  }

  // --- the two writers ---------------------------------------------------

  /** Where the transfer is in range and completes, both writers perform the one byte-wise write. */
  lemma WritersAgree(m: Memory, addrSpace: nat, addr: nat, bs: seq<Byte>)
    requires addr + |bs| <= addrSpace && BytesAnswer(m, addr, |bs|)
    ensures ByteWrite(m, addr, bs) == WindowWritten(m, addrSpace, addr, bs) == WithBytes(m, addr, bs)
  {
    ByteWriteAll(m, addr, bs);
  }

  /** On equal memories the two writers leave equal memories, and the DELQA reads the bytes back. */
  method WriteBoth(delqa: Bus, deuna: Bus, addrSpace: nat, addr: nat, buffer: seq<Byte>) returns (back: seq<Byte>)
    requires delqa != deuna && delqa.mem == deuna.mem
    requires addr + |buffer| <= addrSpace && BytesAnswer(delqa.mem, addr, |buffer|)
    modifies delqa, deuna
    ensures delqa.mem == deuna.mem
    ensures back == buffer
  {
    ghost var m := delqa.mem;
    var ok1 := SplitWrite(delqa, addr, buffer);
    var ok2 := WindowWrite(deuna, addrSpace, addr, buffer);
    WritersAgree(m, addrSpace, addr, buffer);
    BytesAnswerHold(m, addr, |buffer|);
    ReadBack(m, addr, buffer);
    AnswersSame(m, delqa.mem, addr / 2, Span(addr, |buffer|));
    var ok3;
    ok3, back := SplitRead(delqa, addr, |buffer|);
  }
}
