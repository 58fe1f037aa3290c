/** Buffer descriptors of the DELQA: six words, of which the controller reads a
flag word, the descriptor bits with the address, and a negative word count. */
module DelqaDescriptor {
  import opened GuestMemory

  /** How far a descriptor list is walked before the walk is abandoned. */
  const MAX_DESCRIPTORS := 256

  predicate DscV(flags: Word) { flags / 0x8000 == 1 }
  predicate DscC(flags: Word) { flags / 0x4000 % 2 == 1 }
  predicate DscE(flags: Word) { flags / 0x2000 % 2 == 1 }
  predicate DscS(flags: Word) { flags / 0x1000 % 2 == 1 }
  predicate DscL(flags: Word) { flags / 0x80 % 2 == 1 }
  predicate DscH(flags: Word) { flags / 0x40 % 2 == 1 }

  function Address22(flags: Word, low: Word): nat { flags % 0x40 * 0x1_0000 + low }

  function BufferAddress(flags: Word, low: Word): nat {
    Address22(flags, low) + (if DscH(flags) then 1 else 0)
  }

  /** Buffer length in bytes, from a negative word count; the subtractions wrap at 32 bits. */
  function BufferLength(flags: Word, count: Word): nat {
    var words := (0x1_0000 - count) % 0x1_0000;
    (2 * words - (if DscH(flags) then 1 else 0) - (if DscL(flags) then 1 else 0)) % 0x1_0000_0000
  }

  /** The length arithmetic underflows exactly on a word count of zero with an odd end marked; a buffer is empty exactly
  on a word count of zero with no odd end, or on one word with both ends odd. */
  lemma BufferLengthFits(flags: Word, count: Word)
    ensures BufferLength(flags, count) > 0x1_FFFE <==> count == 0 && (DscH(flags) || DscL(flags))
    ensures BufferLength(flags, count) == 0 <==>
              (count == 0 && !DscH(flags) && !DscL(flags)) || (count == 0xFFFF && DscH(flags) && DscL(flags))
  {
  }

  /** A valid descriptor may well describe an empty buffer. */
  lemma EmptyBufferExists()
    ensures DscV(0x8000) && !DscC(0x8000) && BufferLength(0x8000, 0) == 0
  {
  }

  // --- what a write leaves in memory --------------------------------------------

  /** Address `a` lies in the `n` bytes from `addr` on. */
  predicate In(a: nat, addr: nat, n: nat) { addr <= a < addr + n }

  lemma MarkInMemory(m: Memory, ba: nat, a: nat)
    requires Answers(m, ba / 2) && a in m
    ensures var r := Written(m, ba, [0xffff]);
            a in r && r[a] == if In(a, ba / 2 * 2, 2) then 0xff else m[a]
  {
    assert Reach(m, ba / 2, 1) == 1 by { assert Reach(m, ba / 2 + 1, 0) == 0; }
    assert [0xffff][..1] == [0xffff];
    assert Unpack([0xffff]) == [0xff, 0xff] + Unpack([]);
  }
}
