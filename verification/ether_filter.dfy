/** The kernel receive filter of an emulated Ethernet controller: a compiler
from an address list to classic BPF, and the machine that runs the result. */
module EtherFilter {
  import GuestMemory

  type Byte = GuestMemory.Byte
  type Address = a: seq<Byte> | |a| == 6 witness [0, 0, 0, 0, 0, 0]

  // --- classic BPF ---------------------------------------------------------

  /** The operations the compiler uses: absolute loads of 1, 2 and 4 bytes, AND, JEQ and RET. */
  datatype Op = LoadByte | LoadHalf | LoadWord | And | JumpEqual | Return

  /** One instruction; jumps count the instructions they skip. */
  datatype Insn = Insn(op: Op, jt: Byte, jf: Byte, k: nat)

  /** A run that ends with the number of bytes to keep, or leaves the program. */
  datatype Verdict = Keep(n: nat) | OutOfProgram

  function Load(frame: seq<Byte>, at: nat, size: nat): nat
    requires at + size <= |frame|
  {
    if size == 0 then 0 else 0x100 * Load(frame, at, size - 1) + frame[at + size - 1]
  }

  /** A load takes the bytes in network order, the first the most significant. */
  lemma LoadsBigEndian(frame: seq<Byte>, at: nat)
    requires at + 4 <= |frame|
    ensures var a: nat, b: nat, c: nat, d: nat := frame[at], frame[at + 1], frame[at + 2], frame[at + 3];
            && Load(frame, at, 1) == a && Load(frame, at, 2) == 0x100 * a + b
            && Load(frame, at, 4) == 0x100_0000 * a + 0x1_0000 * b + 0x100 * c + d
  {
    var a: nat, b: nat := frame[at], frame[at + 1];
    assert Load(frame, at, 0) == 0 && Load(frame, at, 1) == a;
    assert Load(frame, at, 2) == 0x100 * a + b;
  }

  /** The bits set in both numbers. */
  function BitAnd(x: nat, y: nat): nat {
    if x == 0 || y == 0 then 0 else 2 * BitAnd(x / 2, y / 2) + (x % 2) * (y % 2)
  }

  lemma LowBit(x: nat)
    ensures BitAnd(x, 1) == x % 2
  {
    assert BitAnd(x / 2, 0) == 0;
  }

  /** Runs `code` on `frame` from `pc` with accumulator `a`. A load beyond the frame drops it. */
  function Run(code: seq<Insn>, frame: seq<Byte>, pc: nat, a: nat): Verdict
    decreases |code| - pc
  {
    if pc >= |code| then OutOfProgram
    else
      var i := code[pc];
      match i.op
      case LoadByte => if i.k + 1 > |frame| then Keep(0) else Run(code, frame, pc + 1, Load(frame, i.k, 1))
      case LoadHalf => if i.k + 2 > |frame| then Keep(0) else Run(code, frame, pc + 1, Load(frame, i.k, 2))
      case LoadWord => if i.k + 4 > |frame| then Keep(0) else Run(code, frame, pc + 1, Load(frame, i.k, 4))
      case And => Run(code, frame, pc + 1, BitAnd(a, i.k))
      case JumpEqual => Run(code, frame, pc + 1 + (if a == i.k then i.jt else i.jf), a)
      case Return => Keep(i.k)
  }

  predicate Passes(code: seq<Insn>, frame: seq<Byte>) {
    var v := Run(code, frame, 0, 0);
    v.Keep? && v.n > 0
  }

  /** What the kernel demands of a program: every jump lands inside it and the last instruction returns. */
  predicate WellFormed(code: seq<Insn>) {
    && 0 < |code| <= 4096
    && code[|code| - 1].op == Return
    && forall pc {:trigger code[pc]} :: 0 <= pc < |code| && code[pc].op == JumpEqual ==>
         pc + 1 + code[pc].jt < |code| && pc + 1 + code[pc].jf < |code|
  }

  // --- the compiler --------------------------------------------------------

  const ACCEPT := Insn(Return, 0, 0, 0xffff)
  const DROP := Insn(Return, 0, 0, 0)

  /** The jump from `from` to the accepting instruction of an `n`-address program, cut to 8 bits. */
  function ToAccept(n: nat, from: int): Byte {
    (3 + 4 * n + 1 - from - 1) % 0x100
  }

  function High4(a: Address): nat { Load(a, 0, 4) }

  function Low2(a: Address): nat { Load(a, 4, 2) }

  function Block(a: Address, n: nat, at: nat): seq<Insn> {
    [ Insn(LoadWord, 0, 0, 0),
      Insn(JumpEqual, 0, 2, High4(a)),
      Insn(LoadHalf, 0, 0, 4),
      Insn(JumpEqual, ToAccept(n, at + 3), 0, Low2(a)) ]
  }

  function Blocks(addresses: seq<Address>, n: nat, at: nat): (code: seq<Insn>)
    ensures |code| == 4 * |addresses|
  {
    if addresses == [] then [] else Block(addresses[0], n, at) + Blocks(addresses[1..], n, at + 4)
  }

  function Prologue(n: nat): seq<Insn> {
    [ Insn(LoadByte, 0, 0, 0), Insn(And, 0, 0, 1), Insn(JumpEqual, 0, ToAccept(n, 2), 0) ]
  }

  function Program(addresses: seq<Address>, promiscuous: bool): seq<Insn> {
    if promiscuous then [ACCEPT]
    else Prologue(|addresses|) + Blocks(addresses, |addresses|, 3) + [DROP, ACCEPT]
  }

  lemma {:induction false} BlocksAppend(addresses: seq<Address>, a: Address, n: nat, at: nat)
    ensures Blocks(addresses + [a], n, at) == Blocks(addresses, n, at) + Block(a, n, at + 4 * |addresses|)
  {
    if addresses == [] {
      assert addresses + [a] == [a];
      assert Blocks([a][1..], n, at + 4) == [];
    } else {
      BlocksAppend(addresses[1..], a, n, at + 4);
      assert (addresses + [a])[1..] == addresses[1..] + [a];
    }
  }

  /** `ether_receive_filter`: emits the program instruction by instruction. */
  method EtherReceiveFilter(addresses: seq<Address>, promiscuous: bool) returns (code: seq<Insn>)
    ensures code == Program(addresses, promiscuous)
  {
    code := [];
    if promiscuous {
      code := code + [ACCEPT];
      return;
    }
    var n := |addresses|;
    code := code + [Insn(LoadByte, 0, 0, 0)];
    code := code + [Insn(And, 0, 0, 1)];
    code := code + [Insn(JumpEqual, 0, ToAccept(n, 2), 0)];
    var i := 0;
    while i < n
      invariant 0 <= i <= n
      invariant code == Prologue(n) + Blocks(addresses[..i], n, 3)
    {
      var a := addresses[i];
      var at := |code|;
      code := code + [Insn(LoadWord, 0, 0, 0)];
      code := code + [Insn(JumpEqual, 0, 2, High4(a))];
      code := code + [Insn(LoadHalf, 0, 0, 4)];
      code := code + [Insn(JumpEqual, ToAccept(n, at + 3), 0, Low2(a))];
      BlocksAppend(addresses[..i], a, n, 3);
      assert addresses[..i + 1] == addresses[..i] + [a];
      i := i + 1;
    }
    assert addresses[..i] == addresses;
    code := code + [DROP];
    code := code + [ACCEPT];
  }

  // --- correctness ---------------------------------------------------------

  /** The longest list whose jumps fit eight bits. */
  const MAX_ADDRESSES := 63

  function Destination(frame: seq<Byte>): Address
    requires |frame| >= 6
  {
    frame[..6]
  }

  predicate Multicast(a: Address) { a[0] % 2 == 1 }

  /** What the filter is for: multicast, and unicast to a listed address. */
  predicate Wanted(addresses: seq<Address>, frame: seq<Byte>)
    requires |frame| >= 6
  {
    Multicast(Destination(frame)) || Destination(frame) in addresses
  }

  lemma LoadPrefix(frame: seq<Byte>, n: nat, at: nat, size: nat)
    requires at + size <= n <= |frame|
    ensures Load(frame, at, size) == Load(frame[..n], at, size)
  {
  }

  lemma {:induction false} LoadInjective(x: seq<Byte>, y: seq<Byte>, at: nat, size: nat)
    requires at + size <= |x| && at + size <= |y|
    requires Load(x, at, size) == Load(y, at, size)
    ensures x[at..at + size] == y[at..at + size]
  {
    if size > 0 {
      LoadInjective(x, y, at, size - 1);
      assert x[at..at + size] == x[at..at + size - 1] + [x[at + size - 1]];
      assert y[at..at + size] == y[at..at + size - 1] + [y[at + size - 1]];
    }
  }

  /** The two comparisons of a block decide equality of the whole address. */
  lemma HalvesDecide(a: Address, b: Address)
    ensures High4(a) == High4(b) && Low2(a) == Low2(b) <==> a == b
  {
    if High4(a) == High4(b) && Low2(a) == Low2(b) {
      LoadInjective(a, b, 0, 4);
      LoadInjective(a, b, 4, 2);
      assert a == a[0..4] + a[4..6] && b == b[0..4] + b[4..6];
    }
  }

  lemma {:induction false} BlocksAt(addresses: seq<Address>, n: nat, at: nat, i: nat)
    requires i < |addresses|
    ensures Blocks(addresses, n, at)[4 * i..4 * i + 4] == Block(addresses[i], n, at + 4 * i)
  {
    if i > 0 {
      BlocksAt(addresses[1..], n, at + 4, i - 1);
      assert Blocks(addresses, n, at)[4 * i..4 * i + 4]
          == Blocks(addresses[1..], n, at + 4)[4 * (i - 1)..4 * (i - 1) + 4];
    }
  }

  /** Where each instruction of the program sits. */
  lemma ProgramAt(addresses: seq<Address>, i: nat)
    requires i <= |addresses|
    ensures var code, n := Program(addresses, false), |addresses|;
            && |code| == 4 * n + 5
            && code[0] == Insn(LoadByte, 0, 0, 0) && code[1] == Insn(And, 0, 0, 1)
            && code[2] == Insn(JumpEqual, 0, ToAccept(n, 2), 0)
            && code[4 * n + 3] == DROP && code[4 * n + 4] == ACCEPT
            && (i < n ==> code[3 + 4 * i..7 + 4 * i] == Block(addresses[i], n, 3 + 4 * i))
  {
    var n := |addresses|;
    if i < n {
      BlocksAt(addresses, n, 3, i);
      assert Program(addresses, false)[3 + 4 * i..7 + 4 * i] == Blocks(addresses, n, 3)[4 * i..4 * i + 4];
    }
  }

  /** The instructions of one block, one by one. */
  lemma BlockInsns(addresses: seq<Address>, i: nat)
    requires i < |addresses|
    ensures var code, n, p := Program(addresses, false), |addresses|, 3 + 4 * i;
            && |code| == 4 * n + 5
            && code[p] == Insn(LoadWord, 0, 0, 0) && code[p + 1] == Insn(JumpEqual, 0, 2, High4(addresses[i]))
            && code[p + 2] == Insn(LoadHalf, 0, 0, 4)
            && code[p + 3] == Insn(JumpEqual, ToAccept(n, p + 3), 0, Low2(addresses[i]))
  {
    ProgramAt(addresses, i);
    var code, p := Program(addresses, false), 3 + 4 * i;
    assert code[p] == code[p..p + 4][0] && code[p + 1] == code[p..p + 4][1];
    assert code[p + 2] == code[p..p + 4][2] && code[p + 3] == code[p..p + 4][3];
  }

  /** The accumulator an unmatched block leaves behind. */
  function AfterBlock(a: Address, frame: seq<Byte>): nat
    requires |frame| >= 6
  {
    if Load(frame, 0, 4) != High4(a) then Load(frame, 0, 4) else Load(frame, 4, 2)
  }

  /** One address block: on to the accept on a match (when its jump fits), else to the next block. */
  lemma BlockRun(addresses: seq<Address>, frame: seq<Byte>, i: nat, a: nat)
    requires i < |addresses| && |frame| >= 6
    ensures var code, n, dst := Program(addresses, false), |addresses|, Destination(frame);
            && (addresses[i] != dst ==>
                  Run(code, frame, 3 + 4 * i, a) == Run(code, frame, 7 + 4 * i, AfterBlock(addresses[i], frame)))
            && (addresses[i] == dst && n - i <= MAX_ADDRESSES + 1 ==> Run(code, frame, 3 + 4 * i, a) == Keep(0xffff))
  {
    var code, n, dst := Program(addresses, false), |addresses|, Destination(frame);
    ProgramAt(addresses, i);
    BlockInsns(addresses, i);
    var p := 3 + 4 * i;
    LoadPrefix(frame, 6, 0, 4);
    LoadPrefix(frame, 6, 4, 2);
    HalvesDecide(addresses[i], dst);
    var hi, lo := Load(frame, 0, 4), Load(frame, 4, 2);
    assert Run(code, frame, p, a) == Run(code, frame, p + 1, hi);
    if hi != High4(addresses[i]) {
      assert Run(code, frame, p + 1, hi) == Run(code, frame, p + 4, hi);
    } else {
      assert Run(code, frame, p + 1, hi) == Run(code, frame, p + 2, hi) == Run(code, frame, p + 3, lo);
      if lo != Low2(addresses[i]) {
        assert Run(code, frame, p + 3, lo) == Run(code, frame, p + 4, lo);
      } else if n - i <= MAX_ADDRESSES + 1 {
        assert p + 4 + ToAccept(n, p + 3) == 4 * n + 4;
        assert Run(code, frame, p + 3, lo) == Run(code, frame, 4 * n + 4, lo);
      }
    }
  }

  /** From block `i` on, the program accepts exactly the frames addressed to one of the rest. */
  lemma {:induction false} BlocksRun(addresses: seq<Address>, frame: seq<Byte>, i: nat, a: nat)
    requires i <= |addresses| && |frame| >= 6
    ensures var code := Program(addresses, false);
            && (Destination(frame) in addresses[i..] && |addresses| - i <= MAX_ADDRESSES + 1 ==>
                  Run(code, frame, 3 + 4 * i, a) == Keep(0xffff))
            && (Destination(frame) !in addresses[i..] ==> Run(code, frame, 3 + 4 * i, a) == Keep(0))
    decreases |addresses| - i
  {
    var code := Program(addresses, false);
    ProgramAt(addresses, i);
    if i < |addresses| {
      BlockRun(addresses, frame, i, a);
      assert addresses[i..] == [addresses[i]] + addresses[i + 1..];
      if addresses[i] != Destination(frame) {
        BlocksRun(addresses, frame, i + 1, AfterBlock(addresses[i], frame));
      }
    }
  }

  lemma PrologueRun(addresses: seq<Address>, frame: seq<Byte>)
    requires |frame| >= 6
    ensures var code, n, bit := Program(addresses, false), |addresses|, frame[0] % 2;
            Run(code, frame, 0, 0) == Run(code, frame, 3 + (if bit == 0 then 0 else ToAccept(n, 2)), bit)
  {
    var code, n, bit := Program(addresses, false), |addresses|, frame[0] % 2;
    ProgramAt(addresses, 0);
    assert Load(frame, 0, 1) == frame[0] by { assert Load(frame, 0, 0) == 0; }
    LowBit(frame[0]);
    assert Run(code, frame, 0, 0) == Run(code, frame, 1, frame[0]) == Run(code, frame, 2, bit);
  }

  lemma UnicastCorrect(addresses: seq<Address>, frame: seq<Byte>)
    requires |addresses| <= MAX_ADDRESSES && |frame| >= 6 && frame[0] % 2 == 0
    ensures Run(Program(addresses, false), frame, 0, 0)
         == if Destination(frame) in addresses then Keep(0xffff) else Keep(0)
  {
    PrologueRun(addresses, frame);
    BlocksRun(addresses, frame, 0, 0);
    assert addresses[0..] == addresses;
  }

  lemma JumpFits(n: nat)
    requires n <= MAX_ADDRESSES
    ensures 3 + ToAccept(n, 2) == 4 * n + 4
  {
  }

  lemma MulticastCorrect(addresses: seq<Address>, frame: seq<Byte>)
    requires |addresses| <= MAX_ADDRESSES && |frame| >= 6 && frame[0] % 2 == 1
    ensures Run(Program(addresses, false), frame, 0, 0) == Keep(0xffff)
  {
    hide ToAccept, Program;
    PrologueRun(addresses, frame);
    ProgramAt(addresses, 0);
    JumpFits(|addresses|);
  }

  /** The compiled program decides exactly the wanted frames, for every list the jumps can span. */
  lemma ProgramCorrect(addresses: seq<Address>, promiscuous: bool, frame: seq<Byte>)
    requires |addresses| <= MAX_ADDRESSES && |frame| >= 6
    ensures Run(Program(addresses, promiscuous), frame, 0, 0).Keep?
    ensures Passes(Program(addresses, promiscuous), frame) <==> promiscuous || Wanted(addresses, frame)
  {
    if promiscuous {
      assert Program(addresses, promiscuous)[0] == ACCEPT;
    } else if frame[0] % 2 == 0 {
      UnicastCorrect(addresses, frame);
    } else {
      MulticastCorrect(addresses, frame);
    }
  }

  /** The kernel takes every program within the bound: all jumps forward and inside. */
  lemma ProgramWellFormed(addresses: seq<Address>, promiscuous: bool)
    requires |addresses| <= MAX_ADDRESSES
    ensures WellFormed(Program(addresses, promiscuous))
  {
    var code, n := Program(addresses, promiscuous), |addresses|;
    if !promiscuous {
      forall pc {:trigger code[pc]} | 0 <= pc < |code| && code[pc].op == JumpEqual
        ensures pc + 1 + code[pc].jt < |code| && pc + 1 + code[pc].jf < |code|
      {
        if 3 <= pc < 3 + 4 * n {
          var i := (pc - 3) / 4;
          ProgramAt(addresses, i);
          assert code[pc] == code[3 + 4 * i..7 + 4 * i][(pc - 3) % 4];
        } else {
          ProgramAt(addresses, 0);
        }
      }
    }
  }

  // --- the bound is exact ----------------------------------------------------

  ghost function Below(n: nat): (r: set<nat>)
    ensures |r| == n && forall v: nat :: v in r <==> v < n
  {
    if n == 0 then {} else Below(n - 1) + {n - 1}
  }

  ghost function Elements(values: seq<nat>): (r: set<nat>)
    ensures |r| <= |values| && forall v :: v in r <==> v in values
  {
    if values == [] then {} else Elements(values[1..]) + {values[0]}
  }

  lemma {:induction false} SubsetSize(a: set<nat>, b: set<nat>)
    requires a <= b
    ensures |a| <= |b|
  {
    if a != {} {
      var x :| x in a;
      SubsetSize(a - {x}, b - {x});
    }
  }

  /** A list shorter than `limit` misses a value below `limit`. */
  lemma Missing(values: seq<nat>, limit: nat) returns (v: nat)
    requires |values| < limit
    ensures v < limit && v !in values
  {
    if Below(limit) <= Elements(values) {
      SubsetSize(Below(limit), Elements(values));
    }
    v :| v in Below(limit) && v !in Elements(values);
  }

  function Lows(addresses: seq<Address>): (r: seq<nat>)
    ensures |r| == |addresses| && forall i :: 0 <= i < |r| ==> r[i] == Low2(addresses[i])
  {
    seq(|addresses|, i requires 0 <= i < |addresses| => Low2(addresses[i]))
  }

  lemma JumpWraps(n: nat)
    ensures 3 + ToAccept(n, 2) == 4 + 4 * (n % 64)
  {
    assert 4 * n + 1 == 4 * (n % 64) + 1 + 0x100 * (n / 64);
  }

  /** A run entering block `i` past its load, with the multicast bit in the accumulator. */
  lemma EnterPastLoad(addresses: seq<Address>, frame: seq<Byte>, i: nat) returns (a: nat)
    requires i < |addresses| && |frame| >= 6
    requires Low2(Destination(frame)) != Low2(addresses[i])
    ensures var code := Program(addresses, false);
            Run(code, frame, 4 + 4 * i, 1) == Run(code, frame, 7 + 4 * i, a)
  {
    var code, p, lo := Program(addresses, false), 3 + 4 * i, Load(frame, 4, 2);
    BlockInsns(addresses, i);
    LoadPrefix(frame, 6, 4, 2);
    if High4(addresses[i]) == 1 {
      a := lo;
      assert Run(code, frame, p + 1, 1) == Run(code, frame, p + 2, 1) == Run(code, frame, p + 3, lo);
      assert Run(code, frame, p + 3, lo) == Run(code, frame, p + 4, lo);
    } else {
      a := 1;
    }
  }

  /** With more addresses the multicast jump wraps into a block, and a multicast frame is dropped. */
  lemma OverlongDropsMulticast(addresses: seq<Address>, frame: seq<Byte>)
    requires |addresses| > MAX_ADDRESSES && |frame| >= 6
    requires frame[0] % 2 == 1
    requires Low2(Destination(frame)) !in Lows(addresses)
    ensures !Passes(Program(addresses, false), frame)
  {
    var code, n := Program(addresses, false), |addresses|;
    var m := n % 64;
    assert Lows(addresses)[m] == Low2(addresses[m]);
    PrologueRun(addresses, frame);
    JumpWraps(n);
    var a := EnterPastLoad(addresses, frame, m);
    forall i | 0 <= i < n ensures addresses[i] != Destination(frame) {
      assert Lows(addresses)[i] == Low2(addresses[i]);
    }
    BlocksRun(addresses, frame, m + 1, a);
  }

  ghost predicate Decides(addresses: seq<Address>) {
    forall frame: seq<Byte> :: |frame| >= 6 ==> (Passes(Program(addresses, false), frame) <==> Wanted(addresses, frame))
  }

  /** 63 is exact: the program decides its list if and only if the list has at most 63 addresses. */
  lemma BoundIsExact(addresses: seq<Address>)
    requires |addresses| < 0x1_0000
    ensures Decides(addresses) <==> |addresses| <= MAX_ADDRESSES
  {
    if |addresses| <= MAX_ADDRESSES {
      forall frame: seq<Byte> | |frame| >= 6
        ensures Passes(Program(addresses, false), frame) <==> Wanted(addresses, frame)
      {
        ProgramCorrect(addresses, false, frame);
      }
    } else {
      var v := Missing(Lows(addresses), 0x1_0000);
      var frame: seq<Byte> := [1, 0, 0, 0, v / 0x100, v % 0x100];
      assert Destination(frame) == frame;
      assert Low2(frame) == v by {
        assert Load(frame, 4, 0) == 0 && Load(frame, 4, 1) == v / 0x100;
      }
      OverlongDropsMulticast(addresses, frame);
      assert Wanted(addresses, frame);
    }
  }
}
