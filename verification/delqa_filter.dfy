/** The DELQA's address filter: what a setup packet loads, what the address
logic answers to, what datagram reception takes, and how the three filter
layers (kernel program, unlocked fast reject, locked check) fit together. */
module DelqaFilter {
  import opened EtherFilter

  const FILTER_MAX := 14

  const ZERO: Address := [0, 0, 0, 0, 0, 0]
  const BROADCAST: Address := [0xff, 0xff, 0xff, 0xff, 0xff, 0xff]
  const NO_ADDRESSES: seq<Address> := seq(FILTER_MAX, i => ZERO)

  type Macs = m: seq<Address> | |m| == FILTER_MAX
    witness NO_ADDRESSES

  /** The station address PROM and the setup RAM. */
  datatype Filter = Filter(station: Address, valid: bool, macs: Macs, promiscuous: bool, allMulticast: bool)

  // --- what the layers decide ------------------------------------------------

  /** The index of the first setup entry with a clear multicast bit, or 14. */
  function FirstUnicast(macs: seq<Address>): (i: nat)
    ensures i <= |macs|
    ensures forall j :: 0 <= j < i ==> Multicast(macs[j])
    ensures i < |macs| ==> !Multicast(macs[i])
  {
    if macs == [] || !Multicast(macs[0]) then 0 else FirstUnicast(macs[1..]) + 1
  }

  /** The one physical address datagram reception answers to. */
  function ActivePhysical(f: Filter): Address {
    var i := FirstUnicast(f.macs);
    if f.valid && i < FILTER_MAX then f.macs[i] else f.station
  }

  predicate Recognised(f: Filter, dst: Address) {
    if !f.valid then dst == f.station || dst == BROADCAST
    else f.promiscuous || (Multicast(dst) && f.allMulticast) || dst == f.station || dst in f.macs
  }

  /** A frame this station sent itself. */
  predicate Own(f: Filter, src: Address) {
    if f.valid then src == ActivePhysical(f) || (!Multicast(src) && src in f.macs) else src == f.station
  }

  predicate Receives(f: Filter, dst: Address) {
    if !f.valid then dst == f.station || dst == BROADCAST
    else
      || f.promiscuous
      || (Multicast(dst) && f.allMulticast)
      || dst == ActivePhysical(f)
      || (Multicast(dst) && dst in f.macs)
  }

  predicate Loopback(il: bool, el: bool) { !il || el }

  /** What the receive logic takes off the wire, without any of the shortcuts. */
  predicate Takes(f: Filter, il: bool, el: bool, connector: bool, frame: seq<Byte>) {
    && |frame| >= 12
    && !connector
    && !Loopback(il, el)
    && Receives(f, frame[..6])
    && !Own(f, frame[6..12])
  }

  /** The setup entries the kernel filter needs besides the station address. */
  function KernelEntries(station: Address, macs: seq<Address>): (r: seq<Address>)
    ensures |r| <= |macs|
    ensures forall a :: a in r <==> a in macs && a != ZERO && !Multicast(a) && a != station
  {
    if macs == [] then []
    else
      var m := macs[|macs| - 1];
      assert macs == macs[..|macs| - 1] + [m];
      var rest := KernelEntries(station, macs[..|macs| - 1]);
      if m == ZERO || Multicast(m) || m == station then rest else rest + [m]
  }

  function KernelList(f: Filter): (r: seq<Address>)
    ensures |r| <= FILTER_MAX + 1
  {
    [f.station] + (if f.valid then KernelEntries(f.station, f.macs) else [])
  }

  function KernelProgram(f: Filter): seq<Insn> {
    Program(KernelList(f), f.valid && f.promiscuous)
  }

  // --- setup packets ---------------------------------------------------------

  /** Where byte `j` of address `n` lies in a setup packet. */
  function SetupOffset(n: nat, j: nat): nat {
    (if n < 7 then n + 0x01 else n - 7 + 0x41) + 8 * j
  }

  function SetupByte(buf: seq<Byte>, n: nat, j: nat): Byte {
    if SetupOffset(n, j) < |buf| then buf[SetupOffset(n, j)] else 0
  }

  function SetupMacs(buf: seq<Byte>): Macs {
    seq(FILTER_MAX, n requires n >= 0 => seq(6, j requires j >= 0 => SetupByte(buf, n, j)))
  }

  /** The filter a setup packet loads; the modes ride in its length. */
  function AfterSetup(f: Filter, buf: seq<Byte>): Filter {
    f.(valid := true, macs := SetupMacs(buf), allMulticast := |buf| % 2 == 1, promiscuous := |buf| / 2 % 2 == 1)
  }

  /** The byte a host puts at offset `o` of the packet that names `macs`. */
  function HostByte(macs: Macs, o: nat): Byte {
    var column, row := o % 8, o / 8;
    if column == 0 then 0
    else if row < 6 then macs[column - 1][row]
    else if 8 <= row < 14 then macs[column - 1 + 7][row - 8]
    else 0
  }

  /** The setup packet a host builds: a 128-byte table, lengthened to ask for the modes. */
  function HostPacket(macs: Macs, allMulticast: bool, promiscuous: bool): (buf: seq<Byte>)
    ensures |buf| == 128 + (if allMulticast then 1 else 0) + (if promiscuous then 2 else 0)
  {
    seq(128 + (if allMulticast then 1 else 0) + (if promiscuous then 2 else 0), o requires o >= 0 => HostByte(macs, o))
  }

  lemma OffsetInverse(macs: Macs, n: nat, j: nat)
    requires n < FILTER_MAX && j < 6
    ensures SetupOffset(n, j) < 128 && HostByte(macs, SetupOffset(n, j)) == macs[n][j]
  {
    var o := SetupOffset(n, j);
    if n < 7 {
      assert o == 8 * j + (n + 1) && n + 1 < 8;
    } else {
      assert o == 8 * (j + 8) + (n - 6) && n - 6 < 8;
    }
  }

  /** A setup packet loads exactly the addresses and modes its host put in. */
  lemma SetupRoundTrip(f: Filter, macs: Macs, allMulticast: bool, promiscuous: bool)
    ensures AfterSetup(f, HostPacket(macs, allMulticast, promiscuous))
         == Filter(f.station, true, macs, promiscuous, allMulticast)
  {
    var buf := HostPacket(macs, allMulticast, promiscuous);
    forall n | 0 <= n < FILTER_MAX ensures SetupMacs(buf)[n] == macs[n] {
      forall j | 0 <= j < 6 ensures SetupMacs(buf)[n][j] == macs[n][j] {
        OffsetInverse(macs, n, j);
      }
    }
    assert SetupMacs(buf) == macs;
  }

  // --- the layers nest ---------------------------------------------------------

  /** Datagram reception is within what the address logic answers to. */
  lemma ReceivesIsRecognised(f: Filter, dst: Address)
    requires Receives(f, dst)
    ensures Recognised(f, dst)
  {
  }

  /** Which destinations a controller receives once a host has programmed it: all of them in promiscuous mode, multicast
  ones in that mode or by an entry, and otherwise one physical address: the first entry that is not multicast, or the
  station's if every entry is. */
  lemma ReceivesExactly(f: Filter, macs: Macs, allMulticast: bool, promiscuous: bool, dst: Address)
    ensures Receives(AfterSetup(f, HostPacket(macs, allMulticast, promiscuous)), dst) <==>
              || promiscuous
              || (Multicast(dst) && (allMulticast || dst in macs))
              || (exists i :: 0 <= i < FILTER_MAX && macs[i] == dst && !Multicast(dst)
                              && forall j :: 0 <= j < i ==> Multicast(macs[j]))
              || (dst == f.station && forall j :: 0 <= j < FILTER_MAX ==> Multicast(macs[j]))
  {
    hide AfterSetup, HostPacket;
    SetupRoundTrip(f, macs, allMulticast, promiscuous);
    var i := FirstUnicast(macs);
    if i < FILTER_MAX { assert !Multicast(macs[i]); }
  }

  /** Which destinations its address logic answers to, and which sources it takes for its own. */
  lemma AnswersExactly(f: Filter, macs: Macs, allMulticast: bool, promiscuous: bool, a: Address)
    ensures var g := AfterSetup(f, HostPacket(macs, allMulticast, promiscuous));
            && (Recognised(g, a) <==> promiscuous || (Multicast(a) && allMulticast) || a == f.station || a in macs)
            && (!Multicast(a) && a != f.station ==> (Own(g, a) <==> a in macs))
            && (Multicast(a) && !Multicast(f.station) ==> !Own(g, a))
            && (Own(g, f.station) <==> (f.station in macs && !Multicast(f.station))
                                       || forall j :: 0 <= j < FILTER_MAX ==> Multicast(macs[j]))
  {
    hide AfterSetup, HostPacket;
    SetupRoundTrip(f, macs, allMulticast, promiscuous);
  }

  /** Before the first setup packet: the station address and broadcast, and no frame of its own. */
  lemma UnprogrammedExactly(f: Filter, a: Address)
    requires !f.valid
    ensures Receives(f, a) == Recognised(f, a) == (a == f.station || a == [0xff, 0xff, 0xff, 0xff, 0xff, 0xff])
    ensures Own(f, a) <==> a == f.station
  {
  }

  /** Of the frames the controller takes, the kernel program keeps away exactly the unicast ones
  addressed to all zeros: the setup table leaves such entries out. */
  lemma KernelKeepsTaken(f: Filter, il: bool, el: bool, connector: bool, frame: seq<Byte>)
    requires Takes(f, il, el, connector, frame)
    ensures Passes(KernelProgram(f), frame)
       <==> frame[..6] != ZERO || (f.valid && f.promiscuous) || f.station == ZERO
  {
    ProgramCorrect(KernelList(f), f.valid && f.promiscuous, frame);
    assert Destination(frame) == frame[..6];
  }

  /** The kernel takes every program the controller builds. */
  lemma KernelProgramFits(f: Filter)
    ensures WellFormed(KernelProgram(f))
  {
    ProgramWellFormed(KernelList(f), f.valid && f.promiscuous);
  }

  /** A zeroed first setup entry is the active physical address: such a frame is taken, yet never gets past the
  kernel. */
  lemma ZeroDestinationLost(f: Filter, frame: seq<Byte>)
    requires f.valid && !f.promiscuous && f.macs[0] == ZERO && f.station != ZERO
    requires |frame| >= 12 && frame[..6] == ZERO && !Own(f, frame[6..12])
    ensures Takes(f, true, false, false, frame) && !Passes(KernelProgram(f), frame)
  {
    assert FirstUnicast(f.macs) == 0;
    KernelKeepsTaken(f, true, false, false, frame);
  }

  lemma NoEntries(station: Address)
    ensures KernelEntries(station, []) == []
  {
  }

  lemma EntriesNext(station: Address, macs: seq<Address>, i: nat)
    requires i < |macs|
    ensures KernelEntries(station, macs[..i + 1])
         == KernelEntries(station, macs[..i])
          + (if macs[i] == ZERO || Multicast(macs[i]) || macs[i] == station then [] else [macs[i]])
  {
    assert macs[..i + 1][..i] == macs[..i];
  }

  // --- the code -----------------------------------------------------------------

  class AddressLogic {
    var station: Address
    var valid: bool
    var macs: Macs
    var promiscuous: bool
    var allMulticast: bool
    var program: seq<Insn>

    function Table(): Filter
      reads this
    {
      Filter(station, valid, macs, promiscuous, allMulticast)
    }

    constructor (prom: Address)
      ensures Table() == Filter(prom, false, NO_ADDRESSES, false, false)
      ensures program == KernelProgram(Table())
    {
      station := prom;
      valid, promiscuous, allMulticast := false, false, false;
      macs := NO_ADDRESSES;
      program := Program([prom], false);
    }

    method ActivePhysicalAddress() returns (a: Address)
      ensures a == ActivePhysical(Table())
    {
      if valid {
        var i := 0;
        while i < FILTER_MAX
          invariant 0 <= i <= FILTER_MAX
          invariant forall j :: 0 <= j < i ==> Multicast(macs[j])
        {
          if !Multicast(macs[i]) { return macs[i]; }
          i := i + 1;
        }
      }
      return station;
    }

    method InTable(a: Address) returns (found: bool)
      ensures found == (a in macs)
    {
      found := false;
      var i := 0;
      while i < FILTER_MAX && !found
        invariant 0 <= i <= FILTER_MAX
        invariant found == (a in macs[..i])
      {
        if a == macs[i] { found := true; }
        i := i + 1;
      }
      assert i == FILTER_MAX ==> macs[..i] == macs;
    }

    method AddressRecognised(dst: Address) returns (r: bool)
      ensures r == Recognised(Table(), dst)
    {
      if !valid { return dst == station || dst == BROADCAST; }
      if promiscuous { return true; }
      if Multicast(dst) && allMulticast { return true; }
      if dst == station { return true; }
      r := InTable(dst);
    }

    /** The locked half of `bridge_accept`. */
    method LockedCheck(dst: Address, src: Address) returns (accept: bool)
      ensures accept == (Receives(Table(), dst) && !Own(Table(), src))
    {
      accept := false;
      if valid {
        var phys := ActivePhysicalAddress();
        var own := src == phys;
        if !own && !Multicast(src) { own := InTable(src); }
        if !own {
          if promiscuous {
            accept := true;
          } else if Multicast(dst) && allMulticast {
            accept := true;
          } else if dst == phys {
            accept := true;
          } else if Multicast(dst) {
            accept := InTable(dst);
          }
        }
      } else if src != station && (dst == station || dst == BROADCAST) {
        accept := true;
      }
    }

    /** `bridge_accept`: the fast reject in front of the locked check changes no verdict. */
    method BridgeAccept(frame: seq<Byte>, il: bool, el: bool, connector: bool) returns (accept: bool)
      ensures accept == Takes(Table(), il, el, connector, frame)
    {
      if |frame| < 12 { return false; }
      var dst: Address, src: Address := frame[..6], frame[6..12];
      if connector { return false; }
      if !il || el { return false; }
      if !Multicast(dst) && !promiscuous {
        var ours := dst == station;
        if !ours { ours := InTable(dst); }
        if !ours { return false; }
      }
      accept := LockedCheck(dst, src);
    }

    /** `update_bridge_filter`: the list of physical addresses, compiled. */
    method UpdateBridgeFilter()
      modifies this`program
      ensures program == KernelProgram(Table())
    {
      hide KernelEntries, Program, Multicast;
      var addresses := [station];
      if valid {
        var i := 0;
        NoEntries(station);
        while i < FILTER_MAX
          invariant 0 <= i <= FILTER_MAX
          invariant addresses == [station] + KernelEntries(station, macs[..i])
        {
          var m := macs[i];
          var empty := m == ZERO;
          EntriesNext(station, macs, i);
          i := i + 1;
          if empty || Multicast(m) || m == station { continue; }
          addresses := addresses + [m];
        }
        assert macs[..i] == macs;
      }
      assert addresses == KernelList(Table());
      program := EtherReceiveFilter(addresses, valid && promiscuous);
    }

    /** `process_setup`: loads the table and the modes, then re-aims the kernel filter. */
    method ProcessSetup(buf: seq<Byte>)
      modifies this
      ensures Table() == AfterSetup(old(Table()), buf)
      ensures program == KernelProgram(Table())
    {
      var table: seq<seq<Byte>> := seq(FILTER_MAX, i => [0, 0, 0, 0, 0, 0]);
      var i := 0;
      while i < 7
        invariant 0 <= i <= 7 && |table| == FILTER_MAX && station == old(station)
        invariant forall n :: 0 <= n < FILTER_MAX ==> |table[n]| == 6
        invariant forall n :: 0 <= n < FILTER_MAX && n % 7 < i ==> table[n] == SetupMacs(buf)[n]
        invariant forall n :: 0 <= n < FILTER_MAX && n % 7 >= i ==> table[n] == ZERO
      {
        table := LoadRow(buf, table, i);
        i := i + 1;
      }
      assert forall n :: 0 <= n < FILTER_MAX ==> n % 7 < 7;
      assert table == SetupMacs(buf);
      macs := table;
      allMulticast := |buf| % 2 == 1;
      promiscuous := |buf| / 2 % 2 == 1;
      valid := true;
      UpdateBridgeFilter();
    }

    /** Rows `i` and `i + 7` of the table. */
    method LoadRow(buf: seq<Byte>, was: seq<seq<Byte>>, i: nat) returns (table: seq<seq<Byte>>)
      requires i < 7 && |was| == FILTER_MAX && was[i] == ZERO && was[i + 7] == ZERO
      ensures table == was[i := SetupMacs(buf)[i]][i + 7 := SetupMacs(buf)[i + 7]]
    {
      var lower: seq<Byte>, upper: seq<Byte> := ZERO, ZERO;
      var j := 0;
      while j < 6
        invariant 0 <= j <= 6 && |lower| == 6 && |upper| == 6
        invariant forall k :: 0 <= k < 6 ==> lower[k] == if k < j then SetupByte(buf, i, k) else 0
        invariant forall k :: 0 <= k < 6 ==> upper[k] == if k < j then SetupByte(buf, i + 7, k) else 0
      {
        var lo := i + 0x01 + j * 8;
        if lo < |buf| { lower := lower[j := buf[lo]]; }
        var hi := i + 0x41 + j * 8;
        if hi < |buf| { upper := upper[j := buf[hi]]; }
        j := j + 1;
      }
      assert lower == SetupMacs(buf)[i] && upper == SetupMacs(buf)[i + 7];
      table := was[i := lower][i + 7 := upper];
    }

    /** The part of a software reset that concerns the filter: the table survives, the modes do not. */
    method ResetModes()
      modifies this
      ensures Table() == old(Table()).(promiscuous := false, allMulticast := false)
      ensures program == KernelProgram(Table())
    {
      promiscuous, allMulticast := false, false;
      UpdateBridgeFilter();
    }
  }
}
