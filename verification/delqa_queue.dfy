/** The DELQA's onboard packet queue: what waits for receive buffers. */
module DelqaQueue {
  import opened GuestMemory

  const ETH_MIN_PACKET := 60
  const MAX_RCV_PACKET := 1600
  const READ_QUEUE_MAX := 32
  const NORMAL_MAX := 4

  datatype Kind = Setup | Loopback | Normal | BootRom

  /** A packet waiting for receive buffers; `used` bytes of it are already delivered. */
  datatype Packet = Packet(kind: Kind, data: seq<Byte>, used: nat)

  /** Runts from the wire are padded and giants trimmed before their first segment. */
  function Normalize(p: Packet): Packet {
    if p.kind != Normal || p.used > 0 then p
    else if |p.data| < ETH_MIN_PACKET then p.(data := p.data + seq(ETH_MIN_PACKET - |p.data|, i => 0))
    else if |p.data| > MAX_RCV_PACKET then p.(data := p.data[..MAX_RCV_PACKET])
    else p
  }

  predicate PacketOk(p: Packet) {
    && p.used <= |p.data|
    && (p.kind == Normal && p.used > 0 ==> ETH_MIN_PACKET <= |p.data| <= MAX_RCV_PACKET)
  }

  predicate QueueOk(q: seq<Packet>) {
    forall i :: 0 <= i < |q| ==> PacketOk(q[i])
  }

  /** What is still to be delivered of a packet. */
  function Rest(p: Packet): seq<Byte>
    requires PacketOk(p)
  {
    Normalize(p).data[p.used..]
  }

  // --- queueing ------------------------------------------------------------------

  function Normals(q: seq<Packet>): nat {
    if q == [] then 0 else (if q[0].kind == Normal then 1 else 0) + Normals(q[1..])
  }

  /** What holds of the queue at all times. */
  predicate QueueGood(q: seq<Packet>) {
    QueueOk(q) && |q| <= READ_QUEUE_MAX && Normals(q) <= NORMAL_MAX
  }

  /** The queue without its oldest packet from the wire. */
  function DropOldestNormal(q: seq<Packet>): seq<Packet> {
    if q == [] then [] else if q[0].kind == Normal then q[1..] else [q[0]] + DropOldestNormal(q[1..])
  }

  /** Room for one more packet: wire frames beyond four, then beyond 32 packets in all, push the oldest wire
  frame out. */
  function MakeRoom(q: seq<Packet>, kind: Kind): seq<Packet> {
    var q1 := if kind == Normal && Normals(q) >= NORMAL_MAX then DropOldestNormal(q) else q;
    if |q1| >= READ_QUEUE_MAX then DropOldestNormal(q1) else q1
  }

  /** The queue and loss count after `enqueue_packet`. */
  function Enqueue(q: seq<Packet>, loss: nat, kind: Kind, data: seq<Byte>): (seq<Packet>, nat) {
    var q1 := if kind == Normal && Normals(q) >= NORMAL_MAX then DropOldestNormal(q) else q;
    var full := |q1| >= READ_QUEUE_MAX;
    var q2 := MakeRoom(q, kind);
    (if |q2| >= READ_QUEUE_MAX then q2 else q2 + [Packet(kind, data, 0)], if full then loss + 1 else loss)
  }

  /** A software reset keeps the wire frames, to be delivered from their start, and drops reflections. */
  function AfterReset(q: seq<Packet>): seq<Packet> {
    if q == [] then []
    else (if q[0].kind == Normal then [q[0].(used := 0)] else []) + AfterReset(q[1..])
  }

  function Reflected(q: seq<Packet>): seq<Packet> {
    if q == [] then [] else (if q[0].kind != Normal then [q[0]] else []) + Reflected(q[1..])
  }

  /** The packets from the wire, oldest first. */
  function Wires(q: seq<Packet>): (r: seq<Packet>)
    ensures |r| == Normals(q)
  {
    if q == [] then [] else (if q[0].kind == Normal then [q[0]] else []) + Wires(q[1..])
  }

  /** One step of looking for the oldest wire frame, from the `i`-th packet on. */
  lemma DropNext(q: seq<Packet>, i: nat)
    requires i <= |q|
    ensures q[..i] + DropOldestNormal(q[i..])
         == if i == |q| then q
            else if q[i].kind == Normal then q[..i] + q[i + 1..] else q[..i + 1] + DropOldestNormal(q[i + 1..])
    ensures q[0..] == q
  {
    if i < |q| {
      assert q[i..][0] == q[i] && q[i..][1..] == q[i + 1..];
      assert q[..i + 1] == q[..i] + [q[i]];
    }
  }

  lemma DropOldestWire(q: seq<Packet>)
    ensures Wires(DropOldestNormal(q)) == if Wires(q) == [] then [] else Wires(q)[1..]
  {
    if q != [] && q[0].kind != Normal {
      var rest := DropOldestNormal(q[1..]);
      DropOldestWire(q[1..]);
      assert ([q[0]] + rest)[1..] == rest;
      assert [] + Wires(rest) == Wires(rest);
    }
  }

  lemma DropFacts(q: seq<Packet>)
    ensures Reflected(DropOldestNormal(q)) == Reflected(q)
    ensures Normals(q) > 0 ==> Normals(DropOldestNormal(q)) == Normals(q) - 1 && |DropOldestNormal(q)| == |q| - 1
    ensures Normals(q) == 0 ==> DropOldestNormal(q) == q
    ensures QueueOk(q) ==> QueueOk(DropOldestNormal(q))
  {
    if q != [] {
      DropFacts(q[1..]);
      if q[0].kind != Normal {
        var rest := DropOldestNormal(q[1..]);
        assert ([q[0]] + rest)[1..] == rest;
        if QueueOk(q) { assert QueueOk(q[1..]); }
      }
    }
  }

  lemma CountsOfAppend(q: seq<Packet>, p: Packet)
    ensures Normals(q + [p]) == Normals(q) + (if p.kind == Normal then 1 else 0)
    ensures Reflected(q + [p]) == Reflected(q) + (if p.kind != Normal then [p] else [])
  {
    if q == [] {
      assert q + [p] == [p] && [p][1..] == [];
    } else {
      assert (q + [p])[1..] == q[1..] + [p];
      CountsOfAppend(q[1..], p);
    }
  }

  /** Making room takes only wire frames, the oldest first: at most one too many of them and one for the space.
  Those that stay are the youngest, in their order. */
  lemma RoomKeeps(q: seq<Packet>, kind: Kind)
    requires QueueGood(q)
    ensures var r := MakeRoom(q, kind);
            && QueueOk(r) && |r| <= READ_QUEUE_MAX && Reflected(r) == Reflected(q)
            && |Wires(r)| <= |Wires(q)| <= |Wires(r)| + 2 && Wires(r) == Wires(q)[|Wires(q)| - |Wires(r)|..]
            && Normals(r) <= (if kind == Normal then NORMAL_MAX - 1 else NORMAL_MAX)
            && (|r| == READ_QUEUE_MAX ==> r == q && Normals(r) == 0)
  {
    hide Normals, Reflected, DropOldestNormal, QueueOk, Wires;
    var q1 := if kind == Normal && Normals(q) >= NORMAL_MAX then DropOldestNormal(q) else q;
    DropFacts(q);
    DropFacts(q1);
    DropOldestWire(q);
    DropOldestWire(q1);
    assert Wires(q) == Wires(q)[0..] && Wires(q1) == Wires(q1)[0..];
  }

  lemma QueueOkAppend(q: seq<Packet>, p: Packet)
    requires QueueOk(q) && PacketOk(p)
    ensures QueueOk(q + [p])
  {
  }

  /** The queue never exceeds its limits, and no reflected packet is ever pushed out by a later one; a packet
  is refused, and counted as lost, only by a queue full of reflected packets. */
  lemma EnqueueKeeps(q: seq<Packet>, loss: nat, kind: Kind, data: seq<Byte>)
    requires QueueGood(q)
    ensures var (r, l) := Enqueue(q, loss, kind, data);
            && QueueGood(r)
            && Reflected(q) <= Reflected(r)
            && (r == MakeRoom(q, kind) + [Packet(kind, data, 0)]
                || (r == q && |r| == READ_QUEUE_MAX && Normals(r) == 0 && l == loss + 1))
  {
    hide Normals, Reflected, QueueOk, MakeRoom, DropOldestNormal;
    RoomKeeps(q, kind);
    var p, r := Packet(kind, data, 0), MakeRoom(q, kind);
    if |r| < READ_QUEUE_MAX {
      QueueOkAppend(r, p);
      CountsOfAppend(r, p);
    } else {
      LossCounted(q, loss, kind, data);
    }
  }

  /** What an arrival does to the loss count: a packet that finds 32 queued is counted, whether a wire frame makes way
  for it or it is refused itself - unless it comes from the wire on top of four, when the frame pushed out is counted
  nowhere. */
  lemma LossExact(q: seq<Packet>, loss: nat, kind: Kind, data: seq<Byte>)
    requires QueueGood(q)
    ensures var (r, l) := Enqueue(q, loss, kind, data);
            && l == loss + (if |q| == 32 && !(kind == Normal && Normals(q) == 4) then 1 else 0)
            && (kind == Normal && Normals(q) == 4 ==> r == DropOldestNormal(q) + [Packet(kind, data, 0)] && |r| == |q|)
            && (!(kind == Normal && Normals(q) == 4) && |q| < 32 ==> r == q + [Packet(kind, data, 0)])
  {
    hide DropOldestNormal, Normals, QueueOk;
    DropFacts(q);
  }

  /** The frame that goes is the oldest from the wire: what stays is the queue without it. */
  lemma OldestGoes(q: seq<Packet>, i: nat)
    requires i < |q| && q[i].kind == Normal && forall j :: 0 <= j < i ==> q[j].kind != Normal
    ensures DropOldestNormal(q) == q[..i] + q[i + 1..]
  {
    hide DropOldestNormal;
    PassedOver(q, i);
    DropNext(q, i);
  }

  lemma {:induction false} PassedOver(q: seq<Packet>, i: nat)
    requires i <= |q| && forall j :: 0 <= j < i ==> q[j].kind != Normal
    ensures DropOldestNormal(q) == q[..i] + DropOldestNormal(q[i..])
  {
    hide DropOldestNormal;
    DropNext(q, 0);
    if i > 0 {
      PassedOver(q, i - 1);
      DropNext(q, i - 1);
    }
  }

  lemma LossCounted(q: seq<Packet>, loss: nat, kind: Kind, data: seq<Byte>)
    requires |MakeRoom(q, kind)| >= READ_QUEUE_MAX
    ensures Enqueue(q, loss, kind, data) == (MakeRoom(q, kind), loss + 1)
  {
    DropFacts(q);
    DropFacts(if kind == Normal && Normals(q) >= NORMAL_MAX then DropOldestNormal(q) else q);
  }

  /** Everything a reset keeps is undelivered in full. */
  lemma {:induction false} ResetKeepsWireFrames(q: seq<Packet>)
    ensures Reflected(AfterReset(q)) == [] && QueueOk(AfterReset(q))
    ensures Normals(AfterReset(q)) == |AfterReset(q)| == Normals(q)
    ensures forall i :: 0 <= i < |AfterReset(q)| ==> AfterReset(q)[i].used == 0
  {
    if q != [] {
      ResetKeepsWireFrames(q[1..]);
      var rest := AfterReset(q[1..]);
      if q[0].kind == Normal {
        assert ([q[0].(used := 0)] + rest)[1..] == rest;
      } else {
        assert [] + rest == rest;
      }
    }
  }
}
