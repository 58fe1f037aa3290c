/** The lengths a DELQA receive walk reports, and what they are the lengths of. */
module DelqaLengths {
  import opened GuestMemory
  import opened ByteDma
  import opened DelqaFilter
  import opened DelqaQueue
  import opened DelqaDescriptor
  import opened R = DelqaReceive

  /** The whole of a packet as it is delivered: padded or trimmed, delivered bytes included. */
  function Whole(p: Packet): seq<Byte> { Normalize(p).data }

  /** The same packet, however much of it has been delivered. */
  predicate SamePacket(p: Packet, r: Packet) { p.kind == r.kind && Whole(p) == Whole(r) }

  /** The segments that complete a packet. */
  function Completed(log: seq<Delivery>): seq<Delivery> {
    if log == [] then []
    else
      var d := log[|log| - 1];
      Completed(log[..|log| - 1]) + (if d.Last() then [d] else [])
  }

  /** The address logic answers to the destination a packet begins with. */
  predicate Answered(env: Env, data: seq<Byte>) { |data| >= 6 && Recognised(env.filter, data[..6]) }

  /** The segments in `log` complete packets of `q0`, in order and under their whole length, and leave `q`. */
  predicate Sized(env: Env, q0: seq<Packet>, log: seq<Delivery>, q: seq<Packet>) {
    var ds := Completed(log);
    && |ds| == |Assemble(log).0|
    && |q0| == |ds| + |q|
    && (forall i :: 0 <= i < |ds| ==>
          && ds[i].Last() && ds[i].kind == q0[i].kind && ds[i].length == |Whole(q0[i])|
          && ds[i].cond.recognised == Answered(env, Whole(q0[i])))
    && (q != [] ==> SamePacket(q0[|ds|], q[0]) && q[1..] == q0[|ds| + 1..])
  }

  lemma CompletedNext(log: seq<Delivery>, d: Delivery)
    ensures Completed(log + [d]) == Completed(log) + (if d.Last() then [d] else [])
  {
    assert (log + [d])[..|log|] == log;
  }

  /** A segment is one of the packet at the queue head, and leaves it the same packet. */
  lemma SegmentSized(env: Env, rx: Rx, flags: Word, low: Word, count: Word)
    requires rx.queue != [] && PacketOk(rx.queue[0])
    ensures var d := Segment(env, rx, flags, low, count);
            && d.kind == rx.queue[0].kind && d.length == |Whole(rx.queue[0])|
            && d.cond.recognised == Answered(env, Whole(rx.queue[0]))
            && SamePacket(rx.queue[0], Advanced(rx.queue, d)[0])
  {
  }

  lemma TakenSized(env: Env, q0: seq<Packet>, log: seq<Delivery>, q: seq<Packet>, p: Packet)
    requires q != [] && Sized(env, q0, log, q) && SamePacket(q[0], p)
    ensures Sized(env, q0, log, [p] + q[1..])
  {
    hide Whole, Assemble, Completed;
    assert ([p] + q[1..])[1..] == q[1..];
  }

  lemma ReportedSized(env: Env, q0: seq<Packet>, log: seq<Delivery>, d: Delivery, q: seq<Packet>)
    requires q != [] && Sized(env, q0, log, q) && d.kind == q[0].kind && d.length == |Whole(q[0])|
    requires d.cond.recognised == Answered(env, Whole(q[0]))
    ensures Sized(env, q0, log + [d], if d.Last() then q[1..] else q)
  {
    hide Whole, Assemble, Completed;
    CompletedNext(log, d);
    AssembleNext(log, d);
    var k := |Completed(log)|;
    if d.Last() && q[1..] != [] {
      assert q[1..][0] == q0[k + 1..][0] == q0[k + 1];
      assert q[1..][1..] == q0[k + 1..][1..] == q0[k + 2..];
    }
  }

  lemma DeliverSized(q0: seq<Packet>, env: Env, rx: Rx, flags: Word, low: Word, count: Word)
    requires rx.queue != [] && PacketOk(rx.queue[0]) && Sized(env, q0, rx.log, rx.queue)
    ensures var pass := Deliver(env, rx, flags, low, count); Sized(env, q0, pass.rx.log, pass.rx.queue)
  {
    hide Sized, SamePacket, Whole, Answered, Status1, Status2, Segment, Written, ByteWrite, BytesAnswer, ReadOk;
    var d := Segment(env, rx, flags, low, count);
    var q := Advanced(rx.queue, d);
    SegmentSized(env, rx, flags, low, count);
    TakenSized(env, q0, rx.log, rx.queue, q[0]);
    SameSize(rx.queue[0], q[0]);
    ReportedSized(env, q0, rx.log, d, q);
  }

  lemma SameSize(p: Packet, r: Packet)
    requires SamePacket(p, r)
    ensures p.kind == r.kind && Whole(p) == Whole(r)
  {
  }

  lemma VisitSized(q0: seq<Packet>, env: Env, rx: Rx)
    requires QueueOk(rx.queue) && ReadOk(rx.mem, rx.ba, 2) && Sized(env, q0, rx.log, rx.queue)
    ensures var pass := Visit(env, rx); Sized(env, q0, pass.rx.log, pass.rx.queue)
  {
    hide Sized, Deliver, Decode, Written;
    var order := Decode(Marked(rx).mem, rx.ba, Flags(rx), rx.queue == []);
    if order.Fills? {
      assert PacketOk(rx.queue[0]);
      DeliverSized(q0, env, Marked(rx), order.flags, order.low, order.count);
    }
  }

  lemma {:induction false} WalkSizedFrom(q0: seq<Packet>, env: Env, rx: Rx, start: nat, n: nat)
    requires QueueOk(rx.queue) && n <= MAX_DESCRIPTORS + 1 && Sized(env, q0, rx.log, rx.queue)
    ensures var end := Walk(env, rx, start, n); Sized(env, q0, end.rx.log, end.rx.queue)
    decreases MAX_DESCRIPTORS + 1 - n
  {
    hide Visit, Walk, Sized, QueueOk, ReadOk;
    WalkTurn(env, rx, start, n);
    if ReadOk(rx.mem, rx.ba, 2) && !(n > 0 && rx.ba == start) && n <= MAX_DESCRIPTORS {
      VisitSized(q0, env, rx);
      var pass := Visit(env, rx);
      if pass.More? { WalkSizedFrom(q0, env, pass.rx, start, n + 1); }
    }
  }

  /** A walk completes the packets at the front of its queue, in order, each under its whole length. */
  lemma WalkSized(env: Env, mem: Memory, ba: nat, queue: seq<Packet>, loss: nat)
    requires QueueOk(queue)
    ensures var end := Walk(env, Rx(mem, ba, queue, loss, []), ba, 0); Sized(env, queue, end.rx.log, end.rx.queue)
  {
    hide Walk;
    WalkSizedFrom(queue, env, Rx(mem, ba, queue, loss, []), ba, 0);
  }

  /** What the status words of a completed packet tell the host about the bytes it put together in this walk:
  they are what is missing of the length reported for it when it had been begun before the walk, and all of
  it when it had not. */
  lemma WalkDecodes(env: Env, mem: Memory, ba: nat, queue: seq<Packet>, loss: nat, i: nat)
    requires QueueOk(queue)
    requires i < |Completed(Walk(env, Rx(mem, ba, queue, loss, []), ba, 0).rx.log)|
    ensures var log := Walk(env, Rx(mem, ba, queue, loss, []), ba, 0).rx.log;
            && |Completed(log)| == |Assemble(log).0| <= |queue|
            && var d, got := Completed(log)[i], Assemble(log).0[i];
               var total := |got| + queue[i].used;
               var w1, w2 := Status1(d), Status2(d);
               && d.kind == queue[i].kind && d.length == total
               && d.cond.recognised == Answered(env, Whole(queue[i]))
               && (d.kind == Normal ==>
                     && HostRbl(w1, w2) + ETH_MIN_PACKET == total
                     && (w1 / 0x4000 % 2 == 1 <==> total > ETH_MAX_PACKET && !d.cond.el)
                     && (w1 % 2 == 1 <==> d.cond.loss))
               && (d.kind == Loopback && total < 0x800 && !Runt(d) ==> HostRbl(w1, w2) == total)
  {
    hide Walk, Status1, Status2, HostRbl, Runt, Completed, Assemble;
    var end := Walk(env, Rx(mem, ba, queue, loss, []), ba, 0);
    WalkSized(env, mem, ba, queue, loss);
    WalkConserves(env, mem, ba, queue, loss);
    var d := Completed(end.rx.log)[i];
    assert PacketOk(queue[i]);
    assert Assemble(end.rx.log).0[i] == Rest(queue[i]);
    if d.kind == Normal { NormalDecodes(d); }
    if d.kind == Loopback && d.length < 0x800 && !Runt(d) { LoopbackDecodes(d); }
  }

  // --- the bytes themselves ---------------------------------------------------------

  /** How a packet of these bytes is delivered: a frame from the wire cut to 1600 bytes and followed by zeros up to
  60, any other packet as it is. */
  predicate Framed(kind: Kind, data: seq<Byte>, frame: seq<Byte>) {
    if kind == Normal then
      var n := if |data| > 1600 then 1600 else |data|;
      && |frame| == (if n < 60 then 60 else n) && frame[..n] == data[..n]
      && forall k :: n <= k < |frame| ==> frame[k] == 0
    else frame == data
  }

  lemma WholeFramed(p: Packet)
    requires p.used == 0
    ensures Framed(p.kind, p.data, Whole(p))
  {
  }

  lemma BegunWhole(p: Packet)
    requires PacketOk(p) && p.used > 0
    ensures Whole(p) == p.data
  {
  }

  /** What the host puts together in a walk for each packet completed: the whole packet, framed, if nothing of it had
  been delivered before the walk, otherwise what was left of it. */
  lemma WalkFrames(env: Env, mem: Memory, ba: nat, queue: seq<Packet>, loss: nat, i: nat)
    requires QueueOk(queue) && i < |Assemble(Walk(env, Rx(mem, ba, queue, loss, []), ba, 0).rx.log).0|
    ensures i < |queue| && queue[i].used <= |queue[i].data|
    ensures var got := Assemble(Walk(env, Rx(mem, ba, queue, loss, []), ba, 0).rx.log).0[i];
            if queue[i].used == 0 then Framed(queue[i].kind, queue[i].data, got)
            else got == queue[i].data[queue[i].used..]
  {
    hide Walk, Assemble, Framed, Normalize;
    WalkConserves(env, mem, ba, queue, loss);
    var p := queue[i];
    assert PacketOk(p);
    if p.used == 0 {
      WholeFramed(p);
      assert Whole(p)[0..] == Whole(p);
    } else {
      BegunWhole(p);
    }
  }

  // --- what the status bits go by ------------------------------------------------------

  /** The segments a walk adds: the first bears the loss, if there was any, the others none; all bear the controller's
  modes, and whether its address logic answers to the packet's destination. */
  predicate Conditioned(env: Env, loss: nat, log: seq<Delivery>) {
    forall k :: 0 <= k < |log| ==>
      log[k].cond.el == env.el && log[k].cond.re == env.re && (log[k].cond.loss <==> k == 0 && loss != 0)
  }

  lemma {:induction false} WalkConditioned(env: Env, loss: nat, rx: Rx, start: nat, n: nat)
    requires QueueOk(rx.queue) && n <= MAX_DESCRIPTORS + 1
    requires Conditioned(env, loss, rx.log) && rx.loss == (if rx.log == [] then loss else 0)
    ensures var end := Walk(env, rx, start, n);
            && Conditioned(env, loss, end.rx.log)
            && (end.rx.loss == 0 || (end.rx.loss == loss && end.rx.log == []))
    decreases MAX_DESCRIPTORS + 1 - n
  {
    hide Visit, Walk, QueueOk, ReadOk;
    WalkTurn(env, rx, start, n);
    if ReadOk(rx.mem, rx.ba, 2) && !(n > 0 && rx.ba == start) && n <= MAX_DESCRIPTORS {
      VisitConditioned(env, loss, rx);
      var pass := Visit(env, rx);
      if pass.More? { WalkConditioned(env, loss, pass.rx, start, n + 1); }
    }
  }

  lemma VisitConditioned(env: Env, loss: nat, rx: Rx)
    requires QueueOk(rx.queue) && ReadOk(rx.mem, rx.ba, 2)
    requires Conditioned(env, loss, rx.log) && rx.loss == (if rx.log == [] then loss else 0)
    ensures var pass := Visit(env, rx);
            && Conditioned(env, loss, pass.rx.log)
            && (pass.More? ==> pass.rx.loss == (if pass.rx.log == [] then loss else 0))
            && (pass.rx.loss == 0 || (pass.rx.loss == loss && pass.rx.log == []))
  {
    hide Deliver, Decode, Written, Segment;
    var order := Decode(Marked(rx).mem, rx.ba, Flags(rx), rx.queue == []);
    if order.Fills? {
      assert PacketOk(rx.queue[0]);
      DeliverConditioned(env, Marked(rx), order.flags, order.low, order.count);
    }
  }

  lemma DeliverConditioned(env: Env, rx: Rx, flags: Word, low: Word, count: Word)
    requires rx.queue != [] && PacketOk(rx.queue[0])
    ensures var pass, d := Deliver(env, rx, flags, low, count), Segment(env, rx, flags, low, count);
            && d.cond.el == env.el && d.cond.re == env.re && (d.cond.loss <==> rx.loss != 0)
            && pass.rx.loss == 0 && pass.rx.log == rx.log + (if pass.More? then [d] else [])
  {
    hide Status1, Status2, Advanced, Written, ByteWrite, BytesAnswer, ReadOk;
    assert rx.log + [] == rx.log;
  }

  /** The loss bit as the host reads it. */
  predicate TellsLoss(d: Delivery) { Status1(d) % 2 == 1 && !HostMore(Status1(d)) }

  /** Frames lost before a walk are told by the status of its first segment if that completes a packet; if it does not,
  the count is cleared all the same, and nothing tells them. */
  lemma LossTold(env: Env, mem: Memory, ba: nat, queue: seq<Packet>, loss: nat)
    requires QueueOk(queue)
    ensures var end := Walk(env, Rx(mem, ba, queue, loss, []), ba, 0);
            var log := end.rx.log;
            && (forall k :: 0 <= k < |log| && log[k].kind != BootRom ==>
                  (TellsLoss(log[k]) <==> k == 0 && loss != 0 && log[0].Last()))
            && (log != [] ==> end.rx.loss == 0)
  {
    hide Walk, TellsLoss;
    var log := Walk(env, Rx(mem, ba, queue, loss, []), ba, 0).rx.log;
    WalkConditioned(env, loss, Rx(mem, ba, queue, loss, []), ba, 0);
    forall k | 0 <= k < |log| && log[k].kind != BootRom
      ensures TellsLoss(log[k]) <==> log[k].cond.loss && log[k].Last()
    {
      LossBit(log[k]);
    }
  }

  lemma LossBit(d: Delivery)
    requires d.kind != BootRom
    ensures TellsLoss(d) <==> d.cond.loss && d.Last()
  {
    MoreDecodes(d);
  }
}
