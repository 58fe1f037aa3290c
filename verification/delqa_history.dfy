/** What a DELQA host gets over a whole run: walks over whatever memory holds at the time, arrivals and resets in
any order.  Every packet carries the pieces taken from it since it was last undelivered in full, those whose
words answered and those a timeout tore. */
module DelqaHistory {
  import opened GuestMemory
  import opened DelqaQueue
  import opened DelqaDescriptor
  import opened DelqaMemory
  import opened DelqaFaults
  import opened DelqaLengths
  import opened R = DelqaReceive

  // --- pieces ------------------------------------------------------------------

  datatype Piece = Piece(bytes: seq<Byte>, landed: bool)

  /** All that was taken. */
  function Joined(ps: seq<Piece>): seq<Byte> {
    if ps == [] then [] else Joined(ps[..|ps| - 1]) + ps[|ps| - 1].bytes
  }

  /** What of it is in guest memory with a status. */
  function Landed(ps: seq<Piece>): seq<Byte> {
    if ps == [] then []
    else Landed(ps[..|ps| - 1]) + (if ps[|ps| - 1].landed then ps[|ps| - 1].bytes else [])
  }

  /** How many bytes of it were torn. */
  function Torn(ps: seq<Piece>): nat {
    if ps == [] then 0
    else Torn(ps[..|ps| - 1]) + (if ps[|ps| - 1].landed then 0 else |ps[|ps| - 1].bytes|)
  }

  lemma PieceNext(ps: seq<Piece>, p: Piece)
    ensures Joined(ps + [p]) == Joined(ps) + p.bytes
    ensures Landed(ps + [p]) == Landed(ps) + (if p.landed then p.bytes else [])
    ensures Torn(ps + [p]) == Torn(ps) + (if p.landed then 0 else |p.bytes|)
  {
    assert (ps + [p])[..|ps|] == ps;
  }

  /** What was taken is what landed and what was torn; it is what landed exactly if nothing was torn. */
  lemma {:induction false} PiecesAdd(ps: seq<Piece>)
    ensures |Joined(ps)| == |Landed(ps)| + Torn(ps)
    ensures Torn(ps) == 0 <==> Landed(ps) == Joined(ps)
    ensures Torn(ps) == 0 <==> forall i :: 0 <= i < |ps| && !ps[i].landed ==> ps[i].bytes == []
  {
    if ps != [] {
      var k := |ps| - 1;
      PiecesAdd(ps[..k]);
      assert forall i :: 0 <= i < k ==> ps[..k][i] == ps[i];
    }
  }

  // --- one walk ------------------------------------------------------------------

  /** What a walk takes off the queue: packets completed, a packet begun, and what a timeout tore. */
  datatype Gain = Gain(last: seq<Delivery>, done: seq<seq<Byte>>, part: seq<Byte>, torn: seq<Byte>,
                       queue: seq<Packet>, loss: nat)

  /** The torn segment is given by guest memory: that of the last descriptor, if its words do not answer. */
  function GainOf(env: Env, mem: Memory, ba: nat, queue: seq<Packet>, loss: nat): Gain
    requires QueueOk(queue)
  {
    var rx := Rx(mem, ba, queue, loss, []);
    var end, place := Walk(env, rx, ba, 0), LastPlace(env, rx, ba, 0);
    var (done, part) := Assemble(end.rx.log);
    Gain(Completed(end.rx.log), done, part, if Tears(env, place, ba) then SegmentAt(env, place.rx).bytes else [],
         end.rx.queue, end.rx.loss)
  }

  predicate Fits(q: seq<Packet>, g: Gain)
    requires QueueOk(q)
  {
    var k := |g.done|;
    && QueueOk(g.queue) && |g.last| == k && |q| == k + |g.queue|
    && (forall i :: 0 <= i < k ==>
          && g.done[i] == Rest(q[i]) && g.last[i].Last()
          && g.last[i].kind == q[i].kind && g.last[i].length == |Whole(q[i])|)
    && (g.queue == [] ==> g.part == [] && g.torn == [])
    && (g.queue != [] ==>
          && Rest(q[k]) == g.part + g.torn + Rest(g.queue[0]) && SamePacket(q[k], g.queue[0])
          && g.queue[1..] == q[k + 1..])
  }

  lemma GainFits(env: Env, mem: Memory, ba: nat, queue: seq<Packet>, loss: nat)
    requires QueueOk(queue)
    ensures Fits(queue, GainOf(env, mem, ba, queue, loss))
  {
    hide Walk, LastPlace, Tears, Rest, Whole, SegmentAt, Assemble, Completed, PacketOk;
    WalkSized(env, mem, ba, queue, loss);
    WalkConserves(env, mem, ba, queue, loss);
    WalkLoses(env, Rx(mem, ba, queue, loss, []), ba, 0);
  }

  // --- the run ---------------------------------------------------------------------

  /** A packet completed: its last segment, what the host put together for it, the packet as it was queued and
  normalized, the pieces taken from it, and what of the host's bytes belongs to packets pushed out of the queue. */
  datatype Receipt = Receipt(last: Delivery, host: seq<Byte>, frame: seq<Byte>, pieces: seq<Piece>,
                             orphans: seq<Byte>)

  /** The queue with its pieces, and the host: what it holds of a packet not completed yet, and what of that belongs
  to packets no longer queued. */
  datatype Station = Station(queue: seq<Packet>, loss: nat, pieces: seq<seq<Piece>>, host: seq<Byte>,
                             orphans: seq<Byte>, receipts: seq<Receipt>)

  datatype Event =
    | Deliver(env: Env, mem: Memory, ba: nat)
    | Arrive(kind: Kind, data: seq<Byte>)
    | Reset

  predicate Accounted(q: seq<Packet>, ps: seq<seq<Piece>>)
    requires QueueOk(q)
  {
    |ps| == |q| && forall i :: 0 <= i < |q| ==> Joined(ps[i]) + Rest(q[i]) == Whole(q[i])
  }

  /** Only the packet at the head can have been begun. */
  predicate HeadOnly(ps: seq<seq<Piece>>) { forall i :: 0 < i < |ps| ==> ps[i] == [] }

  function HeadLanded(ps: seq<seq<Piece>>): seq<Byte> { if ps == [] then [] else Landed(ps[0]) }

  predicate ReceiptOk(r: Receipt) {
    && r.last.Last() && Joined(r.pieces) == r.frame && |r.frame| == r.last.length
    && r.host == r.orphans + Landed(r.pieces)
    && (r.last.kind == Normal ==> ETH_MIN_PACKET <= |r.frame| <= MAX_RCV_PACKET)
  }

  predicate StationOk(s: Station) {
    && QueueGood(s.queue) && Accounted(s.queue, s.pieces) && HeadOnly(s.pieces)
    && s.host == s.orphans + HeadLanded(s.pieces)
    && forall i :: 0 <= i < |s.receipts| ==> ReceiptOk(s.receipts[i])
  }

  // --- a walk's step

  function ReceiptOf(s: Station, g: Gain, i: nat): Receipt
    requires QueueOk(s.queue) && Fits(s.queue, g) && |s.pieces| == |s.queue| && i < |g.done|
  {
    var begun := i == 0;
    Receipt(g.last[i], (if begun then s.host else []) + g.done[i], Whole(s.queue[i]),
            s.pieces[i] + [Piece(g.done[i], true)], if begun then s.orphans else [])
  }

  function Gained(s: Station, g: Gain): Station
    requires QueueOk(s.queue) && Fits(s.queue, g) && |s.pieces| == |s.queue|
  {
    var k := |g.done|;
    Station(
      g.queue, g.loss,
      if g.queue == [] then []
      else [s.pieces[k] + [Piece(g.part, true), Piece(g.torn, false)]] + s.pieces[k + 1..],
      (if k == 0 then s.host else []) + g.part, if k == 0 then s.orphans else [],
      s.receipts + seq(k, i requires 0 <= i < k => ReceiptOf(s, g, i)))
  }

  // --- an arrival's step

  /** Pieces go with their packets. */
  function DropPieces(q: seq<Packet>, ps: seq<seq<Piece>>): seq<seq<Piece>>
    requires |q| == |ps|
  {
    if q == [] then [] else if q[0].kind == Normal then ps[1..] else [ps[0]] + DropPieces(q[1..], ps[1..])
  }

  /** An arrival pushes out the packet at the queue head, begun or not. */
  predicate Evicts(q: seq<Packet>, kind: Kind) {
    && q != [] && q[0].kind == Normal
    && ((kind == Normal && Normals(q) >= NORMAL_MAX) || |q| >= READ_QUEUE_MAX)
  }

  function RoomPieces(q: seq<Packet>, ps: seq<seq<Piece>>, kind: Kind): seq<seq<Piece>>
    requires |q| == |ps|
  {
    DropSizes(q, ps);
    var over := kind == Normal && Normals(q) >= NORMAL_MAX;
    var q1, ps1 := if over then DropOldestNormal(q) else q, if over then DropPieces(q, ps) else ps;
    if |q1| >= READ_QUEUE_MAX then DropPieces(q1, ps1) else ps1
  }

  lemma DropSizes(q: seq<Packet>, ps: seq<seq<Piece>>)
    requires |q| == |ps|
    ensures |DropPieces(q, ps)| == |DropOldestNormal(q)|
  {
  }

  function Arrived(s: Station, kind: Kind, data: seq<Byte>): Station
    requires |s.pieces| == |s.queue|
  {
    var (q, loss) := Enqueue(s.queue, s.loss, kind, data);
    var room := RoomPieces(s.queue, s.pieces, kind);
    s.(queue := q, loss := loss, pieces := if |room| >= READ_QUEUE_MAX then room else room + [[]],
       orphans := if Evicts(s.queue, kind) then s.host else s.orphans)
  }

  /** A reset: the host starts its lists anew and drops what it has begun. */
  function Restarted(s: Station): Station {
    s.(queue := AfterReset(s.queue), loss := 0, pieces := seq(|AfterReset(s.queue)|, i => []), host := [],
       orphans := [])
  }

  function Step(s: Station, e: Event): Station
    requires StationOk(s)
  {
    match e
    case Deliver(env, mem, ba) =>
      GainFits(env, mem, ba, s.queue, s.loss);
      Gained(s, GainOf(env, mem, ba, s.queue, s.loss))
    case Arrive(kind, data) => Arrived(s, kind, data)
    case Reset => Restarted(s)
  }

  // --- every step keeps the account ---------------------------------------------------

  lemma ReceiptHolds(s: Station, g: Gain, i: nat)
    requires StationOk(s) && Fits(s.queue, g) && i < |g.done|
    ensures ReceiptOk(ReceiptOf(s, g, i))
  {
    hide Joined, Landed, Normals;
    PieceNext(s.pieces[i], Piece(g.done[i], true));
    assert PacketOk(s.queue[i]);
    assert i > 0 ==> Landed(s.pieces[i]) == [] by { NothingLanded(s.pieces[i]); }
  }

  /** A packet at the head goes on with what was taken from it. */
  lemma HeadGoesOn(ps: seq<Piece>, p: Packet, part: seq<Byte>, torn: seq<Byte>, r: Packet)
    requires PacketOk(p) && PacketOk(r) && Joined(ps) + Rest(p) == Whole(p)
    requires Rest(p) == part + torn + Rest(r) && SamePacket(p, r)
    ensures var ps1 := ps + [Piece(part, true), Piece(torn, false)];
            Joined(ps1) + Rest(r) == Whole(r) && Landed(ps1) == Landed(ps) + part
  {
    hide Joined, Landed, Rest, Whole;
    var ps0 := ps + [Piece(part, true)];
    PieceNext(ps, Piece(part, true));
    PieceNext(ps0, Piece(torn, false));
    assert ps + [Piece(part, true), Piece(torn, false)] == ps0 + [Piece(torn, false)];
    assert Joined(ps) + (part + torn + Rest(r)) == Joined(ps) + part + torn + Rest(r);
  }

  lemma GainedPieces(s: Station, g: Gain)
    requires StationOk(s) && Fits(s.queue, g)
    ensures var r := Gained(s, g);
            Accounted(r.queue, r.pieces) && HeadOnly(r.pieces) && r.host == r.orphans + HeadLanded(r.pieces)
  {
    hide Joined, Landed, Rest, Whole, Normals, ReceiptOk, PacketOk;
    var r, k := Gained(s, g), |g.done|;
    if g.queue != [] {
      assert PacketOk(s.queue[k]) && PacketOk(g.queue[0]);
      HeadGoesOn(s.pieces[k], s.queue[k], g.part, g.torn, g.queue[0]);
      forall i | 0 < i < |g.queue| ensures Joined(r.pieces[i]) + Rest(g.queue[i]) == Whole(g.queue[i]) {
        assert g.queue[i] == g.queue[1..][i - 1] == s.queue[k + 1..][i - 1] == s.queue[k + i];
        assert r.pieces[i] == s.pieces[k + i];
      }
      if k > 0 { NothingLanded(s.pieces[k]); }
    }
  }

  lemma NothingLanded(ps: seq<Piece>)
    ensures ps == [] ==> Landed(ps) == [] && Joined(ps) == []
  {
  }

  lemma GainedKeeps(s: Station, g: Gain)
    requires StationOk(s) && Fits(s.queue, g) && QueueGood(g.queue)
    ensures StationOk(Gained(s, g))
  {
    hide HeadOnly, HeadLanded, Normals, PacketOk, Joined, Rest, Whole, ReceiptOk, Fits, ReceiptOf;
    GainedPieces(s, g);
    var r, k, n := Gained(s, g), |g.done|, |s.receipts|;
    forall i | 0 <= i < |r.receipts| ensures ReceiptOk(r.receipts[i]) {
      if i >= n {
        ReceiptHolds(s, g, i - n);
        assert r.receipts[i] == ReceiptOf(s, g, i - n);
      } else {
        assert r.receipts[i] == s.receipts[i];
      }
    }
  }

  lemma DropAccounted(q: seq<Packet>, ps: seq<seq<Piece>>)
    requires QueueOk(q) && Accounted(q, ps) && HeadOnly(ps)
    ensures var r, rs := DropOldestNormal(q), DropPieces(q, ps);
            && QueueOk(r) && Accounted(r, rs) && HeadOnly(rs)
            && (q != [] && q[0].kind == Normal ==> r == q[1..] && rs == ps[1..])
            && (q == [] || q[0].kind != Normal ==> HeadLanded(rs) == HeadLanded(ps))
    decreases |q|
  {
    hide Joined, Landed, Rest, Whole, PacketOk;
    if q != [] && q[0].kind != Normal {
      DropAccounted(q[1..], ps[1..]);
      AllEmpty(q[1..], ps[1..]);
    }
  }

  lemma AllEmpty(q: seq<Packet>, ps: seq<seq<Piece>>)
    requires |q| == |ps| && forall i :: 0 <= i < |ps| ==> ps[i] == []
    ensures forall i :: 0 <= i < |DropPieces(q, ps)| ==> DropPieces(q, ps)[i] == []
  {
    if q != [] && q[0].kind != Normal { AllEmpty(q[1..], ps[1..]); }
  }

  lemma RoomAccounted(q: seq<Packet>, ps: seq<seq<Piece>>, kind: Kind)
    requires QueueGood(q) && Accounted(q, ps) && HeadOnly(ps)
    ensures var r, rs := MakeRoom(q, kind), RoomPieces(q, ps, kind);
            && QueueOk(r) && Accounted(r, rs) && HeadOnly(rs)
            && (Evicts(q, kind) ==> r == q[1..] && rs == ps[1..])
            && (!Evicts(q, kind) ==> HeadLanded(rs) == HeadLanded(ps))
  {
    hide HeadOnly, HeadLanded, PacketOk, DropOldestNormal, DropPieces, Normals, Joined, Rest, Whole;
    var over := kind == Normal && Normals(q) >= NORMAL_MAX;
    var q1, ps1 := if over then DropOldestNormal(q) else q, if over then DropPieces(q, ps) else ps;
    DropSizes(q, ps);
    DropFacts(q);
    DropAccounted(q, ps);
    DropAccounted(q1, ps1);
  }

  /** A packet nothing was taken from. */
  lemma FreshAccounted(p: Packet)
    requires p.used == 0
    ensures PacketOk(p) && Joined([]) + Rest(p) == Whole(p) && Landed([]) == []
  {
  }

  lemma AppendAccounted(q: seq<Packet>, ps: seq<seq<Piece>>, p: Packet)
    requires QueueOk(q) && Accounted(q, ps) && HeadOnly(ps) && p.used == 0
    ensures QueueOk(q + [p]) && Accounted(q + [p], ps + [[]]) && HeadOnly(ps + [[]])
    ensures HeadLanded(ps + [[]]) == HeadLanded(ps)
  {
    hide Joined, Rest, Whole, PacketOk;
    FreshAccounted(p);
  }

  lemma ArrivedKeeps(s: Station, kind: Kind, data: seq<Byte>)
    requires StationOk(s)
    ensures var r := Arrived(s, kind, data);
            && StationOk(r) && r.receipts == s.receipts
            && (Evicts(s.queue, kind) ==>
                  r.queue == s.queue[1..] + [Packet(kind, data, 0)] && r.orphans == r.host == s.host
                  && r.pieces != [] && r.pieces[0] == [])
            && (!Evicts(s.queue, kind) ==> r.orphans == s.orphans && r.host == s.host)
  {
    hide Joined, Landed, Rest, Whole, PacketOk, Normals, ReceiptOk, MakeRoom, RoomPieces, Evicts, Reflected;
    var q, ps, p := s.queue, s.pieces, Packet(kind, data, 0);
    RoomAccounted(q, ps, kind);
    EnqueueKeeps(q, s.loss, kind, data);
    NothingLanded([]);
    var room, rs := MakeRoom(q, kind), RoomPieces(q, ps, kind);
    AppendAccounted(room, rs, p);
    if Evicts(q, kind) { RoomBounds(q, kind); }
    EnqueueIs(q, s.loss, kind, data);
    if Evicts(q, kind) {
      assert rs == [] || rs[0] == ps[1] == [];
      assert HeadLanded(rs) == [] && s.host + [] == s.host;
    }
  }

  lemma RoomBounds(q: seq<Packet>, kind: Kind)
    requires QueueGood(q) && Evicts(q, kind) && MakeRoom(q, kind) == q[1..]
    ensures q != [] && |MakeRoom(q, kind)| < READ_QUEUE_MAX
  {
  }

  lemma EnqueueIs(q: seq<Packet>, loss: nat, kind: Kind, data: seq<Byte>)
    ensures var room := MakeRoom(q, kind);
            Enqueue(q, loss, kind, data).0
              == if |room| >= READ_QUEUE_MAX then room else room + [Packet(kind, data, 0)]
  {
  }

  lemma ResetKeeps(s: Station)
    requires StationOk(s)
    ensures StationOk(Restarted(s))
  {
    hide ReceiptOk, AfterReset, Normals, Reflected, Joined, Landed, Rest, Whole;
    var q := AfterReset(s.queue);
    ResetKeepsWireFrames(s.queue);
    assert QueueGood(q);
    forall i | 0 <= i < |q| ensures Joined([]) + Rest(q[i]) == Whole(q[i]) { FreshAccounted(q[i]); }
    NothingLanded([]);
  }

  lemma DeliverKeeps(s: Station, env: Env, mem: Memory, ba: nat)
    requires StationOk(s)
    ensures var g := GainOf(env, mem, ba, s.queue, s.loss); Fits(s.queue, g) && StationOk(Gained(s, g))
  {
    hide Walk, Gained, Fits, LastPlace, Tears, SegmentAt, Assemble, Completed, Accounted, Normals, ReceiptOk,
        HeadLanded;
    GainFits(env, mem, ba, s.queue, s.loss);
    WalkKeepsGood(env, Rx(mem, ba, s.queue, s.loss, []), ba, 0);
    GainedKeeps(s, GainOf(env, mem, ba, s.queue, s.loss));
  }

  /** Every step keeps the account of every packet, and explains every packet it completes. */
  lemma StepKeeps(s: Station, e: Event)
    requires StationOk(s)
    ensures StationOk(Step(s, e))
  {
    hide Accounted, HeadOnly, HeadLanded, ReceiptOk, GainOf, Gained, Arrived, Restarted, Fits, Normals;
    match e
    case Deliver(env, mem, ba) => DeliverKeeps(s, env, mem, ba);
    case Arrive(kind, data) => ArrivedKeeps(s, kind, data);
    case Reset => ResetKeeps(s);
  }

  // --- runs ----------------------------------------------------------------------------

  /** The controller at power-up. */
  function Start(): (s: Station)
    ensures StationOk(s)
  {
    Station([], 0, [], [], [], [])
  }

  /** Where a run of events leads. */
  function Run(es: seq<Event>): (s: Station)
    ensures StationOk(s)
    decreases |es|
  {
    if es == [] then Start()
    else
      StepKeeps(Run(es[..|es| - 1]), es[|es| - 1]);
      Step(Run(es[..|es| - 1]), es[|es| - 1])
  }

  /** Whatever the run: the length the host decodes for a packet from the wire counts the bytes it got of it and those
  torn since it was last undelivered in full; so it is the number of bytes got exactly if nothing was torn.  What the
  host put together is the bytes got, after those of packets pushed out before it. */
  lemma LengthsExplained(es: seq<Event>, k: nat)
    requires k < |Run(es).receipts| && Run(es).receipts[k].last.kind == Normal
    ensures var r := Run(es).receipts[k];
            var length := HostRbl(Status1(r.last), Status2(r.last)) + ETH_MIN_PACKET;
            && length == |r.frame| == |Landed(r.pieces)| + Torn(r.pieces)
            && (length == |Landed(r.pieces)| <==>
                  forall i :: 0 <= i < |r.pieces| && !r.pieces[i].landed ==> r.pieces[i].bytes == [])
            && (Landed(r.pieces) == r.frame <==> Torn(r.pieces) == 0)
            && r.host == r.orphans + Landed(r.pieces)
            && |r.host| + Torn(r.pieces) == length + |r.orphans|
            && (r.orphans == [] ==> (|r.host| == length <==> r.host == r.frame))
  {
    hide Run, Status1, Status2, HostRbl, Joined, Landed, Torn, Accounted, QueueGood;
    var r := Run(es).receipts[k];
    assert ReceiptOk(r);
    PiecesAdd(r.pieces);
    NormalDecodes(r.last);
    assert [] + Landed(r.pieces) == Landed(r.pieces);
  }

  // --- where the packets come from ---------------------------------------------------------

  /** A packet of this kind has arrived, and this is how its bytes are delivered. */
  predicate Came(es: seq<Event>, kind: Kind, frame: seq<Byte>) {
    exists j :: 0 <= j < |es| && es[j].Arrive? && es[j].kind == kind && Framed(kind, es[j].data, frame)
  }

  /** Every packet queued or completed is one that arrived. */
  predicate Sourced(es: seq<Event>, s: Station) {
    && (forall p :: p in s.queue ==> Came(es, p.kind, Whole(p)))
    && forall r :: r in s.receipts ==> Came(es, r.last.kind, r.frame)
  }

  lemma CameLater(es: seq<Event>, e: Event, kind: Kind, frame: seq<Byte>)
    requires Came(es, kind, frame)
    ensures Came(es + [e], kind, frame)
  {
    var j :| 0 <= j < |es| && es[j].Arrive? && es[j].kind == kind && Framed(kind, es[j].data, frame);
    assert (es + [e])[j] == es[j];
  }

  lemma SourcedLater(es: seq<Event>, e: Event, s: Station)
    requires Sourced(es, s)
    ensures Sourced(es + [e], s)
  {
    hide Came;
    forall p | p in s.queue ensures Came(es + [e], p.kind, Whole(p)) { CameLater(es, e, p.kind, Whole(p)); }
    forall r | r in s.receipts ensures Came(es + [e], r.last.kind, r.frame) { CameLater(es, e, r.last.kind, r.frame); }
  }

  lemma GainedSourced(es: seq<Event>, s: Station, g: Gain)
    requires StationOk(s) && Fits(s.queue, g) && Sourced(es, s)
    ensures Sourced(es, Gained(s, g))
  {
    hide Came, Whole, Rest, Normals, PacketOk, Joined, Landed, ReceiptOk;
    var r, k := Gained(s, g), |g.done|;
    forall p | p in r.queue ensures Came(es, p.kind, Whole(p)) {
      if p != g.queue[0] {
        assert p in g.queue[1..];
        assert p in s.queue[k + 1..];
      } else {
        assert s.queue[k] in s.queue;
      }
    }
    forall t | t in r.receipts ensures Came(es, t.last.kind, t.frame) {
      if t !in s.receipts {
        var i :| 0 <= i < k && t == ReceiptOf(s, g, i);
        assert s.queue[i] in s.queue;
      }
    }
  }

  lemma DropFrom(q: seq<Packet>, p: Packet)
    requires p in DropOldestNormal(q)
    ensures p in q
  {
    if q != [] && q[0].kind != Normal && p != q[0] { DropFrom(q[1..], p); }
  }

  lemma ArrivedSourced(es: seq<Event>, s: Station, kind: Kind, data: seq<Byte>)
    requires Sourced(es, s) && |s.pieces| == |s.queue| && Came(es, kind, Whole(Packet(kind, data, 0)))
    ensures Sourced(es, Arrived(s, kind, data))
  {
    hide Came, Whole, Normals, DropOldestNormal, DropPieces, RoomPieces, Evicts;
    var r := Arrived(s, kind, data);
    var q1 := if kind == Normal && Normals(s.queue) >= NORMAL_MAX then DropOldestNormal(s.queue) else s.queue;
    EnqueueIs(s.queue, s.loss, kind, data);
    forall p | p in r.queue ensures Came(es, p.kind, Whole(p)) {
      if p != Packet(kind, data, 0) {
        if p !in q1 { DropFrom(q1, p); }
        if p !in s.queue { DropFrom(s.queue, p); }
      }
    }
  }

  lemma ResetFrom(q: seq<Packet>, p: Packet)
    requires QueueOk(q) && p in AfterReset(q)
    ensures exists p0 :: p0 in q && SamePacket(p0, p)
  {
    if q[0].kind == Normal && p == q[0].(used := 0) {
      assert PacketOk(q[0]);
      assert q[0] in q && SamePacket(q[0], p);
    } else {
      assert QueueOk(q[1..]) by {
        forall i | 0 <= i < |q[1..]| ensures PacketOk(q[1..][i]) { assert PacketOk(q[i + 1]); }
      }
      ResetFrom(q[1..], p);
    }
  }

  lemma RestartedSourced(es: seq<Event>, s: Station)
    requires StationOk(s) && Sourced(es, s)
    ensures Sourced(es, Restarted(s))
  {
    hide Came, Whole, Normals, AfterReset, PacketOk;
    var r := Restarted(s);
    forall p | p in r.queue ensures Came(es, p.kind, Whole(p)) { ResetFrom(s.queue, p); }
  }

  /** Over any run: every packet completed is one that arrived, framed as its kind is. */
  lemma {:induction false} AllCame(es: seq<Event>)
    ensures Sourced(es, Run(es))
  {
    hide GainOf, Gained, Arrived, Restarted, Fits, Came;
    if es != [] {
      var before, e := es[..|es| - 1], es[|es| - 1];
      var s := Run(before);
      AllCame(before);
      SourcedLater(before, e, s);
      assert before + [e] == es;
      StationQueue(s);
      match e
      case Deliver(env, mem, ba) =>
        GainFits(env, mem, ba, s.queue, s.loss);
        GainedSourced(es, s, GainOf(env, mem, ba, s.queue, s.loss));
      case Arrive(kind, data) =>
        JustCame(es, kind, data);
        ArrivedSourced(es, s, kind, data);
      case Reset => RestartedSourced(es, s);
    }
  }

  lemma JustCame(es: seq<Event>, kind: Kind, data: seq<Byte>)
    requires es != [] && es[|es| - 1] == Arrive(kind, data)
    ensures Came(es, kind, Whole(Packet(kind, data, 0)))
  {
    hide Whole;
    WholeFramed(Packet(kind, data, 0));
  }

  /** No walk of the run tears a byte, and no arrival pushes out a packet of which the host holds some. */
  predicate Undisturbed(es: seq<Event>)
    decreases |es|
  {
    es == []
    || (&& Undisturbed(es[..|es| - 1])
        && var s := Run(es[..|es| - 1]);
           match es[|es| - 1]
           case Deliver(env, mem, ba) => GainOf(env, mem, ba, s.queue, s.loss).torn == []
           case Arrive(kind, data) => Evicts(s.queue, kind) ==> s.host == []
           case Reset => true)
  }

  /** Nothing torn so far, and nothing left of packets pushed out. */
  predicate Intact(s: Station) {
    && s.orphans == [] && (forall i :: 0 <= i < |s.pieces| ==> Torn(s.pieces[i]) == 0)
    && forall i :: 0 <= i < |s.receipts| ==> s.receipts[i].host == s.receipts[i].frame
  }

  lemma GainedIntact(s: Station, g: Gain)
    requires StationOk(s) && Intact(s) && Fits(s.queue, g) && g.torn == []
    ensures Intact(Gained(s, g))
  {
    hide Joined, Landed, Torn, Rest, Whole, Normals, PacketOk;
    var r, k, n := Gained(s, g), |g.done|, |s.receipts|;
    forall i | 0 <= i < |r.receipts| ensures r.receipts[i].host == r.receipts[i].frame {
      if i >= n {
        assert r.receipts[i] == ReceiptOf(s, g, i - n);
        ReceiptIntact(s, g, i - n);
      }
    }
    if g.queue != [] {
      PieceNext(s.pieces[k], Piece(g.part, true));
      PieceNext(s.pieces[k] + [Piece(g.part, true)], Piece([], false));
      assert r.pieces[0] == s.pieces[k] + [Piece(g.part, true)] + [Piece([], false)];
      assert forall i :: 0 < i < |r.pieces| ==> r.pieces[i] == s.pieces[k + i];
    }
  }

  lemma ReceiptIntact(s: Station, g: Gain, i: nat)
    requires StationOk(s) && Intact(s) && Fits(s.queue, g) && i < |g.done|
    ensures ReceiptOf(s, g, i).host == ReceiptOf(s, g, i).frame
  {
    hide Joined, Landed, Torn, Rest, Whole, Normals, PacketOk;
    var r := ReceiptOf(s, g, i);
    ReceiptHolds(s, g, i);
    PieceNext(s.pieces[i], Piece(g.done[i], true));
    PiecesAdd(r.pieces);
    assert [] + Landed(r.pieces) == Landed(r.pieces);
  }

  lemma DroppedIntact(q: seq<Packet>, ps: seq<seq<Piece>>)
    requires |q| == |ps| && forall i :: 0 <= i < |ps| ==> Torn(ps[i]) == 0
    ensures forall i :: 0 <= i < |DropPieces(q, ps)| ==> Torn(DropPieces(q, ps)[i]) == 0
  {
    hide Torn;
    if q != [] && q[0].kind != Normal { DroppedIntact(q[1..], ps[1..]); }
  }

  lemma ArrivedIntact(s: Station, kind: Kind, data: seq<Byte>)
    requires StationOk(s) && Intact(s) && (Evicts(s.queue, kind) ==> s.host == [])
    ensures Intact(Arrived(s, kind, data))
  {
    hide Torn, Normals, DropPieces, DropOldestNormal, Evicts, Accounted, HeadOnly, HeadLanded;
    var q, ps := s.queue, s.pieces;
    StationSizes(s);
    var over := kind == Normal && Normals(q) >= NORMAL_MAX;
    var q1, ps1 := if over then DropOldestNormal(q) else q, if over then DropPieces(q, ps) else ps;
    DropSizes(q, ps);
    DroppedIntact(q, ps);
    DroppedIntact(q1, ps1);
    assert Torn([]) == 0 by { PiecesAdd([]); NothingLanded([]); }
  }

  lemma StationSizes(s: Station)
    requires StationOk(s)
    ensures |s.pieces| == |s.queue|
  {
  }

  /** Undisturbed, the host puts together every packet completed exactly as it arrived, framed as its kind is. */
  lemma UndisturbedWhole(es: seq<Event>)
    requires Undisturbed(es)
    ensures forall r :: r in Run(es).receipts ==> r.host == r.frame && Came(es, r.last.kind, r.host)
  {
    hide Run, Came;
    UndisturbedIntact(es);
    AllCame(es);
  }

  lemma {:induction false} UndisturbedIntact(es: seq<Event>)
    requires Undisturbed(es)
    ensures Intact(Run(es))
  {
    hide GainOf, Gained, Arrived, StationOk, Fits, Evicts;
    if es != [] {
      var s := Run(es[..|es| - 1]);
      UndisturbedIntact(es[..|es| - 1]);
      match es[|es| - 1]
      case Deliver(env, mem, ba) =>
        StationQueue(s);
        GainFits(env, mem, ba, s.queue, s.loss);
        GainedIntact(s, GainOf(env, mem, ba, s.queue, s.loss));
      case Arrive(kind, data) => ArrivedIntact(s, kind, data);
      case Reset => NothingTorn();
    }
  }

  lemma StationQueue(s: Station)
    requires StationOk(s)
    ensures QueueOk(s.queue) && |s.pieces| == |s.queue|
  {
  }

  lemma NothingTorn()
    ensures Torn([]) == 0
  {
  }

  /** The smallest failure: a frame arrives, its buffer does not answer, the list is armed again with one that does. */
  function LosingRun(env: Env): seq<Event> {
    [Arrive(Normal, OneFrame().data), Deliver(env, ListMemory(false), 0), Deliver(env, ListMemory(true), 0)]
  }

  /** The host decodes 60 bytes and has got none. */
  lemma LengthsDiffer(env: Env)
    ensures var s := Run(LosingRun(env));
            && |s.receipts| == 1
            && var r := s.receipts[0];
               r.last.kind == Normal && r.host == [] && HostRbl(Status1(r.last), Status2(r.last)) + ETH_MIN_PACKET == 60
  {
    hide Walk, GainOf, Gained, ListMemory, Status1, Status2, HostRbl, StationOk, LastPlace, Tears;
    var es := LosingRun(env);
    assert es[..2][..1] == es[..1] && es[..1][..0] == [] && es[..2][|es[..2]| - 1] == es[1];
    ArrivedFirst();
    assert Run(es[..1]) == Step(Run(es[..1][..0]), es[0]);
    var s1 := Run(es[..1]);
    assert s1 == Station([OneFrame()], 0, [[]], [], [], []);
    TornNext(env, s1);
    var s2 := Run(es[..2]);
    ReportedNext(env, s2);
  }

  lemma ArrivedFirst()
    ensures Arrived(Start(), Normal, OneFrame().data) == Station([OneFrame()], 0, [[]], [], [], [])
  {
  }

  lemma TornNext(env: Env, s: Station)
    requires s == Station([OneFrame()], 0, [[]], [], [], []) && StationOk(s)
    ensures var r := Step(s, Deliver(env, ListMemory(false), 0));
            && r.queue == Walk(env, ListStart(false), 0, 0).rx.queue == [OneFrame().(used := 60)] && r.loss == 0
            && r.host == [] && r.orphans == [] && r.receipts == []
  {
    hide Walk, LastPlace, Tears, ListMemory, SegmentAt;
    assert Rx(ListMemory(false), 0, s.queue, 0, []) == ListStart(false);
    FrameLost(env, 0);
    FrameLeft(env, 0);
  }

  lemma ReportedNext(env: Env, s: Station)
    requires StationOk(s) && s.queue == Walk(env, ListStart(false), 0, 0).rx.queue && s.loss == 0
    requires s.host == [] && s.orphans == [] && s.receipts == []
    ensures var r := Step(s, Deliver(env, ListMemory(true), 0));
            && |r.receipts| == 1
            && var f := r.receipts[0];
               f.last.kind == Normal && f.host == [] && HostRbl(Status1(f.last), Status2(f.last)) + ETH_MIN_PACKET == 60
  {
    hide Walk, LastPlace, Tears, ListMemory, SegmentAt, Status1, Status2, HostRbl;
    assert Rx(ListMemory(true), 0, s.queue, 0, []) == ListStart(true).(queue := s.queue);
    LostFrameReported(env, 0);
    var log := Walk(env, ListStart(true).(queue := s.queue), 0, 0).rx.log;
    assert log == [] + [log[0]];
    AssembleNext([], log[0]);
    CompletedNext([], log[0]);
  }

  /** An arrival pushes a begun packet out of the queue head, and the next packet completed reaches the host behind
  what it had got of that one. */
  lemma FramesRunTogether(s: Station, kind: Kind, data: seq<Byte>, env: Env, mem: Memory, ba: nat)
    requires StationOk(s) && Evicts(s.queue, kind) && |s.queue| > 1
    ensures var t := Step(s, Arrive(kind, data));
            && StationOk(t) && t.queue == s.queue[1..] + [Packet(kind, data, 0)]
            && var r, n := Step(t, Deliver(env, mem, ba)), |s.receipts|;
               && n <= |r.receipts|
               && (|r.receipts| > n ==>
                     r.receipts[n].host == s.host + Whole(s.queue[1]) && r.receipts[n].frame == Whole(s.queue[1]))
  {
    hide GainOf, Accounted, ReceiptOk, HeadOnly, HeadLanded, Normals, PacketOk, Evicts, Arrived, Fits, Whole;
    ArrivedKeeps(s, kind, data);
    var t := Step(s, Arrive(kind, data));
    assert t.queue[0] == s.queue[1];
    GainFits(env, mem, ba, t.queue, t.loss);
    var g := GainOf(env, mem, ba, t.queue, t.loss);
    if |g.done| > 0 { FirstCompleted(t, g, s.queue[1]); }
  }

  lemma FirstCompleted(t: Station, g: Gain, p: Packet)
    requires StationOk(t) && Fits(t.queue, g) && |g.done| > 0 && t.queue[0] == p && t.pieces[0] == []
    ensures Gained(t, g).receipts[|t.receipts|].host == t.host + Whole(p)
    ensures Gained(t, g).receipts[|t.receipts|].frame == Whole(p)
  {
  }
}
