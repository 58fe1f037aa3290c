/** The KW11-L line clock's worker: ticks tied to absolute time by a scheduler that, when it is late, waits less
than a period but never less than half of one. */
module LineClock {
  const BILLION := 1_000_000_000

  type Frequency = f: nat | f > 0 witness 60

  /** One turn of the worker as the world treats it: the line frequency set at the time, the time from its tick
  to its reading of the clock, and how much longer than asked it then sleeps. */
  datatype Turn = Turn(frequency: Frequency, reading: nat, oversleep: nat)

  function Period(t: Turn): nat { BILLION / t.frequency }

  /** Half a period, rounded up: what one turn can make good. */
  function Gain(t: Turn): nat { Period(t) - Period(t) / 2 }

  function Max(a: int, b: int): int { if a >= b then a else b }

  /** The time the tick after `turns` is due, the first one being due at `begin`. */
  function DueTime(begin: int, turns: seq<Turn>): int {
    if turns == [] then begin else DueTime(begin, turns[..|turns| - 1]) + Period(turns[|turns| - 1])
  }

  /** How late that tick comes. */
  function Lateness(turns: seq<Turn>): int {
    if turns == [] then 0
    else
      var t := turns[|turns| - 1];
      Max(Lateness(turns[..|turns| - 1]) + t.reading - Gain(t), 0) + t.oversleep
  }

  function TickTime(begin: int, turns: seq<Turn>): int { DueTime(begin, turns) + Lateness(turns) }

  /** The clock never runs ahead of real time, at any sequence of delays and frequencies, and is late by no more
  than the delays it has met. */
  lemma {:induction false} NeverAhead(turns: seq<Turn>)
    ensures 0 <= Lateness(turns) <= Delays(turns)
  {
    if turns != [] { NeverAhead(turns[..|turns| - 1]); }
  }

  function Delays(turns: seq<Turn>): nat {
    if turns == [] then 0
    else Delays(turns[..|turns| - 1]) + turns[|turns| - 1].reading + turns[|turns| - 1].oversleep
  }

  /** Two ticks are never closer than half a period. */
  lemma TicksApart(begin: int, turns: seq<Turn>, t: Turn)
    ensures TickTime(begin, turns + [t]) - TickTime(begin, turns) >= Period(t) / 2
  {
    var all := turns + [t];
    assert all[..|all| - 1] == turns && all[|all| - 1] == t;
    NeverAhead(turns);
  }

  /** A turn at frequency `f` without delay. */
  function Prompt(f: Frequency): Turn { Turn(f, 0, 0) }

  function Prompts(f: Frequency, k: nat): seq<Turn> {
    if k == 0 then [] else Prompts(f, k - 1) + [Prompt(f)]
  }

  /** Without further delay, `k` turns take up to `k` half periods off the lateness. */
  lemma {:induction false} CatchUp(turns: seq<Turn>, f: Frequency, k: nat)
    ensures Lateness(turns + Prompts(f, k)) == Max(Lateness(turns) - k * Gain(Prompt(f)), 0)
  {
    hide Gain, Max;
    var g := Gain(Prompt(f));
    NeverAhead(turns);
    if k == 0 {
      assert turns + [] == turns;
      NoGain(Lateness(turns));
    } else {
      CatchUp(turns, f, k - 1);
      OneMore(turns + Prompts(f, k - 1), Prompt(f));
      assert turns + Prompts(f, k) == turns + Prompts(f, k - 1) + [Prompt(f)];
      GainMore(Lateness(turns), k, g);
    }
  }

  lemma NoGain(late: nat)
    ensures Max(late - 0, 0) == late
  {
  }

  lemma OneMore(turns: seq<Turn>, t: Turn)
    ensures Lateness(turns + [t]) == Max(Lateness(turns) + t.reading - Gain(t), 0) + t.oversleep
  {
    var all := turns + [t];
    assert all[..|all| - 1] == turns && all[|all| - 1] == t;
  }

  lemma GainMore(late: int, k: nat, g: nat)
    requires k > 0
    ensures Max(Max(late - (k - 1) * g, 0) - g, 0) == Max(late - k * g, 0)
  {
    Distribute(k, g);
  }

  lemma Distribute(k: nat, g: nat)
    requires k > 0
    ensures k * g == (k - 1) * g + g
  {
  }

  /** After any stall the clock is on time again within 2S/P prompt turns, S being the lateness; and it is on
  time exactly when the half periods gained cover it. */
  lemma CaughtUp(turns: seq<Turn>, f: Frequency, k: nat)
    ensures Lateness(turns + Prompts(f, k)) == 0 <==> k * Gain(Prompt(f)) >= Lateness(turns)
    ensures k * Period(Prompt(f)) >= 2 * Lateness(turns) ==> Lateness(turns + Prompts(f, k)) == 0
  {
    CatchUp(turns, f, k);
    TwiceGain(k, Prompt(f));
  }

  lemma TwiceGain(k: nat, t: Turn)
    ensures 2 * (k * Gain(t)) >= k * Period(t)
  {
    var g, p := Gain(t), Period(t);
    Doubled(k, g);
    Grows(k, p, 2 * g);
  }

  lemma Doubled(k: nat, g: nat)
    ensures k * (2 * g) == 2 * (k * g)
  {
  }

  lemma Grows(k: nat, a: nat, b: nat)
    requires a <= b
    ensures k * a <= k * b
  {
  }

  /** All the delays of a turn stay within `d`, and half a period makes them good. */
  predicate Bounded(turns: seq<Turn>, d: nat) {
    forall i :: 0 <= i < |turns| ==> turns[i].reading + turns[i].oversleep <= d <= Gain(turns[i])
  }

  /** While no turn is delayed by more than half a period, lateness never builds up past one turn's delay. */
  lemma {:induction false} LatenessSteady(turns: seq<Turn>, d: nat)
    requires Bounded(turns, d)
    ensures Lateness(turns) <= d
  {
    hide Gain;
    if turns != [] {
      assert Bounded(turns[..|turns| - 1], d);
      LatenessSteady(turns[..|turns| - 1], d);
      NeverAhead(turns[..|turns| - 1]);
    }
  }

  /** The worker: every tick it gives, with the wait it asks for computed from the clock it reads. */
  method Worker(turns: seq<Turn>, begin: int) returns (ticks: seq<int>, next: int)
    ensures |ticks| == |turns| && next == DueTime(begin, turns)
    ensures forall i :: 0 <= i < |ticks| ==> ticks[i] == TickTime(begin, turns[..i])
  {
    var now := begin;
    next := now;
    ticks := [];
    var i := 0;
    while i < |turns|
      invariant 0 <= i <= |turns| && |ticks| == i
      invariant next == DueTime(begin, turns[..i]) && now == TickTime(begin, turns[..i])
      invariant forall j :: 0 <= j < i ==> ticks[j] == TickTime(begin, turns[..j])
    {
      var t := turns[i];
      assert turns[..i + 1][..i] == turns[..i];
      ticks := ticks + [now];
      now := now + t.reading;
      var period := BILLION / t.frequency;
      var missing := now - next;
      var wait := period - missing;
      if wait < period / 2 { wait := period / 2; }
      next := next + period;
      now := now + wait + t.oversleep;
      i := i + 1;
    }
    assert turns[..i] == turns;
  }
}
