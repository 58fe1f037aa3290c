/** DEUNA messages over several transmit entries: what their lengths, the padding mode and the link make of the status
the host reads. */
module DeunaMessages {
  import opened GuestMemory
  import opened DeunaRing
  import opened T = DeunaTransmit

  /** The byte count and the flags of the entry a report is about. */
  function Size(r: Report): nat { if |r.before| >= 4 then r.before[0] else 0 }
  function Flags(r: Report): Word { if |r.before| >= 4 then r.before[2] else 0 }

  /** The bytes a run of entries holds. */
  function Total(log: seq<Report>): nat {
    if log == [] then 0 else Total(log[..|log| - 1]) + Size(log[|log| - 1])
  }

  /** Entries that begin a message and do not end it: started by the first and by no other. */
  predicate Opened(log: seq<Report>) {
    log != []
    && var k := |log| - 1;
       !Ends(Flags(log[k])) && (Starts(Flags(log[k])) <==> k == 0) && (k == 0 || Opened(log[..k]))
  }

  /** Entries as the host lays out one message: begun by the first, ended by the last, by none in between. */
  predicate OneMessage(log: seq<Report>) {
    log != []
    && var k := |log| - 1;
       Ends(Flags(log[k])) && (Starts(Flags(log[k])) <==> k == 0) && (k == 0 || Opened(log[..k]))
  }

  /** The message as a run of reports leaves it. */
  function After(g: Message, log: seq<Report>): Message { if log == [] then g else log[|log| - 1].message }

  predicate Handled(env: Env, g: Message, r: Report) {
    |r.before| >= 4 && r == Handle(env, r.index, r.before, g)
  }

  /** Each report is what its entry makes of the message as the one before left it. */
  predicate Chained(env: Env, g: Message, log: seq<Report>) {
    log == []
    || (Chained(env, g, log[..|log| - 1]) && Handled(env, After(g, log[..|log| - 1]), log[|log| - 1]))
  }

  lemma {:induction false} ChainFrom(env: Env, g: Message, r: Report, rest: seq<Report>)
    requires Handled(env, g, r) && Chained(env, r.message, rest)
    ensures Chained(env, g, [r] + rest)
  {
    hide Handled;
    var log := [r] + rest;
    if rest == [] {
      assert log[..0] == [] && log[0] == r;
    } else {
      var k := |rest| - 1;
      ChainFrom(env, g, r, rest[..k]);
      assert log[..k + 1] == [r] + rest[..k] && log[k + 1] == rest[k];
    }
  }

  lemma {:induction false} ChainPart(env: Env, g: Message, log: seq<Report>, i: nat, n: nat)
    requires Chained(env, g, log) && i + n <= |log|
    ensures Chained(env, After(g, log[..i]), log[i..i + n])
    decreases |log|
  {
    hide Handled;
    if i + n < |log| {
      ChainPart(env, g, log[..|log| - 1], i, n);
      assert log[..|log| - 1][i..i + n] == log[i..i + n] && log[..|log| - 1][..i] == log[..i];
    } else if n > 0 {
      ChainPart(env, g, log[..|log| - 1], i, n - 1);
      var part := log[i..i + n];
      assert log[..|log| - 1][i..i + n - 1] == part[..n - 1] && log[..|log| - 1][..i] == log[..i];
      assert part[n - 1] == log[|log| - 1];
      assert After(After(g, log[..i]), part[..n - 1]) == After(g, log[..|log| - 1]);
    }
  }

  lemma {:induction false} WalkChains(env: Env, m: Memory, next: nat, g: Message, budget: nat)
    requires env.ring.entryWords >= 4
    ensures Chained(env, g, Walk(env, m, next, g, budget).log)
    decreases budget
  {
    hide NextReport, HandedBack, Handled, Target, DataReads, OwnedEntry, Chained;
    ChainedNothing(env, g);
    if budget > 0 && GoesOn(env, m, next, g) {
      var r := NextReport(env, m, next, g);
      NextIsHandled(env, m, next, g);
      var rest := Walk(env, HandedBack(env, m, r), Advance(env.ring, r.index), r.message, budget - 1);
      WalkChains(env, HandedBack(env, m, r), Advance(env.ring, r.index), r.message, budget - 1);
      ChainFrom(env, g, r, rest.log);
    }
  }

  lemma ChainedNothing(env: Env, g: Message)
    ensures Chained(env, g, [])
  {
  }

  lemma NextIsHandled(env: Env, m: Memory, next: nat, g: Message)
    requires env.ring.entryWords >= 4 && OwnedEntry(env, m, Target(env, m, next), env.ring.entryWords)
    ensures Handled(env, g, NextReport(env, m, next, g))
  {
    hide Handle, OwnedEntry, Target;
  }

  // --- lengths ------------------------------------------------------------------

  function Least(a: nat, b: nat): nat { if a <= b then a else b }

  /** The message after entries that start it and do not end it. */
  predicate Growing(g: Message, total: nat) {
    g.len == Least(total, 1514) && !g.runt && (g.giant ==> total >= 1514) && (total > 1514 ==> g.giant)
  }

  lemma StartGrows(env: Env, g: Message, r: Report)
    requires Handled(env, g, r) && Starts(Flags(r)) && !Ends(Flags(r))
    ensures Growing(r.message, Size(r)) && r.message.frames == g.frames
  {
    hide Status2, Status3;
  }

  lemma MoreGrows(env: Env, g: Message, r: Report, total: nat)
    requires Handled(env, g, r) && !Starts(Flags(r)) && !Ends(Flags(r)) && Growing(g, total)
    ensures Growing(r.message, total + Size(r)) && r.message.frames == g.frames
  {
    hide Status2, Status3;
  }

  lemma {:induction false} ChainGrows(env: Env, g: Message, log: seq<Report>)
    requires Chained(env, g, log) && Opened(log)
    ensures Growing(After(g, log), Total(log)) && After(g, log).frames == g.frames
  {
    hide Handled, Growing, Starts, Ends, Size;
    var k := |log| - 1;
    if k == 0 {
      StartGrows(env, g, log[k]);
    } else {
      ChainGrows(env, g, log[..k]);
      MoreGrows(env, log[k - 1].message, log[k], Total(log[..k]));
    }
  }

  /** What the last entry of a message comes to, by the message's length and what lies before that entry. */
  predicate Judged(env: Env, g: Message, frame: nat, before: nat, total: nat) {
    && (g.runt <==> total < 60 && !env.pads)
    && (g.giant <==> total > 1514 || before >= 1514)
    && g.len == (if total < 60 then 60 else Least(total, 1514))
    && g.frames == frame + 1
  }

  lemma OneEntry(env: Env, g: Message, r: Report)
    requires Handled(env, g, r) && Starts(Flags(r)) && Ends(Flags(r))
    ensures Judged(env, r.message, g.frames, 0, Size(r))
  {
    hide Status2, Status3;
  }

  lemma LastEntry(env: Env, g: Message, r: Report, before: nat)
    requires Handled(env, g, r) && !Starts(Flags(r)) && Ends(Flags(r)) && Growing(g, before)
    ensures Judged(env, r.message, g.frames, before, before + Size(r))
  {
    hide Status2, Status3;
  }

  /** A message that any number of entries hold: it is a runt exactly if it is shorter than the smallest frame and the
  mode allows no padding, and a giant exactly if it exceeds the largest, or fills it before its last entry. */
  lemma LengthsJudged(env: Env, g: Message, log: seq<Report>)
    requires Chained(env, g, log) && OneMessage(log)
    ensures Judged(env, After(g, log), g.frames, Total(log[..|log| - 1]), Total(log))
  {
    hide Handled, Judged, Growing, Starts, Ends, Size;
    var k := |log| - 1;
    if k == 0 {
      OneEntry(env, g, log[k]);
    } else {
      ChainGrows(env, g, log[..k]);
      LastEntry(env, log[k - 1].message, log[k], Total(log[..k]));
    }
  }

  /** The error bits of words 2 and 3 of a last entry, by what is wrong with the message. */
  predicate Told(r: Report, bad: bool, sent: bool, matched: bool) {
    && |r.after| >= 4
    && (r.after[2] / 0x4000 % 2 == 1 <==> bad || !sent || !matched)
    && (r.after[2] / 0x2000 % 2 == 1 <==> matched)
    && (r.after[3] / 0x8000 == 1 <==> bad || (sent && !matched))
    && (r.after[3] / 0x400 % 2 == 1 <==> !sent)
  }

  lemma LastTold(env: Env, g: Message, r: Report)
    requires Handled(env, g, r) && Ends(Flags(r))
    ensures Told(r, r.message.giant || r.message.runt, env.loops || env.link(g.frames).sent, env.link(g.frames).matched)
  {
    hide Handle, Starts, Ends;
    StatusDecodes(env, r.index, r.before, g);
    Bit15(env, g, r);
  }

  lemma Bit15(env: Env, g: Message, r: Report)
    requires Handled(env, g, r) && Ends(Flags(r))
    ensures |r.after| >= 4
    ensures r.after[3] / 0x8000 == 1 <==>
              r.message.giant || r.message.runt
              || ((env.loops || env.link(g.frames).sent) && !env.link(g.frames).matched)
  {
    hide Status2;
  }

  /** What the host reads in the last entry of a message a walk has sent, by the lengths in its entries, the padding
  mode, the link and the match: `frame` counts the frames sent before it. */
  lemma MessageReported(env: Env, m: Memory, next: nat, g: Message, budget: nat, log: seq<Report>, i: nat)
    requires env.ring.entryWords >= 4 && i + |log| <= |Walk(env, m, next, g, budget).log|
    requires log == Walk(env, m, next, g, budget).log[i..i + |log|] && OneMessage(log)
    ensures exists frame: nat ::
              && log[|log| - 1].message.frames == frame + 1
              && Told(log[|log| - 1],
                      (Total(log) < 60 && !env.pads) || Total(log) > 1514 || Total(log[..|log| - 1]) >= 1514,
                      env.loops || env.link(frame).sent, env.link(frame).matched)
  {
    hide Walk, Handled, Judged, Told, Starts, Ends, Size, Opened;
    var all, k := Walk(env, m, next, g, budget).log, |log| - 1;
    WalkChains(env, m, next, g, budget);
    ChainPart(env, g, all, i, |log|);
    var g0 := After(g, all[..i]);
    LengthsJudged(env, g0, log);
    LastTold(env, After(g0, log[..k]), log[k]);
    SameFrame(env, g0, log);
    JudgedMeans(env, log[k].message, g0.frames, Total(log[..k]), Total(log));
    assert log[k].message.frames == g0.frames + 1;
  }

  lemma JudgedMeans(env: Env, g: Message, frame: nat, before: nat, total: nat)
    requires Judged(env, g, frame, before, total)
    ensures g.frames == frame + 1
    ensures g.giant || g.runt <==> (total < 60 && !env.pads) || total > 1514 || before >= 1514
  {
  }

  lemma SameFrame(env: Env, g: Message, log: seq<Report>)
    requires Chained(env, g, log) && OneMessage(log)
    ensures After(g, log[..|log| - 1]).frames == g.frames
  {
    hide Handled, Starts, Ends;
    if |log| > 1 { ChainGrows(env, g, log[..|log| - 1]); }
  }
}
