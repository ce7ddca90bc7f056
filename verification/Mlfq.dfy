/** The multi-level feedback queue of scheduler_mlfq (proc.c) and of the timer branch of trap (trap.c):
    one CPU, a fixed set of processes that are always ready to run.  `ticks` and the boost test are in
    unsigned 32-bit arithmetic. */
module Mlfq {
  const NQUEUE: nat := 3
  const NPROC: nat := 64
  const BOOST: nat := 1000          // BOOST_INTERVAL_TICKS
  const WORD: nat := 0x1_0000_0000

  /** TIME_SLICE_0 .. TIME_SLICE_2. */
  function Slice(level: nat): nat { if level == 0 then 5 else if level == 1 then 10 else 20 }

  /** level and used are mlfq_level and mlfq_ticks.  got counts the ticks of each process, and since all
      ticks, since the last boost. */
  datatype Sched = Sched(live: seq<bool>, level: seq<nat>, used: seq<nat>, ticks: nat, boost: nat, cur: nat,
      got: seq<nat>, since: nat)

  // ---------------------------------------------------------------- one tick

  function Charged(level: nat, used: nat): (nat, nat) {
    var l := if level >= NQUEUE then NQUEUE - 1 else level;
    if used + 1 >= Slice(l) then (if l < NQUEUE - 1 then l + 1 else l, 0) else (l, used + 1)
  }

  ghost predicate Sized(s: Sched) {
    0 < |s.live| == |s.level| == |s.used| == |s.got| <= NPROC && s.cur < |s.live| && s.ticks < WORD && s.boost < WORD
  }

  /** The timer interrupt, up to yield. */
  ghost function Charge(s: Sched): Sched
    requires Sized(s)
  {
    var (l, u) := Charged(s.level[s.cur], s.used[s.cur]);
    s.(ticks := (s.ticks + 1) % WORD, level := s.level[s.cur := l], used := s.used[s.cur := u],
       got := s.got[s.cur := s.got[s.cur] + 1], since := s.since + 1)
  }

  ghost predicate Due(s: Sched) { s.ticks > (s.boost + BOOST) % WORD }

  ghost function Cleared(live: seq<bool>, v: seq<nat>): (r: seq<nat>)
    requires |live| == |v|
    ensures |r| == |v| && forall i :: 0 <= i < |v| ==> r[i] == if live[i] then 0 else v[i]
  {
    seq(|v|, i requires 0 <= i < |v| => if live[i] then 0 else v[i])
  }

  ghost function Boosted(s: Sched): Sched
    requires Sized(s)
  {
    s.(level := Cleared(s.live, s.level), used := Cleared(s.live, s.used), boost := s.ticks,
       got := seq(|s.got|, i => 0), since := 0)
  }

  /** The first live process at this level from slot i on, or the number of slots. */
  ghost function FirstAt(live: seq<bool>, level: seq<nat>, l: nat, i: nat): (r: nat)
    requires |live| == |level| && i <= |live|
    ensures i <= r <= |live| && (r < |live| ==> live[r] && level[r] == l)
    ensures forall k :: i <= k < r ==> !(live[k] && level[k] == l)
    decreases |live| - i
  {
    if i == |live| || (live[i] && level[i] == l) then i else FirstAt(live, level, l, i + 1)
  }

  /** The first process of the best level from l on, or the number of slots. */
  ghost function Pick(live: seq<bool>, level: seq<nat>, l: nat): (r: nat)
    requires |live| == |level| && l <= NQUEUE
    ensures r <= |live|
    decreases NQUEUE - l
  {
    if l == NQUEUE then |live| else
      var k := FirstAt(live, level, l, 0);
      if k < |live| then k else Pick(live, level, l + 1)
  }

  ghost function Schedule(s: Sched): Sched
    requires Sized(s)
  {
    var b := if Due(s) then Boosted(s) else s;
    var p := Pick(b.live, b.level, 0);
    if p < |b.live| then b.(cur := p) else b
  }

  ghost function Tick(s: Sched): Sched
    requires Sized(s)
  {
    Schedule(Charge(s))
  }

  // ---------------------------------------------------------------- closed form

  /** Level and ticks at that level after n ticks since the last boost. */
  function After(n: nat): (nat, nat) {
    if n < 5 then (0, n) else if n < 15 then (1, n - 5) else (2, (n - 15) % 20)
  }

  lemma AfterOne(n: nat)
    ensures Charged(After(n).0, After(n).1) == After(n + 1) && After(n).1 < Slice(After(n).0)
  {
  }

  ghost predicate Closed(s: Sched)
    requires Sized(s)
  {
    forall i {:trigger s.got[i]} :: 0 <= i < |s.live| && s.live[i] ==>
        s.level[i] == After(s.got[i]).0 && s.used[i] == After(s.got[i]).1
  }

  /** The running process is live and no live process has a better level. */
  ghost predicate BestRuns(s: Sched)
    requires Sized(s)
  {
    s.live[s.cur] && forall i :: 0 <= i < |s.live| && s.live[i] ==> s.level[s.cur] <= s.level[i]
  }

  lemma PickBest(live: seq<bool>, level: seq<nat>, l: nat, i: nat)
    requires |live| == |level| && l <= NQUEUE && i < |live| && live[i] && level[i] < NQUEUE
    requires forall k :: 0 <= k < |live| && live[k] ==> l <= level[k]
    ensures (var p := Pick(live, level, l); p < |live| && live[p] && level[p] <= level[i])
    decreases NQUEUE - l
  {
    var k := FirstAt(live, level, l, 0);
    if k == |live| { PickBest(live, level, l + 1, i); }
  }

  /** Pick finds the first process, by slot, of the best level. */
  lemma {:induction false} PickFirst(live: seq<bool>, level: seq<nat>, l: nat)
    requires |live| == |level| && l <= NQUEUE && forall k :: 0 <= k < |live| && live[k] ==> l <= level[k]
    ensures (var p := Pick(live, level, l);
      && (p == |live| <==> forall j :: 0 <= j < |live| && live[j] ==> level[j] >= NQUEUE)
      && (p < |live| ==> live[p] && forall j :: 0 <= j < |live| && live[j] ==>
            level[p] <= level[j] && (j < p ==> level[p] < level[j])))
    decreases NQUEUE - l
  {
    if l < NQUEUE {
      var k := FirstAt(live, level, l, 0);
      if k == |live| { PickFirst(live, level, l + 1); }
    }
  }

  // ---------------------------------------------------------------- time and the boost

  /** How the clock, the last boost and the number of ticks between them go together. */
  ghost predicate ClockOk(s: Sched) {
    && s.ticks == (s.boost + s.since) % WORD
    && (s.boost + BOOST + 1 < WORD || s.boost == WORD - 1 ==> s.since <= BOOST)
    && (WORD - BOOST <= s.boost <= WORD - 2 ==> s.since == 0)
  }

  /** A boost follows the last one after 1001 ticks, except near the wrap of the clock, where it follows
      after one, and after a boost at one single tick, after which there is none. */
  lemma DueWhen(s: Sched)
    requires Sized(s) && ClockOk(s)
    ensures Due(Charge(s)) <==>
      if WORD - BOOST <= s.boost <= WORD - 2 then true else s.boost != WORD - BOOST - 1 && s.since == BOOST
  {
  }

  lemma ClockKeeps(s: Sched)
    requires Sized(s) && ClockOk(s)
    ensures ClockOk(Tick(s))
  {
    DueWhen(s);
    hide Pick, Charged;
  }

  // ---------------------------------------------------------------- service

  /** The ticks that the first n processes got at levels 0 and 1 since the last boost. */
  ghost function Served(live: seq<bool>, got: seq<nat>, n: nat): nat
    requires n <= |live| == |got|
  {
    if n == 0 then 0 else Served(live, got, n - 1) + (if !live[n - 1] then 0 else if got[n - 1] < 15 then got[n - 1]
        else 15)
  }

  ghost predicate AllServed(s: Sched)
    requires Sized(s)
  {
    forall i :: 0 <= i < |s.live| && s.live[i] ==> s.got[i] >= 15
  }

  lemma {:induction false} ServedMore(live: seq<bool>, got: seq<nat>, n: nat, c: nat)
    requires n <= |live| == |got| && c < |live| && live[c]
    ensures Served(live, got[c := got[c] + 1], n) == Served(live, got, n) + if c < n && got[c] < 15 then 1 else 0
  {
    if n > 0 { ServedMore(live, got, n - 1, c); }
  }

  lemma {:induction false} ServedFull(live: seq<bool>, got: seq<nat>, n: nat)
    requires n <= |live| == |got|
    ensures Served(live, got, n) <= 15 * n
    ensures Served(live, got, n) == 15 * n ==> forall i :: 0 <= i < n ==> live[i] && got[i] >= 15
  {
    if n > 0 { ServedFull(live, got, n - 1); }
  }

  lemma {:induction false} ServedNone(live: seq<bool>, got: seq<nat>, n: nat)
    requires n <= |live| == |got| && forall i :: 0 <= i < |got| ==> got[i] == 0
    ensures Served(live, got, n) == 0
  {
    if n > 0 { ServedNone(live, got, n - 1); }
  }

  /** Until everyone has had 15 ticks, every tick goes to a process that has not. */
  ghost predicate ServiceOk(s: Sched)
    requires Sized(s)
  {
    && (AllServed(s) || Served(s.live, s.got, |s.live|) == s.since)
    && forall i :: 0 <= i < |s.got| ==> s.got[i] <= s.since
  }

  ghost predicate Inv(s: Sched) { Sized(s) && Closed(s) && BestRuns(s) && ClockOk(s) && ServiceOk(s) }

  lemma ChargeKeeps(s: Sched)
    requires Sized(s) && Closed(s) && BestRuns(s) && ServiceOk(s)
    ensures Closed(Charge(s)) && ServiceOk(Charge(s))
  {
    AfterOne(s.got[s.cur]);
    ServedMore(s.live, s.got, |s.live|, s.cur);
    if !AllServed(s) {
      var i :| 0 <= i < |s.live| && s.live[i] && s.got[i] < 15;
      assert s.level[i] == After(s.got[i]).0 <= 1 && s.level[s.cur] <= 1;
      assert s.level[s.cur] == After(s.got[s.cur]).0 && s.got[s.cur] < 15;
    }
    hide Charged, Served;
  }

  lemma ScheduleKeeps(s: Sched)
    requires Sized(s) && Closed(s) && ServiceOk(s) && s.live[s.cur]
    ensures Closed(Schedule(s)) && ServiceOk(Schedule(s)) && BestRuns(Schedule(s))
  {
    var b := if Due(s) then Boosted(s) else s;
    if Due(s) { ServedNone(b.live, b.got, |b.live|); }
    assert Closed(b) && ServiceOk(b);
    forall i | 0 <= i < |b.live| && b.live[i] ensures b.level[i] < NQUEUE { assert b.level[i] == After(b.got[i]).0; }
    var p := Pick(b.live, b.level, 0);
    hide Served, Closed, ServiceOk;
    forall i | 0 <= i < |b.live| && b.live[i] ensures p < |b.live| && b.live[p] && b.level[p] <= b.level[i] {
      PickBest(b.live, b.level, 0, i);
    }
  }

  lemma TickKeepsInv(s: Sched)
    requires Inv(s)
    ensures Inv(Tick(s))
  {
    ClockKeeps(s);
    ChargeKeeps(s);
    ScheduleKeeps(Charge(s));
    hide Closed, BestRuns, ClockOk, ServiceOk;
  }

  // ---------------------------------------------------------------- every run

  /** Boot, or any other moment at which every live process starts afresh. */
  ghost predicate Init(s: Sched) {
    && Sized(s) && s.live[s.cur] && s.boost == s.ticks == s.since == 0
    && forall i :: 0 <= i < |s.live| ==> s.level[i] == s.used[i] == s.got[i] == 0
  }

  ghost function Ticks(s: Sched, n: nat): (r: Sched)
    requires Sized(s)
    ensures Sized(r)
  {
    if n == 0 then s else Tick(Ticks(s, n - 1))
  }

  lemma {:induction false} RunKeepsInv(s: Sched, n: nat)
    requires Init(s)
    ensures Inv(Ticks(s, n))
  {
    if n == 0 {
      ServedNone(s.live, s.got, |s.live|);
    } else {
      RunKeepsInv(s, n - 1);
      TickKeepsInv(Ticks(s, n - 1));
    }
  }

  /** After every tick of every run, a live process is at the level, with the ticks, that its share since the
      last boost gives, and below its slice. */
  lemma LevelsClosed(s: Sched, n: nat, i: nat)
    requires Init(s) && i < |s.live|
    ensures Ticks(s, n).live == s.live
    ensures s.live[i] ==> (Ticks(s, n).level[i], Ticks(s, n).used[i]) == After(Ticks(s, n).got[i])
    ensures s.live[i] ==> Ticks(s, n).used[i] < Slice(Ticks(s, n).level[i])
  {
    RunKeepsInv(s, n);
    RunKeepsLive(s, n);
    var e := Ticks(s, n);
    hide Ticks, BestRuns, ClockOk, ServiceOk;
    AfterOne(e.got[i]);
  }

  lemma TickLive(s: Sched)
    requires Sized(s)
    ensures Tick(s).live == s.live
  {
    hide Pick, Charged, Due;
  }

  lemma {:induction false} RunKeepsLive(s: Sched, n: nat)
    requires Sized(s)
    ensures Ticks(s, n).live == s.live
  {
    hide Tick;
    if n > 0 {
      RunKeepsLive(s, n - 1);
      TickLive(Ticks(s, n - 1));
    }
  }

  /** In every run, once 960 ticks have passed since a boost every live process has had its 5 + 10. */
  lemma NoStarvation(s: Sched, n: nat)
    requires Init(s)
    ensures Ticks(s, n).since >= 15 * NPROC ==> AllServed(Ticks(s, n))
  {
    RunKeepsInv(s, n);
    var e := Ticks(s, n);
    ServedFull(e.live, e.got, |e.live|);
    hide Ticks, Served, Closed, BestRuns, ClockOk;
  }

  /** In every run, when a boost is due every live process has had its 5 + 10 ticks since the last one, if
      and only if the last one was not within 1000 ticks before the wrap of the clock, its very last tick
      excepted. */
  lemma ServedBetweenBoosts(s: Sched, n: nat)
    requires Init(s) && Due(Charge(Ticks(s, n)))
    ensures AllServed(Charge(Ticks(s, n))) <==> !(WORD - BOOST <= Ticks(s, n).boost <= WORD - 2)
  {
    RunKeepsInv(s, n);
    var e := Ticks(s, n);
    DueWhen(e);
    ChargeKeeps(e);
    var c := Charge(e);
    ServedFull(c.live, c.got, |c.live|);
    hide Ticks, Served, Closed, Charged;
    assert c.since == e.since + 1 && c.live[e.cur] && c.got[e.cur] <= c.since;
  }

  // ---------------------------------------------------------------- the wrap is reached

  lemma TickTime(s: Sched)
    requires Sized(s)
    ensures if Due(Charge(s)) then Tick(s).boost == (s.ticks + 1) % WORD && Tick(s).since == 0
            else Tick(s).boost == s.boost && Tick(s).since == s.since + 1
  {
    hide Pick, Charged;
  }

  /** After n ticks of the run from s, the last boost was at tick b, k ticks ago. */
  ghost predicate At(s: Sched, n: nat, b: nat, k: nat)
    requires Sized(s)
  {
    Ticks(s, n).boost == b && Ticks(s, n).since == k
  }

  /** What the next tick does to the clock of a run. */
  lemma NextTick(s: Sched, n: nat, b: nat, k: nat)
    requires Init(s) && At(s, n, b, k)
    ensures if WORD - 1000 <= b <= WORD - 2 || (b != WORD - 1001 && k == 1000)
            then At(s, n + 1, (b + k + 1) % WORD, 0) else At(s, n + 1, b, k + 1)
  {
    hide Ticks, Tick, Charge, Due, Closed, BestRuns, ServiceOk;
    RunKeepsInv(s, n);
    TicksMore(s, n);
    var e := Ticks(s, n);
    DueWhen(e);
    TickTime(e);
  }

  lemma TicksMore(s: Sched, n: nat)
    requires Sized(s)
    ensures Sized(Ticks(s, n)) && Sized(Ticks(s, n + 1)) && Ticks(s, n + 1) == Tick(Ticks(s, n))
  {
  }

  lemma AtStart(s: Sched)
    requires Init(s)
    ensures At(s, 0, 0, 0)
  {
  }

  lemma {:induction false} WithinPeriod(s: Sched, n: nat, b: nat, j: nat)
    requires Init(s) && At(s, n, b, 0) && b + 1001 < WORD && j <= 1000
    ensures At(s, n + j, b, j)
  {
    hide At;
    if j > 0 {
      WithinPeriod(s, n, b, j - 1);
      NextTick(s, n + j - 1, b, j - 1);
    }
  }

  lemma {:induction false} BoostTimes(s: Sched, m: nat)
    requires Init(s) && 1001 * m < WORD
    ensures At(s, 1001 * m, 1001 * m, 0)
  {
    hide At, Init, Sized;
    if m == 0 {
      AtStart(s);
    } else {
      BoostTimes(s, m - 1);
      WithinPeriod(s, 1001 * (m - 1), 1001 * (m - 1), 1000);
      NextTick(s, 1001 * (m - 1) + 1000, 1001 * (m - 1), 1000);
    }
  }

  /** Near the wrap: two boosts in a row, and not everyone has had 15 ticks in between. */
  lemma WrapStarves(s: Sched)
    requires Init(s)
    ensures At(s, 4_294_966_676, 4_294_966_676, 0)
    ensures Due(Charge(Ticks(s, 4_294_966_676))) && !AllServed(Charge(Ticks(s, 4_294_966_676)))
  {
    BoostTimes(s, 4_290_676);
    RunKeepsInv(s, 4_294_966_676);
    var e := Ticks(s, 4_294_966_676);
    hide Ticks, Charge, Due, Closed, BestRuns, ServiceOk, AllServed;
    DueWhen(e);
    ServedBetweenBoosts(s, 4_294_966_676);
  }
}
