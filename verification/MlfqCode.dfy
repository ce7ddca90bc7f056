/** The scheduler's loops and the tick charge, as a class whose methods perform the steps of the tick machine. */
module MlfqCode {
  import opened Mlfq

  class Scheduler {
    var live: seq<bool>           // state != UNUSED; such a process is always ready to run
    var level: seq<nat>
    var used: seq<nat>
    var ticks: nat
    var lastBoost: nat
    var cur: nat
    ghost var got: seq<nat>
    ghost var since: nat

    ghost function S(): Sched reads this { Sched(live, level, used, ticks, lastBoost, cur, got, since) }

    /** The timer branch of trap, up to yield. */
    method ChargeTick()
      requires Sized(S())
      modifies this`ticks, this`level, this`used, this`got, this`since
      ensures S() == Charge(old(S())) && |level| == |old(level)| && |used| == |old(used)|
      ensures ticks == (old(ticks) + 1) % WORD && level == old(level)[cur := level[cur]]
      ensures used == old(used)[cur := used[cur]]
      ensures old(level[cur]) < 3 ==>
        (var slice, u := [5, 10, 20][old(level[cur])], old(used[cur]) + 1;
         if u < slice then level[cur] == old(level[cur]) && used[cur] == u
         else used[cur] == 0 && level[cur] == if old(level[cur]) == 2 then 2 else old(level[cur]) + 1)
    {
      ticks := (ticks + 1) % WORD;
      used := used[cur := used[cur] + 1];
      if level[cur] >= NQUEUE { level := level[cur := NQUEUE - 1]; }
      var slice := Slice(level[cur]);
      if used[cur] >= slice {
        if level[cur] < NQUEUE - 1 { level := level[cur := level[cur] + 1]; }
        used := used[cur := 0];
      }
      got := got[cur := got[cur] + 1];
      since := since + 1;
      assert level == old(level)[cur := level[cur]] && used == old(used)[cur := used[cur]];
    }

    /** The boost at the head of scheduler_mlfq. */
    method BoostAll()
      requires Sized(S())
      modifies this`level, this`used, this`lastBoost, this`got, this`since
      ensures S() == Boosted(old(S())) && lastBoost == ticks
      ensures |level| == |live| == |used|
      ensures forall k :: 0 <= k < |live| ==> level[k] == if live[k] then 0 else old(level)[k]
      ensures forall k :: 0 <= k < |live| ==> used[k] == if live[k] then 0 else old(used)[k]
    {
      var p := 0;
      while p < |live|
        invariant p <= |live| == |level| == |used|
        invariant forall k :: 0 <= k < |live| ==> level[k] == if k < p && live[k] then 0 else old(level)[k]
        invariant forall k :: 0 <= k < |live| ==> used[k] == if k < p && live[k] then 0 else old(used)[k]
        invariant lastBoost == old(lastBoost) && got == old(got) && since == old(since)
      {
        if live[p] {
          level := level[p := 0];
          used := used[p := 0];
        }
        p := p + 1;
      }
      lastBoost := ticks;
      got, since := seq(|got|, i => 0), 0;
    }

    /** The nested search: the first process, by slot, of the best level that has one. */
    method Search() returns (best: nat)
      requires Sized(S())
      ensures best == Pick(live, level, 0) <= |live|
      ensures best == |live| <==> forall j :: 0 <= j < |live| && live[j] ==> level[j] >= 3
      ensures best < |live| ==> live[best] && forall j :: 0 <= j < |live| && live[j] ==>
        level[best] <= level[j] && (j < best ==> level[best] < level[j])
    {
      PickFirst(live, level, 0);
      var l := 0;
      while l < NQUEUE
        invariant l <= NQUEUE && Pick(live, level, 0) == Pick(live, level, l)
      {
        var p := 0;
        while p < |live|
          invariant p <= |live| && FirstAt(live, level, l, 0) == FirstAt(live, level, l, p)
        {
          if live[p] && level[p] == l { return p; }
          p := p + 1;
        }
        l := l + 1;
      }
      return |live|;
    }

    /** scheduler_mlfq, up to the switch. */
    method Schedule()
      requires Sized(S())
      modifies this`level, this`used, this`lastBoost, this`got, this`since, this`cur
      ensures S() == Mlfq.Schedule(old(S()))
      ensures lastBoost == if ticks > (old(lastBoost) + 1000) % 0x1_0000_0000 then ticks else old(lastBoost)
      ensures |level| == |live|
      ensures forall i, j :: 0 <= i < |live| && live[i] && level[i] < 3 && 0 <= j < |live| && live[j] ==>
        live[cur] && level[cur] <= level[j]
    {
      hide Pick, FirstAt, Cleared;
      if ticks > (lastBoost + BOOST) % WORD { BoostAll(); }
      var p := Search();
      if p < |live| { cur := p; }
    }

    /** A timer interrupt and the scheduling after it. */
    method Timer()
      requires Inv(S())
      modifies this
      ensures S() == Tick(old(S())) && Inv(S())
    {
      TickKeepsInv(S());
      hide Inv, Pick, Charged, Due;
      assert Sized(S()) by { InvSized(); }
      ChargeTick();
      Schedule();
    }

    lemma InvSized()
      requires Inv(S())
      ensures Sized(S())
    {
    }
  }
}
