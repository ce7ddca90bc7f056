/** The process table of proc.c as a machine whose steps are what a process does while it holds
    ptable.lock, plus the few stores fork makes without it. */
module ProcModel {
  datatype PState = Unused | Embryo | Sleeping | Runnable | Running | Zombie

  /** What a process sleeps on: the process in a slot (in wait), or anything else. */
  datatype Chan = NoChan | OfProc(slot: nat) | Other(id: nat)

  datatype Proc = Proc(state: PState, pid: nat, parent: nat, chan: Chan, killed: bool)

  /** `parent` is a slot, or |procs| for the null pointer.  `maker` maps each slot that fork is filling to
      the process in fork.  `reaped` lists the pids that wait has returned. */
  datatype Table = Table(procs: seq<Proc>, nextpid: nat, init: nat, maker: map<nat, nat>, reaped: seq<nat>)

  datatype Step =
    | Alloc(cur: nat)                 // fork: allocproc takes a slot
    | AllocFails(slot: nat)           // fork: no memory; the slot is given up
    | Adopt(slot: nat)                // fork: np->parent = curproc
    | Start(slot: nat)                // fork: the child may run
    | Exit(cur: nat)
    | Wait(cur: nat)                  // one round of wait: reap, give up, or sleep
    | Sleep(cur: nat, id: nat)
    | Wakeup(id: nat)
    | Kill(pid: nat)
    | Run(slot: nat)                  // the scheduler
    | Yield(cur: nat)

  // ---------------------------------------------------------------- searches

  /** The first slot from i on that is Unused, or |procs|. */
  ghost function FirstUnused(procs: seq<Proc>, i: nat): (r: nat)
    requires i <= |procs|
    ensures i <= r <= |procs| && (r < |procs| ==> procs[r].state == Unused)
    ensures forall k :: i <= k < r ==> procs[k].state != Unused
    decreases |procs| - i
  {
    if i == |procs| || procs[i].state == Unused then i else FirstUnused(procs, i + 1)
  }

  ghost predicate Child(procs: seq<Proc>, cur: nat, k: nat) { k < |procs| && procs[k].parent == cur }

  /** The first child of cur from slot i on that is a zombie, or |procs|. */
  ghost function FirstZombie(procs: seq<Proc>, cur: nat, i: nat): (r: nat)
    requires i <= |procs|
    ensures i <= r <= |procs| && (r < |procs| ==> Child(procs, cur, r) && procs[r].state == Zombie)
    ensures forall k :: i <= k < r ==> !(procs[k].parent == cur && procs[k].state == Zombie)
    decreases |procs| - i
  {
    if i == |procs| || (procs[i].parent == cur && procs[i].state == Zombie) then i else FirstZombie(procs, cur, i + 1)
  }

  /** The first slot from i on with this pid, or |procs|. */
  ghost function FirstPid(procs: seq<Proc>, pid: nat, i: nat): (r: nat)
    requires i <= |procs|
    ensures i <= r <= |procs| && (r < |procs| ==> procs[r].pid == pid)
    ensures forall k :: i <= k < r ==> procs[k].pid != pid
    decreases |procs| - i
  {
    if i == |procs| || procs[i].pid == pid then i else FirstPid(procs, pid, i + 1)
  }

  // ---------------------------------------------------------------- updates of the whole table

  ghost function WokenProc(p: Proc, chan: Chan): Proc {
    if p.state == Sleeping && p.chan == chan then p.(state := Runnable) else p
  }

  ghost function Woken(procs: seq<Proc>, chan: Chan): (r: seq<Proc>)
    ensures |r| == |procs| && forall k :: 0 <= k < |r| ==> r[k] == WokenProc(procs[k], chan)
  {
    seq(|procs|, k requires 0 <= k < |procs| => WokenProc(procs[k], chan))
  }

  ghost function AdoptedProc(p: Proc, cur: nat, init: nat): Proc { if p.parent == cur then p.(parent := init) else p }

  /** Every child of cur becomes a child of init. */
  ghost function Reparented(procs: seq<Proc>, cur: nat, init: nat): (r: seq<Proc>)
    ensures |r| == |procs| && forall k :: 0 <= k < |r| ==> r[k] == AdoptedProc(procs[k], cur, init)
  {
    seq(|procs|, k requires 0 <= k < |procs| => AdoptedProc(procs[k], cur, init))
  }

  ghost predicate HasZombie(procs: seq<Proc>, cur: nat) {
    exists k :: 0 <= k < |procs| && procs[k].parent == cur && procs[k].state == Zombie
  }

  ghost predicate HasChild(procs: seq<Proc>, cur: nat) { exists k :: Child(procs, cur, k) }

  // ---------------------------------------------------------------- steps

  ghost predicate Active(t: Table, cur: nat) {
    cur < |t.procs| && t.procs[cur].state == Running && cur !in t.maker.Values
  }

  ghost predicate Enabled(t: Table, s: Step) {
    match s
    case Alloc(cur) => Active(t, cur)
    case AllocFails(slot) => slot in t.maker && slot < |t.procs| && t.procs[slot].parent == |t.procs|
    case Adopt(slot) => slot in t.maker && slot < |t.procs|
    case Start(slot) => slot in t.maker && slot < |t.procs| && t.procs[slot].parent == t.maker[slot]
    case Exit(cur) => Active(t, cur) && cur != t.init
    case Wait(cur) => Active(t, cur)
    case Sleep(cur, id) => Active(t, cur)
    case Wakeup(id) => true
    case Kill(pid) => true
    case Run(slot) => slot < |t.procs| && t.procs[slot].state == Runnable
    case Yield(cur) => cur < |t.procs| && t.procs[cur].state == Running
  }

  /** The table right before the last store of exit. */
  ghost function Leaving(procs: seq<Proc>, cur: nat, init: nat): (r: seq<Proc>)
    requires cur < |procs|
    ensures |r| == |procs|
  {
    var woken := Woken(procs, OfProc(procs[cur].parent));
    var moved := Reparented(woken, cur, init);
    if HasZombie(woken, cur) then Woken(moved, OfProc(init)) else moved
  }

  ghost function DoExit(t: Table, cur: nat): Table
    requires cur < |t.procs|
  {
    var procs := Leaving(t.procs, cur, t.init);
    t.(procs := procs[cur := procs[cur].(state := Zombie)])
  }

  ghost function DoWait(t: Table, cur: nat): Table
    requires cur < |t.procs|
  {
    var z := FirstZombie(t.procs, cur, 0);
    if z < |t.procs| then
      t.(procs := t.procs[z := t.procs[z].(pid := 0, parent := |t.procs|, killed := false, state := Unused)],
         reaped := t.reaped + [t.procs[z].pid])
    else if !HasChild(t.procs, cur) || t.procs[cur].killed then t
    else t.(procs := t.procs[cur := t.procs[cur].(chan := OfProc(cur), state := Sleeping)])
  }

  ghost function DoKill(t: Table, pid: nat): Table {
    var k := FirstPid(t.procs, pid, 0);
    if k == |t.procs| then t else
      var p := t.procs[k];
      t.(procs := t.procs[k := p.(killed := true, state := if p.state == Sleeping then Runnable else p.state)])
  }

  ghost function Do(t: Table, s: Step): Table
    requires Enabled(t, s)
  {
    match s
    case Alloc(cur) =>
      var k := FirstUnused(t.procs, 0);
      if k == |t.procs| then t
      else t.(procs := t.procs[k := t.procs[k].(state := Embryo, pid := t.nextpid)], nextpid := t.nextpid + 1,
          maker := t.maker[k := cur])
    case AllocFails(slot) => t.(procs := t.procs[slot := t.procs[slot].(state := Unused)], maker := t.maker - {slot})
    case Adopt(slot) => t.(procs := t.procs[slot := t.procs[slot].(parent := t.maker[slot])])
    case Start(slot) => t.(procs := t.procs[slot := t.procs[slot].(state := Runnable)], maker := t.maker - {slot})
    case Exit(cur) => DoExit(t, cur)
    case Wait(cur) => DoWait(t, cur)
    case Sleep(cur, id) => t.(procs := t.procs[cur := t.procs[cur].(chan := Other(id), state := Sleeping)])
    case Wakeup(id) => t.(procs := Woken(t.procs, Other(id)))
    case Kill(pid) => DoKill(t, pid)
    case Run(slot) => t.(procs := t.procs[slot := t.procs[slot].(state := Running, chan := NoChan)])
    case Yield(cur) => t.(procs := t.procs[cur := t.procs[cur].(state := Runnable)])
  }

  // ---------------------------------------------------------------- the invariant

  ghost predicate Live(p: Proc) { p.state != Unused }
  ghost predicate Started(p: Proc) { p.state != Unused && p.state != Embryo }

  /** The pid of a live process is in no other slot and has not been reaped; no pid was reaped twice. */
  ghost predicate PidsOk(procs: seq<Proc>, nextpid: nat, reaped: seq<nat>) {
    && (forall i, j :: 0 <= i < |procs| && 0 <= j < |procs| && i != j && Live(procs[i]) ==>
        procs[i].pid != procs[j].pid)
    && (forall i :: 0 <= i < |procs| && Live(procs[i]) ==> 0 < procs[i].pid && procs[i].pid !in reaped)
    && (forall i :: 0 <= i < |procs| ==> procs[i].pid < nextpid)
    && (forall pid :: pid in reaped ==> pid < nextpid)
    && (forall i, j :: 0 <= i < j < |reaped| ==> reaped[i] != reaped[j])
  }

  /** A parent is a process that has started and has not exited. */
  ghost predicate GoodParent(procs: seq<Proc>, q: nat) { q < |procs| && Started(procs[q]) && procs[q].state != Zombie }

  ghost predicate FamilyOk(procs: seq<Proc>, init: nat) {
    && GoodParent(procs, init) && procs[init].parent == |procs|
    && (forall i :: 0 <= i < |procs| && Started(procs[i]) && i != init ==> GoodParent(procs, procs[i].parent))
    && (forall i :: 0 <= i < |procs| && !Started(procs[i]) ==>
        procs[i].parent == |procs| || GoodParent(procs, procs[i].parent))
    && (forall i :: 0 <= i < |procs| && procs[i].state == Unused ==> procs[i].parent == |procs|)
    && (forall i :: 0 <= i < |procs| ==> procs[i].parent != i)
  }

  /** No process sleeps in wait while it has a zombie child. */
  ghost predicate NoMissedExit(procs: seq<Proc>) {
    && (forall i :: 0 <= i < |procs| && procs[i].state == Sleeping && procs[i].chan.OfProc? ==> procs[i].chan.slot == i)
    && (forall i, k :: 0 <= i < |procs| && 0 <= k < |procs| && procs[i].state == Sleeping && procs[i].chan.OfProc? ==>
          !(procs[k].parent == i && procs[k].state == Zombie))
  }

  /** Fork is filling exactly the Embryo slots, on behalf of processes that have not exited. */
  ghost predicate MakersOk(procs: seq<Proc>, maker: map<nat, nat>) {
    && (forall i :: i in maker <==> 0 <= i < |procs| && procs[i].state == Embryo)
    && (forall i :: i in maker ==> GoodParent(procs, maker[i]) && procs[maker[i]].state != Sleeping)
    && (forall i :: i in maker ==> procs[i].parent == |procs| || procs[i].parent == maker[i])
  }

  ghost predicate Inv(t: Table) {
    PidsOk(t.procs, t.nextpid, t.reaped) && FamilyOk(t.procs, t.init) && NoMissedExit(t.procs)
        && MakersOk(t.procs, t.maker)
  }

  lemma PidsOnce(t: Table)
    requires Inv(t)
    ensures forall i, j :: 0 <= i < |t.procs| && 0 <= j < |t.procs| && i != j && Live(t.procs[i]) ==>
      t.procs[i].pid != t.procs[j].pid
    ensures forall i :: 0 <= i < |t.procs| ==> t.procs[i].pid < t.nextpid && (Live(t.procs[i]) ==> t.procs[i].pid > 0)
    ensures t.nextpid !in t.reaped
  {
    hide FamilyOk, NoMissedExit, MakersOk;
  }

  // ---------------------------------------------------------------- steps that only change who runs and who sleeps

  ghost predicate Kin(p: Proc, p': Proc) {
    && p'.pid == p.pid && p'.parent == p.parent && (p'.state == Unused <==> p.state == Unused)
    && (p'.state == Embryo <==> p.state == Embryo) && (p'.state == Zombie <==> p.state == Zombie)
  }

  ghost predicate SameKin(procs: seq<Proc>, procs': seq<Proc>) {
    |procs'| == |procs| && forall i :: 0 <= i < |procs| ==> Kin(procs[i], procs'[i])
  }

  lemma KinKeeps(procs: seq<Proc>, procs': seq<Proc>, nextpid: nat, reaped: seq<nat>, init: nat)
    requires SameKin(procs, procs') && PidsOk(procs, nextpid, reaped) && FamilyOk(procs, init)
    ensures PidsOk(procs', nextpid, reaped) && FamilyOk(procs', init)
  {
    forall i | 0 <= i < |procs| ensures Live(procs'[i]) == Live(procs[i]) && Started(procs'[i]) == Started(procs[i]) {
      assert Kin(procs[i], procs'[i]);
    }
    forall q: nat ensures GoodParent(procs', q) <==> GoodParent(procs, q) {
      if q < |procs| { assert Kin(procs[q], procs'[q]); }
    }
    forall i | 0 <= i < |procs| ensures procs'[i].pid == procs[i].pid && procs'[i].parent == procs[i].parent {
      assert Kin(procs[i], procs'[i]);
    }
  }

  /** If nobody falls asleep, no exit is missed. */
  lemma CalmKeeps(procs: seq<Proc>, procs': seq<Proc>, maker: map<nat, nat>)
    requires SameKin(procs, procs') && NoMissedExit(procs) && MakersOk(procs, maker)
    requires forall i :: 0 <= i < |procs| && procs'[i].state == Sleeping ==>
      procs[i].state == Sleeping && procs'[i].chan == procs[i].chan
    ensures NoMissedExit(procs') && MakersOk(procs', maker)
  {
    forall i | 0 <= i < |procs| ensures Kin(procs[i], procs'[i]) {}
  }

  lemma FallsAsleep(procs: seq<Proc>, maker: map<nat, nat>, cur: nat, chan: Chan)
    requires NoMissedExit(procs) && MakersOk(procs, maker) && cur < |procs| && procs[cur].state == Running
      && cur !in maker.Values
    requires chan.OfProc? ==> chan.slot == cur && !HasZombie(procs, cur)
    ensures NoMissedExit(procs[cur := procs[cur].(chan := chan, state := Sleeping)])
    ensures MakersOk(procs[cur := procs[cur].(chan := chan, state := Sleeping)], maker)
  {
    var procs' := procs[cur := procs[cur].(chan := chan, state := Sleeping)];
    forall i | i in maker ensures GoodParent(procs', maker[i]) && procs'[maker[i]].state != Sleeping {
      assert GoodParent(procs, maker[i]) && maker[i] in maker.Values;
    }
  }

  lemma SleepKeeps(t: Table, cur: nat, chan: Chan)
    requires Inv(t) && Active(t, cur) && (chan.OfProc? ==> chan.slot == cur && !HasZombie(t.procs, cur))
    ensures Inv(t.(procs := t.procs[cur := t.procs[cur].(chan := chan, state := Sleeping)]))
  {
    hide PidsOk, FamilyOk, NoMissedExit, MakersOk;
    var procs' := t.procs[cur := t.procs[cur].(chan := chan, state := Sleeping)];
    forall i | 0 <= i < |t.procs| ensures Kin(t.procs[i], procs'[i]) {}
    KinKeeps(t.procs, procs', t.nextpid, t.reaped, t.init);
    FallsAsleep(t.procs, t.maker, cur, chan);
  }

  /** Wakeup, Run, Yield and Kill. */
  lemma AwakeKeeps(t: Table, procs': seq<Proc>)
    requires Inv(t) && SameKin(t.procs, procs')
    requires forall i :: 0 <= i < |t.procs| && procs'[i].state == Sleeping ==>
      t.procs[i].state == Sleeping && procs'[i].chan == t.procs[i].chan
    ensures Inv(t.(procs := procs'))
  {
    hide PidsOk, FamilyOk, NoMissedExit, MakersOk;
    KinKeeps(t.procs, procs', t.nextpid, t.reaped, t.init);
    CalmKeeps(t.procs, procs', t.maker);
  }

  // ---------------------------------------------------------------- fork

  lemma AllocKeeps(t: Table, cur: nat)
    requires Inv(t) && Active(t, cur)
    ensures Inv(Do(t, Alloc(cur)))
  {
    hide NoMissedExit, MakersOk;
    var k := FirstUnused(t.procs, 0);
    assert t.nextpid > 0;
    hide PidsOk;
    if k < |t.procs| {
      var p := t.procs[k].(state := Embryo, pid := t.nextpid);
      PidAdded(t.procs, t.nextpid, t.reaped, k, p);
      NotStarted(t.procs, t.init, k, p);
      EmbryoCalm(t.procs, t.maker, k, p, cur);
    }
    hide FirstUnused, FamilyOk;
  }

  lemma PidAdded(procs: seq<Proc>, nextpid: nat, reaped: seq<nat>, k: nat, p: Proc)
    requires PidsOk(procs, nextpid, reaped) && k < |procs| && p.pid == nextpid > 0
    ensures PidsOk(procs[k := p], nextpid + 1, reaped)
  {
  }

  lemma PidKept(procs: seq<Proc>, nextpid: nat, reaped: seq<nat>, k: nat, p: Proc)
    requires PidsOk(procs, nextpid, reaped) && k < |procs| && p.pid == procs[k].pid && (Live(p) ==> Live(procs[k]))
    ensures PidsOk(procs[k := p], nextpid, reaped)
  {
  }

  /** An unstarted slot changes, but remains unstarted. */
  lemma NotStarted(procs: seq<Proc>, init: nat, k: nat, p: Proc)
    requires FamilyOk(procs, init) && k < |procs| && !Started(procs[k]) && !Started(p)
    requires p.parent == |procs| || (GoodParent(procs, p.parent) && p.state == Embryo)
    ensures FamilyOk(procs[k := p], init)
  {
    forall q: nat ensures GoodParent(procs[k := p], q) <==> GoodParent(procs, q) {}
  }

  lemma EmbryoCalm(procs: seq<Proc>, maker: map<nat, nat>, k: nat, p: Proc, cur: nat)
    requires NoMissedExit(procs) && MakersOk(procs, maker) && k < |procs| && procs[k].state == Unused
      && p.state == Embryo
    requires p.parent == |procs| && cur < |procs| && procs[cur].state == Running
    ensures NoMissedExit(procs[k := p]) && MakersOk(procs[k := p], maker[k := cur])
  {
    forall q: nat | GoodParent(procs, q) ensures GoodParent(procs[k := p], q) {}
  }

  lemma EmbryoGone(procs: seq<Proc>, maker: map<nat, nat>, k: nat, p: Proc)
    requires NoMissedExit(procs) && MakersOk(procs, maker) && k in maker && (p.state == Unused || p.state == Runnable)
    ensures k < |procs| && NoMissedExit(procs[k := p]) && MakersOk(procs[k := p], maker - {k})
  {
    forall q: nat | GoodParent(procs, q) ensures GoodParent(procs[k := p], q) {}
  }

  lemma AllocFailsKeeps(t: Table, slot: nat)
    requires Inv(t) && Enabled(t, AllocFails(slot))
    ensures Inv(Do(t, AllocFails(slot)))
  {
    hide PidsOk, FamilyOk, NoMissedExit;
    var p := t.procs[slot].(state := Unused);
    assert t.procs[slot].state == Embryo;
    hide MakersOk;
    PidKept(t.procs, t.nextpid, t.reaped, slot, p);
    NotStarted(t.procs, t.init, slot, p);
    EmbryoGone(t.procs, t.maker, slot, p);
  }

  lemma AdoptCalm(procs: seq<Proc>, maker: map<nat, nat>, k: nat)
    requires NoMissedExit(procs) && MakersOk(procs, maker) && k in maker
    ensures k < |procs| && procs[k].state == Embryo && GoodParent(procs, maker[k])
    ensures NoMissedExit(procs[k := procs[k].(parent := maker[k])])
      && MakersOk(procs[k := procs[k].(parent := maker[k])], maker)
  {
    forall q: nat | GoodParent(procs, q) ensures GoodParent(procs[k := procs[k].(parent := maker[k])], q) {}
  }

  lemma AdoptKeeps(t: Table, slot: nat)
    requires Inv(t) && Enabled(t, Adopt(slot))
    ensures Inv(Do(t, Adopt(slot)))
  {
    hide PidsOk, FamilyOk, NoMissedExit, MakersOk;
    var p := t.procs[slot].(parent := t.maker[slot]);
    AdoptCalm(t.procs, t.maker, slot);
    PidKept(t.procs, t.nextpid, t.reaped, slot, p);
    NotStarted(t.procs, t.init, slot, p);
  }

  lemma StartsRunning(procs: seq<Proc>, init: nat, k: nat)
    requires FamilyOk(procs, init) && k < |procs| && procs[k].state == Embryo && GoodParent(procs, procs[k].parent)
    ensures FamilyOk(procs[k := procs[k].(state := Runnable)], init)
  {
    forall q: nat | GoodParent(procs, q) ensures GoodParent(procs[k := procs[k].(state := Runnable)], q) {}
  }

  lemma StartKeeps(t: Table, slot: nat)
    requires Inv(t) && Enabled(t, Start(slot))
    ensures Inv(Do(t, Start(slot)))
  {
    hide PidsOk, FamilyOk, NoMissedExit;
    var p := t.procs[slot].(state := Runnable);
    assert t.procs[slot].state == Embryo && GoodParent(t.procs, t.maker[slot]);
    hide MakersOk;
    PidKept(t.procs, t.nextpid, t.reaped, slot, p);
    StartsRunning(t.procs, t.init, slot);
    EmbryoGone(t.procs, t.maker, slot, p);
  }

  // ---------------------------------------------------------------- wait

  lemma ReapedPids(procs: seq<Proc>, nextpid: nat, reaped: seq<nat>, z: nat, p: Proc)
    requires PidsOk(procs, nextpid, reaped) && z < |procs| && Live(procs[z]) && !Live(p) && p.pid == 0
    ensures PidsOk(procs[z := p], nextpid, reaped + [procs[z].pid])
  {
    var r := reaped + [procs[z].pid];
    forall pid | pid in r ensures pid < nextpid { assert pid in reaped || pid == procs[z].pid; }
  }

  /** A zombie is nobody's parent, so its slot can be given up. */
  lemma ReapedFamily(procs: seq<Proc>, init: nat, z: nat, p: Proc)
    requires FamilyOk(procs, init) && z < |procs| && procs[z].state == Zombie && p.state == Unused
      && p.parent == |procs|
    ensures FamilyOk(procs[z := p], init)
  {
    forall q: nat ensures GoodParent(procs[z := p], q) <==> GoodParent(procs, q) {}
  }

  lemma ReapedCalm(procs: seq<Proc>, maker: map<nat, nat>, z: nat, p: Proc)
    requires NoMissedExit(procs) && MakersOk(procs, maker) && z < |procs| && procs[z].state == Zombie
      && p.state == Unused
    ensures NoMissedExit(procs[z := p]) && MakersOk(procs[z := p], maker)
  {
    forall q: nat ensures GoodParent(procs[z := p], q) <==> GoodParent(procs, q) {}
  }

  lemma WaitKeeps(t: Table, cur: nat)
    requires Inv(t) && Active(t, cur)
    ensures Inv(DoWait(t, cur))
  {
    hide PidsOk, FamilyOk, NoMissedExit, MakersOk;
    var z := FirstZombie(t.procs, cur, 0);
    if z < |t.procs| {
      var p := t.procs[z].(pid := 0, parent := |t.procs|, killed := false, state := Unused);
      ReapedPids(t.procs, t.nextpid, t.reaped, z, p);
      ReapedFamily(t.procs, t.init, z, p);
      ReapedCalm(t.procs, t.maker, z, p);
    } else if HasChild(t.procs, cur) && !t.procs[cur].killed {
      SleepKeeps(t, cur, OfProc(cur));
    }
  }

  // ---------------------------------------------------------------- exit

  lemma WokenKeeps(t: Table, chan: Chan)
    requires Inv(t)
    ensures Inv(t.(procs := Woken(t.procs, chan)))
  {
    hide PidsOk, FamilyOk, NoMissedExit, MakersOk;
    AwakeKeeps(t, Woken(t.procs, chan));
  }

  /** k sleeps in wait and has, or gets, a zombie child by the exit of cur. */
  ghost predicate Stirred(procs: seq<Proc>, cur: nat, init: nat, k: nat)
    requires cur < |procs| && k < |procs|
  {
    procs[k].state == Sleeping
    && (procs[k].chan == OfProc(procs[cur].parent) || (procs[k].chan == OfProc(init) && HasZombie(procs, cur)))
  }

  lemma LeavingAt(procs: seq<Proc>, cur: nat, init: nat, k: nat)
    requires cur < |procs| && k < |procs|
    ensures Leaving(procs, cur, init)[k] ==
      procs[k].(parent := if procs[k].parent == cur then init else procs[k].parent,
                state := if Stirred(procs, cur, init, k) then Runnable else procs[k].state)
  {
    var woken := Woken(procs, OfProc(procs[cur].parent));
    assert HasZombie(woken, cur) <==> HasZombie(procs, cur) by {
      if z :| 0 <= z < |procs| && procs[z].parent == cur && procs[z].state == Zombie { assert woken[z] == procs[z]; }
      if z :| 0 <= z < |procs| && woken[z].parent == cur && woken[z].state == Zombie { assert woken[z] == procs[z]; }
    }
    hide HasZombie;
  }

  lemma ExitPids(procs: seq<Proc>, procs': seq<Proc>, nextpid: nat, reaped: seq<nat>)
    requires PidsOk(procs, nextpid, reaped) && |procs'| == |procs|
    requires forall i :: 0 <= i < |procs| ==> procs'[i].pid == procs[i].pid && Live(procs'[i]) == Live(procs[i])
    ensures PidsOk(procs', nextpid, reaped)
  {
  }

  lemma ExitFamily(procs: seq<Proc>, cur: nat, init: nat)
    requires FamilyOk(procs, init) && cur < |procs| && procs[cur].state == Running && cur != init
    ensures (var l := Leaving(procs, cur, init); FamilyOk(l[cur := l[cur].(state := Zombie)], init))
  {
    var l := Leaving(procs, cur, init);
    var procs' := l[cur := l[cur].(state := Zombie)];
    forall k | 0 <= k < |procs| ensures Started(procs'[k]) == Started(procs[k])
        && (procs'[k].state == Unused <==> procs[k].state == Unused)
      && procs'[k].parent == (if procs[k].parent == cur then init else procs[k].parent)
          { LeavingAt(procs, cur, init, k); }
    forall q: nat ensures GoodParent(procs', q) <==> GoodParent(procs, q) && q != cur {
      if q < |procs| { LeavingAt(procs, cur, init, q); }
    }
    hide Leaving;
  }

  lemma ExitCalm(procs: seq<Proc>, maker: map<nat, nat>, cur: nat, init: nat)
    requires NoMissedExit(procs) && cur < |procs| && procs[cur].state == Running && procs[cur].parent != cur
      && init < |procs|
    ensures (var l := Leaving(procs, cur, init); NoMissedExit(l[cur := l[cur].(state := Zombie)]))
  {
    var l := Leaving(procs, cur, init);
    var procs' := l[cur := l[cur].(state := Zombie)];
    forall i, k | 0 <= i < |procs| && 0 <= k < |procs| && procs'[i].state == Sleeping && procs'[i].chan.OfProc?
      ensures procs'[i].chan.slot == i && !(procs'[k].parent == i && procs'[k].state == Zombie)
    {
      LeavingAt(procs, cur, init, i);
      LeavingAt(procs, cur, init, k);
    }
    hide Leaving;
  }

  lemma ExitMakers(procs: seq<Proc>, maker: map<nat, nat>, cur: nat, init: nat)
    requires MakersOk(procs, maker) && cur < |procs| && procs[cur].state == Running && cur !in maker.Values
    ensures (var l := Leaving(procs, cur, init); MakersOk(l[cur := l[cur].(state := Zombie)], maker))
  {
    var l := Leaving(procs, cur, init);
    var procs' := l[cur := l[cur].(state := Zombie)];
    forall k | 0 <= k < |procs| ensures procs'[k].state == Embryo <==>
        procs[k].state == Embryo { LeavingAt(procs, cur, init, k); }
    forall i | i in maker
      ensures GoodParent(procs', maker[i]) && procs'[maker[i]].state != Sleeping
        && (procs'[i].parent == |procs| || procs'[i].parent == maker[i])
    {
      assert maker[i] in maker.Values && GoodParent(procs, maker[i]);
      LeavingAt(procs, cur, init, maker[i]);
      LeavingAt(procs, cur, init, i);
    }
    hide Leaving;
  }

  /** What exit of cur does to the table: cur is a zombie, its children are init's, exactly those who sleep in
      wait on cur's parent, or on init if it got a zombie, wake up, and all else is as it was. */
  ghost predicate Exited(procs: seq<Proc>, procs': seq<Proc>, cur: nat, init: nat) {
    && cur < |procs| == |procs'| && procs'[cur].state == Zombie
    && (forall k :: 0 <= k < |procs| ==> procs'[k].parent == if procs[k].parent == cur then init else procs[k].parent)
    && (forall k :: 0 <= k < |procs| && k != cur ==>
          procs'[k].state == if Stirred(procs, cur, init, k) then Runnable else procs[k].state)
    && forall k :: 0 <= k < |procs| ==>
         procs'[k].pid == procs[k].pid && procs'[k].chan == procs[k].chan && procs'[k].killed == procs[k].killed
  }

  lemma ExitDoes(t: Table, cur: nat)
    requires cur < |t.procs|
    ensures Exited(t.procs, DoExit(t, cur).procs, cur, t.init)
  {
    var l := Leaving(t.procs, cur, t.init);
    forall k | 0 <= k < |t.procs|
      ensures l[k] == t.procs[k].(parent := if t.procs[k].parent == cur then t.init else t.procs[k].parent,
                                  state := if Stirred(t.procs, cur, t.init, k) then Runnable else t.procs[k].state)
    {
      LeavingAt(t.procs, cur, t.init, k);
    }
    hide Leaving, Stirred;
  }

  /** Nobody sleeps on cur's parent, nor on init if init got a zombie. */
  lemma ExitWakes(procs: seq<Proc>, procs': seq<Proc>, cur: nat, init: nat)
    requires Exited(procs, procs', cur, init)
    ensures forall k :: 0 <= k < |procs| && procs'[k].state == Sleeping ==>
      procs'[k].chan != OfProc(procs[cur].parent) && (HasZombie(procs, cur) ==> procs'[k].chan != OfProc(init))
  {
  }

  lemma ExitKeeps(t: Table, cur: nat)
    requires Inv(t) && Active(t, cur) && cur != t.init
    ensures Inv(DoExit(t, cur)) && Exited(t.procs, DoExit(t, cur).procs, cur, t.init)
  {
    ExitDoes(t, cur);
    hide Exited;
    var l := Leaving(t.procs, cur, t.init);
    var procs' := l[cur := l[cur].(state := Zombie)];
    forall k | 0 <= k < |t.procs| ensures procs'[k].pid == t.procs[k].pid
        && Live(procs'[k]) == Live(t.procs[k]) { LeavingAt(t.procs, cur, t.init, k); }
    assert GoodParent(t.procs, t.init) && t.procs[cur].parent != cur;
    hide PidsOk, FamilyOk, NoMissedExit, MakersOk;
    ExitPids(t.procs, procs', t.nextpid, t.reaped);
    ExitFamily(t.procs, cur, t.init);
    ExitCalm(t.procs, t.maker, cur, t.init);
    ExitMakers(t.procs, t.maker, cur, t.init);
  }

  // ---------------------------------------------------------------- every run

  /** Boot: init alone, with pid 1. */
  ghost predicate Init(t: Table) {
    && 0 == t.init < |t.procs| && t.procs[0] == Proc(Runnable, 1, |t.procs|, NoChan, false) && t.nextpid == 2
    && t.maker == map[] && t.reaped == []
    && forall i :: 1 <= i < |t.procs| ==> t.procs[i] == Proc(Unused, 0, |t.procs|, NoChan, false)
  }

  ghost predicate Runs(t: Table, run: seq<Step>)
    decreases |run|
  {
    run != [] ==> Enabled(t, run[0]) && Runs(Do(t, run[0]), run[1..])
  }

  ghost function Exec(t: Table, run: seq<Step>): Table
    requires Runs(t, run)
    decreases |run|
  {
    if run == [] then t else Exec(Do(t, run[0]), run[1..])
  }

  lemma KillKeeps(t: Table, pid: nat)
    requires Inv(t)
    ensures Inv(DoKill(t, pid))
  {
    hide PidsOk, FamilyOk, NoMissedExit, MakersOk;
    AwakeKeeps(t, DoKill(t, pid).procs);
  }

  lemma RunYieldKeeps(t: Table, s: Step)
    requires Inv(t) && Enabled(t, s) && (s.Run? || s.Yield?)
    ensures Inv(Do(t, s))
  {
    hide PidsOk, FamilyOk, NoMissedExit, MakersOk;
    AwakeKeeps(t, Do(t, s).procs);
  }

  lemma StepKeepsInv(t: Table, s: Step)
    requires Inv(t) && Enabled(t, s)
    ensures Inv(Do(t, s))
  {
    match s {
      case Alloc(cur) => AllocKeeps(t, cur);
      case AllocFails(slot) => AllocFailsKeeps(t, slot);
      case Adopt(slot) => AdoptKeeps(t, slot);
      case Start(slot) => StartKeeps(t, slot);
      case Exit(cur) => ExitKeeps(t, cur);
      case Wait(cur) => WaitKeeps(t, cur);
      case Sleep(cur, id) => SleepKeeps(t, cur, Other(id));
      case Wakeup(id) => WokenKeeps(t, Other(id));
      case Kill(pid) => KillKeeps(t, pid);
      case Run(slot) => RunYieldKeeps(t, s);
      case Yield(cur) => RunYieldKeeps(t, s);
    }
  }

  lemma {:induction false} ReachableInv(t: Table, run: seq<Step>)
    requires Init(t) && Runs(t, run)
    ensures Inv(Exec(t, run))
  {
    assert Inv(t);
    RunKeepsInv(t, run);
  }

  lemma {:induction false} RunKeepsInv(t: Table, run: seq<Step>)
    requires Inv(t) && Runs(t, run)
    ensures Inv(Exec(t, run))
    decreases |run|
  {
    if run != [] {
      StepKeepsInv(t, run[0]);
      RunKeepsInv(Do(t, run[0]), run[1..]);
    }
  }

  // ---------------------------------------------------------------- kill and slots that are not live

  /** kill marks the live process with that pid whenever there is one. */
  lemma KillFindsLive(t: Table, pid: nat, k: nat)
    requires Inv(t) && k < |t.procs| && Live(t.procs[k]) && t.procs[k].pid == pid
    ensures FirstPid(t.procs, pid, 0) == k && DoKill(t, pid).procs[k].killed
      && DoKill(t, pid).procs[k].state != Sleeping
    ensures forall i :: 0 <= i < |t.procs| && i != k ==> DoKill(t, pid).procs[i] == t.procs[i]
  {
    hide FamilyOk, NoMissedExit, MakersOk;
  }

  /** No slot that is free carries the mark of kill. */
  ghost predicate Unmarked(procs: seq<Proc>) {
    forall i :: 0 <= i < |procs| && procs[i].state == Unused ==> !procs[i].killed
  }

  /** A kill that first meets the pid in a free slot, or a fork that gives up a slot killed meanwhile. */
  ghost predicate Marks(t: Table, s: Step) {
    || (s.Kill? && FirstPid(t.procs, s.pid, 0) < |t.procs| && t.procs[FirstPid(t.procs, s.pid, 0)].state == Unused)
    || (s.AllocFails? && s.slot < |t.procs| && t.procs[s.slot].killed)
  }

  lemma ExitMarks(procs: seq<Proc>, cur: nat, init: nat, k: nat)
    requires cur < |procs| && k < |procs|
    ensures Leaving(procs, cur, init)[k].killed == procs[k].killed
    ensures Leaving(procs, cur, init)[k].state == Unused <==> procs[k].state == Unused
  {
  }

  /** The free slots stay unmarked under exactly the other steps. */
  lemma MarkStep(t: Table, s: Step)
    requires Inv(t) && Enabled(t, s) && Unmarked(t.procs)
    ensures Unmarked(Do(t, s).procs) <==> !Marks(t, s)
  {
    hide Inv;
    var procs' := Do(t, s).procs;
    match s {
      case Exit(cur) =>
        forall k | 0 <= k < |t.procs| && procs'[k].state == Unused ensures !procs'[k].killed {
          ExitMarks(t.procs, cur, t.init, k);
        }
      case Kill(pid) =>
        var k := FirstPid(t.procs, pid, 0);
        if k < |t.procs| { assert procs'[k].killed; }
      case AllocFails(slot) =>
        assert procs'[slot].state == Unused && procs'[slot].killed == t.procs[slot].killed;
      case _ =>
        forall k | 0 <= k < |t.procs| && procs'[k].state == Unused ensures !procs'[k].killed {}
    }
  }

  ghost predicate AlwaysUnmarked(t: Table, run: seq<Step>)
    requires Runs(t, run)
    decreases |run|
  {
    Unmarked(t.procs) && (run != [] ==> AlwaysUnmarked(Do(t, run[0]), run[1..]))
  }

  ghost predicate NeverMarks(t: Table, run: seq<Step>)
    requires Runs(t, run)
    decreases |run|
  {
    run != [] ==> !Marks(t, run[0]) && NeverMarks(Do(t, run[0]), run[1..])
  }

  /** In every run the free slots are unmarked throughout if and only if no step marks one. */
  lemma {:induction false} MarkRuns(t: Table, run: seq<Step>)
    requires Inv(t) && Runs(t, run) && Unmarked(t.procs)
    ensures AlwaysUnmarked(t, run) <==> NeverMarks(t, run)
    decreases |run|
  {
    hide Inv, Enabled, Do, Marks, Unmarked;
    if run != [] {
      MarkStep(t, run[0]);
      StepKeepsInv(t, run[0]);
      var t' := Do(t, run[0]);
      if Unmarked(t'.procs) {
        MarkRuns(t', run[1..]);
      } else {
        NotUnmarked(t', run[1..]);
      }
    }
  }

  lemma NotUnmarked(t: Table, run: seq<Step>)
    requires Runs(t, run) && !Unmarked(t.procs)
    ensures !AlwaysUnmarked(t, run)
  {
  }

  // ---------------------------------------------------------------- who is born killed

  lemma MakerSlot(t: Table, k: nat)
    requires Inv(t) && k in t.maker
    ensures k < |t.procs| && t.procs[k].state == Embryo
  {
  }

  /** While a slot is being filled, only kill of its pid marks it. */
  lemma EmbryoStep(t: Table, s: Step, k: nat)
    requires Inv(t) && Enabled(t, s) && k in t.maker && k in Do(t, s).maker
    ensures k < |t.procs| && k < |Do(t, s).procs| && Do(t, s).procs[k].pid == t.procs[k].pid
    ensures Do(t, s).procs[k].killed <==> t.procs[k].killed || s == Kill(t.procs[k].pid)
  {
    hide Inv;
    MakerSlot(t, k);
    match s {
      case Exit(cur) =>
        LeavingAt(t.procs, cur, t.init, k);
        ExitMarks(t.procs, cur, t.init, k);
      case Kill(pid) => if pid == t.procs[k].pid { KillFindsLive(t, pid, k); }
      case _ =>
    }
  }

  ghost predicate StaysEmbryo(t: Table, run: seq<Step>, k: nat)
    requires Runs(t, run)
    decreases |run|
  {
    k in t.maker && (run != [] ==> StaysEmbryo(Do(t, run[0]), run[1..], k))
  }

  lemma {:induction false} EmbryoRun(t: Table, run: seq<Step>, k: nat)
    requires Inv(t) && Runs(t, run) && StaysEmbryo(t, run, k)
    ensures k < |t.procs| && k in Exec(t, run).maker && Inv(Exec(t, run)) && k < |Exec(t, run).procs|
    ensures Exec(t, run).procs[k].killed <==> t.procs[k].killed || Kill(t.procs[k].pid) in run
    decreases |run|
  {
    hide Inv, Do, Enabled;
    MakerSlot(t, k);
    if run != [] {
      var t' := Do(t, run[0]);
      assert StaysEmbryo(t', run[1..], k);
      StepKeepsInv(t, run[0]);
      EmbryoStep(t, run[0], k);
      EmbryoRun(t', run[1..], k);
      assert run == [run[0]] + run[1..];
    }
  }

  /** A process is born killed if and only if its slot carried a mark when fork took it, or somebody killed
      its pid before fork made it runnable. */
  lemma BornKilledExactly(t: Table, cur: nat, run: seq<Step>, k: nat)
    requires Inv(t) && Enabled(t, Alloc(cur)) && k == FirstUnused(t.procs, 0) < |t.procs|
    requires Runs(Do(t, Alloc(cur)), run) && StaysEmbryo(Do(t, Alloc(cur)), run, k)
    requires Enabled(Exec(Do(t, Alloc(cur)), run), Start(k))
    ensures Do(Exec(Do(t, Alloc(cur)), run), Start(k)).procs[k].killed <==> t.procs[k].killed || Kill(t.nextpid) in run
  {
    hide Inv, Runs, Exec, StaysEmbryo;
    StepKeepsInv(t, Alloc(cur));
    EmbryoRun(Do(t, Alloc(cur)), run, k);
  }

  /** The run leads from t to e. */
  ghost predicate Reaches(t: Table, run: seq<Step>, e: Table) { Runs(t, run) && Exec(t, run) == e }

  lemma ReachNone(t: Table)
    ensures Reaches(t, [], t)
  {
  }

  lemma {:induction false} ReachThen(t: Table, run: seq<Step>, e: Table, s: Step, next: seq<Step>)
    requires Reaches(t, run, e) && Enabled(e, s) && next == run + [s]
    ensures Reaches(t, next, Do(e, s))
    decreases |run|
  {
    hide Enabled, Do;
    if run == [] {
      assert next == [s] && next[1..] == [];
      ReachNone(Do(e, s));
    } else {
      ReachThen(Do(t, run[0]), run[1..], e, s, next[1..]);
    }
  }

  /** A kill of a free slot: after kill(0) at boot, the first child of init is born killed. */
  lemma BornKilled(t: Table) returns (e: Table)
    requires Init(t) && |t.procs| >= 2
    ensures Marks(t, Kill(0)) && Reaches(t, [Kill(0), Run(0), Alloc(0), Adopt(1), Start(1)], e)
    ensures |e.procs| >= 2 && e.procs[1].state == Runnable && e.procs[1].killed
  {
    hide Reaches;
    ReachNone(t);
    assert FirstPid(t.procs, 0, 0) == 1;
    ReachThen(t, [], t, Kill(0), [Kill(0)]);
    e := Do(t, Kill(0));
    ReachThen(t, [Kill(0)], e, Run(0), [Kill(0), Run(0)]);
    e := Do(e, Run(0));
    assert FirstUnused(e.procs, 0) == 1;
    ReachThen(t, [Kill(0), Run(0)], e, Alloc(0), [Kill(0), Run(0), Alloc(0)]);
    e := Do(e, Alloc(0));
    ReachThen(t, [Kill(0), Run(0), Alloc(0)], e, Adopt(1), [Kill(0), Run(0), Alloc(0), Adopt(1)]);
    e := Do(e, Adopt(1));
    ReachThen(t, [Kill(0), Run(0), Alloc(0), Adopt(1)], e, Start(1), [Kill(0), Run(0), Alloc(0), Adopt(1), Start(1)]);
    e := Do(e, Start(1));
  }

  /** A child is killed while fork fills its slot, and that fork fails for want of memory. */
  lemma KilledEmbryo(t: Table) returns (e: Table)
    requires Init(t) && |t.procs| >= 2
    ensures Reaches(t, [Run(0), Alloc(0), Kill(2), AllocFails(1)], e)
    ensures e.procs == t.procs[0 := t.procs[0].(state := Running)][1 := t.procs[1].(pid := 2, killed := true)]
    ensures e.maker == map[] && e.nextpid == 3
  {
    hide Reaches;
    ReachNone(t);
    ReachThen(t, [], t, Run(0), [Run(0)]);
    e := Do(t, Run(0));
    assert FirstUnused(e.procs, 0) == 1;
    ReachThen(t, [Run(0)], e, Alloc(0), [Run(0), Alloc(0)]);
    e := Do(e, Alloc(0));
    assert FirstPid(e.procs, 2, 0) == 1;
    ReachThen(t, [Run(0), Alloc(0)], e, Kill(2), [Run(0), Alloc(0), Kill(2)]);
    e := Do(e, Kill(2));
    ReachThen(t, [Run(0), Alloc(0), Kill(2)], e, AllocFails(1), [Run(0), Alloc(0), Kill(2), AllocFails(1)]);
    e := Do(e, AllocFails(1));
  }

  /** The slot was given up with its mark: the next child in it is born killed although kill met no free slot. */
  lemma BornKilledAgain(t: Table) returns (e: Table)
    requires Init(t) && |t.procs| >= 2
    ensures Reaches(t, [Run(0), Alloc(0), Kill(2), AllocFails(1), Alloc(0), Adopt(1), Start(1)], e)
    ensures |e.procs| >= 2 && e.procs[1].state == Runnable && e.procs[1].killed && e.procs[1].pid == 3
  {
    hide Reaches;
    e := KilledEmbryo(t);
    var run := [Run(0), Alloc(0), Kill(2), AllocFails(1)];
    assert FirstUnused(e.procs, 0) == 1;
    ReachThen(t, run, e, Alloc(0), run + [Alloc(0)]);
    e := Do(e, Alloc(0));
    ReachThen(t, run + [Alloc(0)], e, Adopt(1), run + [Alloc(0), Adopt(1)]);
    e := Do(e, Adopt(1));
    ReachThen(t, run + [Alloc(0), Adopt(1)], e, Start(1), run + [Alloc(0), Adopt(1), Start(1)]);
    e := Do(e, Start(1));
    assert run + [Alloc(0), Adopt(1), Start(1)] == [Run(0), Alloc(0), Kill(2), AllocFails(1), Alloc(0), Adopt(1),
        Start(1)];
  }
  // ---------------------------------------------------------------- exit and wait together

  lemma NotOwnParent(t: Table, cur: nat)
    requires Inv(t) && cur < |t.procs|
    ensures t.procs[cur].parent != cur
  {
  }

  /** An exited process is reaped by its parent's wait or stays a zombie; its parent is the same until that exits. */
  lemma ZombieStep(t: Table, z: nat, s: Step)
    requires Inv(t) && Enabled(t, s) && z < |t.procs| && t.procs[z].state == Zombie
    ensures z < |Do(t, s).procs|
    ensures (var p, p' := t.procs[z], Do(t, s).procs[z];
      || (p'.state == Zombie && p'.pid == p.pid && p'.parent == if s == Exit(p.parent) then t.init else p.parent)
      || (s == Wait(p.parent) && p'.state == Unused && Do(t, s).reaped == t.reaped + [p.pid]))
  {
    hide Inv, Leaving;
    match s {
      case Exit(cur) => LeavingAt(t.procs, cur, t.init, z);
      case AllocFails(slot) => MakerSlot(t, slot);
      case Start(slot) => MakerSlot(t, slot);
      case Adopt(slot) => MakerSlot(t, slot);
      case _ =>
    }
  }

  lemma ReapedGrows(t: Table, s: Step)
    requires Enabled(t, s)
    ensures t.reaped <= Do(t, s).reaped
  {
  }

  /** The process in slot z has exited with this pid and waits for its parent, who is not asleep in wait and whose
      next wait reaps a zombie instead of going to sleep. */
  ghost predicate Due(t: Table, z: nat, pid: nat) {
    && z < |t.procs| && t.procs[z].state == Zombie && t.procs[z].pid == pid
    && (var q := t.procs[z].parent;
        && GoodParent(t.procs, q) && !(t.procs[q].state == Sleeping && t.procs[q].chan == OfProc(q))
        && (Active(t, q) ==> WaitReaps(t, q)))
  }

  ghost predicate WaitReaps(t: Table, q: nat)
    requires Active(t, q)
  {
    var t' := Do(t, Wait(q));
    && |t'.procs| == |t.procs| && t'.procs[q].state == Running
    && exists k :: 0 <= k < |t.procs| && t.procs[k].parent == q && t.procs[k].state == Zombie
                   && t'.procs[k].state == Unused && t'.reaped == t.reaped + [t.procs[k].pid]
  }

  lemma ZombieDue(t: Table, z: nat)
    requires Inv(t) && z < |t.procs| && t.procs[z].state == Zombie
    ensures Due(t, z, t.procs[z].pid)
  {
    hide PidsOk, MakersOk;
    var q := t.procs[z].parent;
    assert z != t.init;
    if Active(t, q) {
      var k := FirstZombie(t.procs, q, 0);
      assert k < |t.procs|;
      assert Do(t, Wait(q)).procs[k].state == Unused;
    }
  }

  /** Whatever happens after an exit, the pid has been reaped or is due. */
  lemma {:induction false} ExitSeen(t: Table, cur: nat, run: seq<Step>)
    requires Inv(t) && Enabled(t, Exit(cur)) && Runs(Do(t, Exit(cur)), run)
    ensures (var e := Exec(Do(t, Exit(cur)), run); t.procs[cur].pid in e.reaped || Due(e, cur, t.procs[cur].pid))
  {
    StepKeepsInv(t, Exit(cur));
    ExitDoes(t, cur);
    hide Inv, Due, Enabled, DoExit;
    ZombieSeen(Do(t, Exit(cur)), cur, run);
  }

  lemma {:induction false} ZombieSeen(t: Table, z: nat, run: seq<Step>)
    requires Inv(t) && Runs(t, run) && z < |t.procs| && t.procs[z].state == Zombie
    ensures t.procs[z].pid in Exec(t, run).reaped || Due(Exec(t, run), z, t.procs[z].pid)
    decreases |run|
  {
    hide Inv, Due, Enabled, Do;
    if run == [] {
      ZombieDue(t, z);
    } else {
      StepKeepsInv(t, run[0]);
      ZombieStep(t, z, run[0]);
      var t' := Do(t, run[0]);
      if t'.procs[z].state == Zombie { ZombieSeen(t', z, run[1..]); } else {
        assert t'.reaped[|t.reaped|] == t.procs[z].pid;
        ReapedStays(t', run[1..]);
      }
    }
  }

  lemma {:induction false} ReapedStays(t: Table, run: seq<Step>)
    requires Runs(t, run)
    ensures t.reaped <= Exec(t, run).reaped
    decreases |run|
  {
    hide Enabled, Do;
    if run != [] {
      ReapedGrows(t, run[0]);
      ReapedStays(Do(t, run[0]), run[1..]);
    }
  }

  // ---------------------------------------------------------------- the life of a process

  /** Nobody's parent or maker is a free slot, and nobody sleeps on a running process. */
  lemma FreeSlot(t: Table, cur: nat, k: nat)
    requires Inv(t) && Active(t, cur) && k < |t.procs| && t.procs[k].state == Unused
    ensures k != t.init && k != cur && k !in t.maker && k !in t.maker.Values && t.procs[k].parent == |t.procs|
    ensures forall i :: 0 <= i < |t.procs| ==> t.procs[i].parent != k
    ensures forall i :: 0 <= i < |t.procs| && t.procs[i].state == Sleeping ==> t.procs[i].chan != OfProc(cur)
  {
    forall i | i in t.maker ensures t.maker[i] != k { assert GoodParent(t.procs, t.maker[i]); }
  }

  /** exit of a process without children whose parent does not sleep changes its own state only. */
  lemma QuietExit(t: Table, k: nat)
    requires k < |t.procs| && forall i :: 0 <= i < |t.procs| ==> t.procs[i].parent != k
    requires forall i :: 0 <= i < |t.procs| && t.procs[i].state == Sleeping ==>
      t.procs[i].chan != OfProc(t.procs[k].parent)
    ensures DoExit(t, k) == t.(procs := t.procs[k := t.procs[k].(state := Zombie)])
  {
    forall i | 0 <= i < |t.procs| ensures Leaving(t.procs, k, t.init)[i] == t.procs[i] {
      LeavingAt(t.procs, k, t.init, i);
    }
  }

  lemma OnlyZombie(procs: seq<Proc>, cur: nat, k: nat)
    requires k < |procs| && procs[k].parent == cur && procs[k].state == Zombie
    requires forall i :: 0 <= i < |procs| && i != k ==> !(procs[i].parent == cur && procs[i].state == Zombie)
    ensures FirstZombie(procs, cur, 0) == k
  {
  }

  /** fork: the child runs, in a slot that was free, with a new pid and with cur as its parent. */
  lemma ForkRuns(t: Table, cur: nat, k: nat) returns (e: Table)
    requires Inv(t) && Active(t, cur)
    requires k < |t.procs| && t.procs[k].state == Unused && forall i :: 0 <= i < k ==> t.procs[i].state != Unused
    ensures Reaches(t, [Alloc(cur), Adopt(k), Start(k), Run(k)], e)
    ensures e == t.(procs := t.procs[k := Proc(Running, t.nextpid, cur, NoChan, t.procs[k].killed)],
                    nextpid := t.nextpid + 1)
  {
    hide Inv, Reaches;
    FreeSlot(t, cur, k);
    assert FirstUnused(t.procs, 0) == k;
    ReachNone(t);
    ReachThen(t, [], t, Alloc(cur), [Alloc(cur)]);
    e := Do(t, Alloc(cur));
    ReachThen(t, [Alloc(cur)], e, Adopt(k), [Alloc(cur), Adopt(k)]);
    e := Do(e, Adopt(k));
    ReachThen(t, [Alloc(cur), Adopt(k)], e, Start(k), [Alloc(cur), Adopt(k), Start(k)]);
    e := Do(e, Start(k));
    assert e.maker == t.maker;
    ReachThen(t, [Alloc(cur), Adopt(k), Start(k)], e, Run(k), [Alloc(cur), Adopt(k), Start(k), Run(k)]);
    e := Do(e, Run(k));
  }

  /** fork, exit of the child, wait: the parent gets the child's pid, which is new, and the table is as before,
      with the child's slot free and clean. */
  lemma ForkExitWait(t: Table, cur: nat, k: nat) returns (e: Table)
    requires Inv(t) && Active(t, cur) && !HasZombie(t.procs, cur)
    requires k < |t.procs| && t.procs[k].state == Unused && forall i :: 0 <= i < k ==> t.procs[i].state != Unused
    ensures Reaches(t, [Alloc(cur), Adopt(k), Start(k), Run(k), Exit(k), Wait(cur)], e)
    ensures e == t.(procs := t.procs[k := Proc(Unused, 0, |t.procs|, NoChan, false)], nextpid := t.nextpid + 1,
                    reaped := t.reaped + [t.nextpid])
  {
    hide Inv, Reaches, DoExit, FirstZombie;
    FreeSlot(t, cur, k);
    var run := [Alloc(cur), Adopt(k), Start(k), Run(k)];
    var r := ForkRuns(t, cur, k);
    ReachThen(t, run, r, Exit(k), run + [Exit(k)]);
    QuietExit(r, k);
    var z := Do(r, Exit(k));
    ReachThen(t, run + [Exit(k)], z, Wait(cur), run + [Exit(k), Wait(cur)]);
    OnlyZombie(z.procs, cur, k);
    e := Do(z, Wait(cur));
    assert run + [Exit(k), Wait(cur)] == [Alloc(cur), Adopt(k), Start(k), Run(k), Exit(k), Wait(cur)];
    assert e.procs == t.procs[k := Proc(Unused, 0, |t.procs|, NoChan, false)];
  }
}
