/** The table-scanning code of proc.c, each method run with ptable.lock held from start to end.  Every
    method is proved to perform its step of the process-table machine. */
module ProcCode {
  import opened ProcModel

  class Ptable {
    var procs: seq<Proc>
    var nextpid: nat
    const init: nat
    ghost var maker: map<nat, nat>
    ghost var reaped: seq<nat>

    constructor (n: nat)
      requires n > 0
      ensures |procs| == n && Init(T())
    {
      procs := [Proc(Runnable, 1, n, NoChan, false)] + seq(n - 1, i => Proc(Unused, 0, n, NoChan, false));
      nextpid, init, maker, reaped := 2, 0, map[], [];
    }

    ghost function T(): Table reads this { Table(procs, nextpid, init, maker, reaped) }

    method Wakeup1(chan: Chan)
      modifies this`procs
      ensures procs == Woken(old(procs), chan)
      ensures |procs| == |old(procs)|
      ensures forall k :: 0 <= k < |procs| ==>
        procs[k] == if old(procs)[k].state == Sleeping && old(procs)[k].chan == chan
        then old(procs)[k].(state := Runnable) else old(procs)[k]
    {
      var p := 0;
      while p < |procs|
        invariant p <= |procs| == |old(procs)|
        invariant forall k :: 0 <= k < |procs| ==>
          procs[k] == if k < p then WokenProc(old(procs)[k], chan) else old(procs)[k]
      {
        if procs[p].state == Sleeping && procs[p].chan == chan {
          procs := procs[p := procs[p].(state := Runnable)];
        }
        p := p + 1;
      }
    }

    /** The loop of exit that passes abandoned children to init, waking init for each zombie among them. */
    method PassChildren(cur: nat)
      requires cur < |procs| && cur != init
      modifies this`procs
      ensures procs == if HasZombie(old(procs), cur) then Woken(Reparented(old(procs), cur, init), OfProc(init))
                       else Reparented(old(procs), cur, init)
    {
      ghost var was := procs;
      ghost var woke := false;
      var p := 0;
      while p < |procs|
        invariant p <= |procs| == |was|
        invariant woke <==> exists k :: 0 <= k < p && was[k].parent == cur && was[k].state == Zombie
        invariant forall k :: 0 <= k < |procs| ==> procs[k] == Passed(was[k], cur, k < p, woke)
      {
        if procs[p].parent == cur {
          procs := procs[p := procs[p].(parent := init)];
          if procs[p].state == Zombie {
            woke := true;
            Wakeup1(OfProc(init));
          }
        }
        p := p + 1;
      }
    }

    /** A process during that loop. */
    ghost function Passed(p: Proc, cur: nat, past: bool, woke: bool): Proc {
      var q := if past then AdoptedProc(p, cur, init) else p;
      if woke then WokenProc(q, OfProc(init)) else q
    }

    /** exit, from the moment ptable.lock is held. */
    method Exit(cur: nat)
      requires Inv(T()) && cur < |procs| && procs[cur].state == Running && cur !in maker.Values && cur != init
      modifies this`procs
      ensures |procs| == |old(procs)| && T() == Do(old(T()), Step.Exit(cur)) && Inv(T())
      ensures procs[cur].state == Zombie && Exited(old(procs), procs, cur, init)
      ensures forall k :: 0 <= k < |procs| && old(procs)[k].parent == cur ==> procs[k].parent == init
      ensures forall k :: 0 <= k < |procs| && old(procs)[k].parent != cur ==> procs[k].parent == old(procs)[k].parent
      ensures forall k :: 0 <= k < |procs| && procs[k].state == Sleeping ==>
        procs[k].chan != OfProc(old(procs)[cur].parent)
      ensures forall z :: 0 <= z < |procs| && old(procs)[z].parent == cur && old(procs)[z].state == Zombie ==>
        forall k :: 0 <= k < |procs| && procs[k].state == Sleeping ==> procs[k].chan != OfProc(init)
      ensures forall k :: 0 <= k < |procs| && k != cur && procs[k].state != old(procs)[k].state ==>
        old(procs)[k].state == Sleeping && procs[k].state == Runnable && old(procs)[k].chan.OfProc?
      ensures forall k :: 0 <= k < |procs| ==>
        procs[k] == old(procs)[k].(state := procs[k].state, parent := procs[k].parent)
    {
      hide Inv;
      ExitKeeps(T(), cur);
      Wakeup1(OfProc(procs[cur].parent));
      PassChildren(cur);
      procs := procs[cur := procs[cur].(state := Zombie)];
      ExitWakes(old(procs), procs, cur, init);
    }

    /** A zombie's slot becomes Unused. */
    method Reap(p: nat) returns (pid: nat)
      requires p < |procs|
      modifies this`procs, this`reaped
      ensures pid == old(procs)[p].pid && reaped == old(reaped) + [pid]
      ensures procs == old(procs)[p := old(procs)[p].(pid := 0, parent := |procs|, killed := false, state := Unused)]
    {
      pid := procs[p].pid;
      procs := procs[p := procs[p].(pid := 0)];
      procs := procs[p := procs[p].(parent := |procs|)];
      procs := procs[p := procs[p].(killed := false)];
      procs := procs[p := procs[p].(state := Unused)];
      reaped := reaped + [pid];
    }

    /** The first zombie child of cur is in slot z; its slot is free afterwards and no other slot changes. */
    ghost predicate Reaps(procs: seq<Proc>, procs': seq<Proc>, cur: nat, z: nat, pid: int) {
      && z < |procs| && procs[z].parent == cur && procs[z].state == Zombie && procs[z].pid == pid
      && (forall k :: 0 <= k < z ==> !(procs[k].parent == cur && procs[k].state == Zombie))
      && procs' == procs[z := Proc(Unused, 0, |procs|, procs[z].chan, false)]
    }

    /** One round of wait, up to the return or to sleep: the pid, -1, or asleep. */
    method Wait(cur: nat) returns (pid: int, asleep: bool)
      requires Inv(T()) && cur < |procs| && procs[cur].state == Running && cur !in maker.Values
      modifies this`procs, this`reaped
      ensures |procs| == |old(procs)|
      ensures T() == Do(old(T()), Step.Wait(cur)) && Inv(T())
      ensures asleep <==> HasChild(old(procs), cur) && !HasZombie(old(procs), cur) && !old(procs[cur].killed)
      ensures asleep ==>
        reaped == old(reaped) && procs == old(procs)[cur := old(procs[cur]).(chan := OfProc(cur), state := Sleeping)]
      ensures !asleep && HasZombie(old(procs), cur) ==>
        pid > 0 && reaped == old(reaped) + [pid as nat] && exists z :: Reaps(old(procs), procs, cur, z, pid)
      ensures !asleep && !HasZombie(old(procs), cur) ==> pid == -1 && procs == old(procs) && reaped == old(reaped)
    {
      hide Inv;
      PidsOnce(T());
      StepKeepsInv(T(), Step.Wait(cur));
      var havekids := false;
      var p := 0;
      while p < |procs|
        invariant p <= |procs| && FirstZombie(procs, cur, 0) == FirstZombie(procs, cur, p) && procs == old(procs)
          && reaped == old(reaped)
        invariant havekids <==> exists k :: 0 <= k < p && Child(procs, cur, k)
      {
        if procs[p].parent == cur {
          assert Child(procs, cur, p);
          havekids := true;
          if procs[p].state == Zombie {
            pid := Reap(p);
            assert Reaps(old(procs), procs, cur, p, pid);
            return pid, false;
          }
        }
        p := p + 1;
      }
      if !havekids || procs[cur].killed { return -1, false; }
      procs := procs[cur := procs[cur].(chan := OfProc(cur))];
      procs := procs[cur := procs[cur].(state := Sleeping)];
      return -1, true;
    }

    /** exit of cur and then wait of its parent, who is running: it does not sleep and returns the pid of a zombie. */
    method ExitThenWait(cur: nat) returns (pid: int, asleep: bool)
      requires Inv(T()) && cur < |procs| && procs[cur].state == Running && cur !in maker.Values && cur != init
      requires procs[cur].parent < |procs| && procs[procs[cur].parent].state == Running
      requires procs[cur].parent !in maker.Values
      modifies this`procs, this`reaped
      ensures |procs| == |old(procs)| && Inv(T()) && !asleep && pid > 0 && reaped == old(reaped) + [pid as nat]
      ensures exists z :: 0 <= z < |procs| && Gone(old(procs), procs, cur, z, pid)
    {
      NotOwnParent(T(), cur);
      hide Inv, Exited;
      var q := procs[cur].parent;
      Exit(cur);
      ghost var left := procs;
      assert HasZombie(procs, q);
      pid, asleep := Wait(q);
      ghost var z :| Reaps(left, procs, q, z, pid);
      assert Gone(old(procs), procs, cur, z, pid);
    }

    /** Slot z, of cur or of a zombie child of its parent or of its own, is free now. */
    ghost predicate Gone(procs: seq<Proc>, procs': seq<Proc>, cur: nat, z: nat, pid: int)
      requires cur < |procs| == |procs'| && z < |procs|
    {
      && procs'[z].state == Unused && procs[z].pid == pid
      && (z == cur || (procs[z].state == Zombie && (procs[z].parent == procs[cur].parent || procs[z].parent == cur)))
    }

    /** sleep on a channel other than a process, from the moment ptable.lock is held. */
    method Sleep(cur: nat, id: nat)
      requires Inv(T()) && cur < |procs| && procs[cur].state == Running && cur !in maker.Values
      modifies this`procs
      ensures T() == Do(old(T()), Step.Sleep(cur, id)) && Inv(T())
      ensures procs == old(procs)[cur := old(procs[cur]).(chan := Other(id), state := Sleeping)]
    {
      hide Inv;
      StepKeepsInv(T(), Step.Sleep(cur, id));
      procs := procs[cur := procs[cur].(chan := Other(id))];
      procs := procs[cur := procs[cur].(state := Sleeping)];
    }

    /** wakeup of a channel other than a process. */
    method Wakeup(id: nat)
      requires Inv(T())
      modifies this`procs
      ensures T() == Do(old(T()), Step.Wakeup(id)) && Inv(T()) && |procs| == |old(procs)|
      ensures forall k :: 0 <= k < |procs| ==>
        procs[k] == if old(procs)[k].state == Sleeping && old(procs)[k].chan == Other(id)
        then old(procs)[k].(state := Runnable) else old(procs)[k]
    {
      hide Inv;
      StepKeepsInv(T(), Step.Wakeup(id));
      Wakeup1(Other(id));
    }

    /** k is the first slot, in use or not, with this pid. */
    ghost predicate FirstWith(procs: seq<Proc>, pid: nat, k: nat) {
      k < |procs| && procs[k].pid == pid && forall j :: 0 <= j < k ==> procs[j].pid != pid
    }

    method Kill(pid: nat) returns (r: int)
      requires Inv(T())
      modifies this`procs
      ensures |procs| == |old(procs)|
      ensures T() == Do(old(T()), Step.Kill(pid)) && Inv(T())
      ensures r == 0 <==> exists k :: 0 <= k < |procs| && old(procs)[k].pid == pid
      ensures forall k :: 0 <= k < |procs| && old(procs)[k].pid == pid && Live(old(procs)[k]) ==>
        procs[k].killed && procs[k].state != Sleeping
      ensures forall k :: 0 <= k < |procs| ==> procs[k] == if !FirstWith(old(procs), pid, k) then old(procs)[k]
        else old(procs)[k].(killed := true,
                            state := if old(procs)[k].state == Sleeping then Runnable else old(procs)[k].state)
    {
      hide Inv;
      PidsOnce(T());
      StepKeepsInv(T(), Step.Kill(pid));
      var p := 0;
      while p < |procs|
        invariant p <= |procs| && FirstPid(procs, pid, 0) == FirstPid(procs, pid, p) && procs == old(procs)
        invariant forall k :: 0 <= k < p ==> procs[k].pid != pid
      {
        if procs[p].pid == pid {
          procs := procs[p := procs[p].(killed := true)];
          if procs[p].state == Sleeping {
            procs := procs[p := procs[p].(state := Runnable)];
          }
          return 0;
        }
        p := p + 1;
      }
      return -1;
    }

    /** The part of allocproc under the lock: a slot, with a pid no process had before. */
    method Allocproc(ghost cur: nat) returns (p: nat, ok: bool)
      requires Inv(T()) && cur < |procs| && procs[cur].state == Running && cur !in maker.Values
      modifies this`procs, this`nextpid, this`maker
      ensures |procs| == |old(procs)|
      ensures T() == Do(old(T()), Alloc(cur)) && Inv(T())
      ensures ok <==> exists k :: 0 <= k < |procs| && old(procs)[k].state == Unused
      ensures ok ==> p < |procs| && old(procs)[p].state == Unused
      ensures ok ==> forall k :: 0 <= k < p ==> old(procs)[k].state != Unused
      ensures ok ==> procs == old(procs)[p := old(procs)[p].(state := Embryo, pid := old(nextpid))]
      ensures ok ==> nextpid == old(nextpid) + 1 && maker == old(maker)[p := cur]
      ensures ok ==> (forall k :: 0 <= k < |procs| ==> old(procs)[k].pid != procs[p].pid) && procs[p].pid !in reaped
      ensures !ok ==> unchanged(this)
    {
      hide Inv;
      PidsOnce(T());
      StepKeepsInv(T(), Alloc(cur));
      p := 0;
      while p < |procs|
        invariant p <= |procs| && FirstUnused(procs, 0) == FirstUnused(procs, p)
        invariant forall k :: 0 <= k < p ==> procs[k].state != Unused
      {
        if procs[p].state == Unused {
          procs := procs[p := procs[p].(state := Embryo)];
          procs := procs[p := procs[p].(pid := nextpid)];
          nextpid := nextpid + 1;
          maker := maker[p := cur];
          return p, true;
        }
        p := p + 1;
      }
      return p, false;
    }
  }
}
