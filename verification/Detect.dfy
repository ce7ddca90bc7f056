/** The deadlock detector over the sleep locks it looks at: what a report on a snapshot means for the processes. */
module Detect {
  import S = Sync
  import W = Deadlock

  ghost predicate TakenIn(s: S.State) { forall h :: h in s.taken ==> h.0 < |s.pc| }

  lemma {:induction false} RunKeepsTaken(s: S.State, run: seq<S.Step>)
    requires TakenIn(s) && S.Runs(s, run)
    ensures TakenIn(S.Exec(s, run))
    decreases |run|
  {
    if run != [] { RunKeepsTaken(S.Do(s, run[0]), run[1..]); }
  }

  /** Different processes have different, positive pids. */
  ghost predicate Pids(pids: seq<nat>) {
    && (forall p :: 0 <= p < |pids| ==> pids[p] > 0)
    && forall p, q :: 0 <= p < q < |pids| ==> pids[p] != pids[q]
  }

  /** The process table and the pid fields of the locks in state s, lock r being at address r + 1: exactly the
      processes asleep in acquiresleep are SLEEPING with a lock to wait for. */
  ghost predicate Pictures(procs: seq<W.Proc>, holder: nat -> int, s: S.State, pids: seq<nat>) {
    && |s.pc| == |pids| <= |procs| && Pids(pids)
    && (forall p :: 0 <= p < |procs| && procs[p].state == W.SLEEPING && procs[p].waiting != 0 ==>
          p < |pids| && s.pc[p].Asleep?)
    && (forall p :: 0 <= p < |pids| ==> procs[p].pid == pids[p])
    && (forall p :: 0 <= p < |pids| && s.pc[p].Asleep? ==>
          procs[p].state == W.SLEEPING && procs[p].waiting == s.pc[p].r + 1)
    && (forall h :: h in s.taken && h.0 < |pids| ==> holder(h.1 + 1) == pids[h.0])
    && (forall r: nat :: !S.HasHolder(s.taken, r) ==> holder(r + 1) == 0)
  }

  /** A wait cycle that the detector can see: all asleep, all pids in its table, nobody waiting for itself. */
  ghost predicate Visible(s: S.State, pids: seq<nat>, ps: seq<nat>, rs: seq<nat>) {
    && S.Deadlocked(s, ps, rs) && ps != [] && |pids| == |s.pc|
    && forall i :: 0 <= i < |ps| ==> Shows(s, pids, ps, i)
  }

  ghost predicate Shows(s: S.State, pids: seq<nat>, ps: seq<nat>, i: nat)
    requires i < |ps|
  {
    ps[i] < |s.pc| == |pids| && s.pc[ps[i]].Asleep? && pids[ps[i]] < W.NPROC && ps[i] != ps[S.Succ(i, |ps|)]
  }

  /** One edge of the wait-for relation is one process asleep on a lock of the other. */
  lemma EdgeOf(procs: seq<W.Proc>, holder: nat -> int, s: S.State, pids: seq<nat>, a: nat, b: nat)
          returns (p: nat, q: nat)
    requires Pictures(procs, holder, s, pids) && TakenIn(s) && W.Blocked(procs, holder, a, b)
    ensures p < |pids| && q < |pids| && p != q && pids[p] == a && pids[q] == b
    ensures s.pc[p].Asleep? && (q, s.pc[p].r) in s.taken
  {
    p :| 0 <= p < |procs| && procs[p].state == W.SLEEPING && procs[p].waiting != 0
      && procs[p].pid == a && holder(procs[p].waiting) == b > 0 && a != b;
    var r := s.pc[p].r;
    assert S.HasHolder(s.taken, r);
    var h :| h in s.taken && h.1 == r;
    q := h.0;
    assert h == (q, r);
  }

  lemma SamePid(pids: seq<nat>, p: nat, q: nat)
    requires Pids(pids) && p < |pids| && q < |pids| && pids[p] == pids[q]
    ensures p == q
  {
  }

  /** The processes of a closed walk in the wait-for relation, and the locks they wait for. */
  lemma {:induction false} WalkOf(procs: seq<W.Proc>, holder: nat -> int, s: S.State, pids: seq<nat>, w: seq<nat>,
          n: nat)
    returns (ps: seq<nat>, rs: seq<nat>)
    requires Pictures(procs, holder, s, pids) && TakenIn(s) && n < |w|
    requires forall i :: 0 < i < |w| ==> W.Blocked(procs, holder, w[i - 1], w[i])
    ensures |ps| == |rs| == n && forall i :: 0 <= i < n ==> Link(s, pids, w, ps, rs, i)
  {
    ps, rs := [], [];
    if n > 0 {
      ps, rs := WalkOf(procs, holder, s, pids, w, n - 1);
      var ps0, rs0 := ps, rs;
      assert W.Blocked(procs, holder, w[n - 1], w[n]);
      var p, q := EdgeOf(procs, holder, s, pids, w[n - 1], w[n]);
      ps, rs := ps + [p], rs + [s.pc[p].r];
      forall i | 0 <= i < n ensures Link(s, pids, w, ps, rs, i) {
        if i < n - 1 { assert Link(s, pids, w, ps0, rs0, i); } else { assert Holds(s, pids, w[n], rs[i], q); }
      }
    }
  }

  ghost predicate Holds(s: S.State, pids: seq<nat>, pid: nat, r: nat, q: nat) {
    q < |pids| && pids[q] == pid && (q, r) in s.taken
  }

  ghost predicate HeldBy(s: S.State, pids: seq<nat>, pid: nat, r: nat) { exists q :: Holds(s, pids, pid, r, q) }

  /** ps[i] is the process with pid w[i], asleep on lock rs[i], which a process with pid w[i + 1] holds. */
  ghost predicate Link(s: S.State, pids: seq<nat>, w: seq<nat>, ps: seq<nat>, rs: seq<nat>, i: nat)
    requires |s.pc| == |pids| && i < |ps| == |rs| && i + 1 < |w|
  {
    && ps[i] < |pids| && pids[ps[i]] == w[i] && s.pc[ps[i]] == S.Asleep(rs[i]) && w[i] != w[i + 1]
    && HeldBy(s, pids, w[i + 1], rs[i])
  }

  lemma LinksDeadlock(s: S.State, pids: seq<nat>, w: seq<nat>, ps: seq<nat>, rs: seq<nat>)
    requires S.Exclusive(s) && Pids(pids) && |s.pc| == |pids| && |w| >= 2 && w[0] == w[|w| - 1] && W.InTable(w)
    requires |ps| == |rs| == |w| - 1 && forall i :: 0 <= i < |ps| ==> Link(s, pids, w, ps, rs, i)
    ensures Visible(s, pids, ps, rs)
  {
    forall i: nat | i < |ps| ensures S.Stuck(s, ps, rs, i) && Shows(s, pids, ps, i) {
      var k := S.Succ(i, |ps|);
      assert Link(s, pids, w, ps, rs, i) && Link(s, pids, w, ps, rs, k);
      var q :| Holds(s, pids, w[i + 1], rs[i], q);
      assert w[k] == w[i + 1];
      SamePid(pids, q, ps[k]);
    }
    forall i: nat ensures S.Stuck(s, ps, rs, i) {}
  }

  lemma VisibleWalk(procs: seq<W.Proc>, holder: nat -> int, s: S.State, pids: seq<nat>, ps: seq<nat>, rs: seq<nat>)
    returns (w: seq<nat>)
    requires Pictures(procs, holder, s, pids) && Visible(s, pids, ps, rs)
    ensures W.Stuck(procs, holder, w) && W.InTable(w)
  {
    forall i | 0 <= i < |ps| ensures ps[i] < |pids| { assert Shows(s, pids, ps, i); }
    w := seq(|ps| + 1, i requires 0 <= i <= |ps| => pids[ps[if i < |ps| then i else 0]]);
    forall i | 0 < i < |w| ensures W.Blocked(procs, holder, w[i - 1], w[i]) {
      var j := i - 1;
      var k := S.Succ(j, |ps|);
      assert S.Stuck(s, ps, rs, j) && Shows(s, pids, ps, j) && Shows(s, pids, ps, k);
      var h := (ps[k], rs[j]);
      assert h in s.taken && procs[ps[j]].waiting == rs[j] + 1 && w[i] == pids[ps[k]];
    }
    forall i | 0 <= i < |w| ensures 0 < w[i] < W.NPROC { assert Shows(s, pids, ps, if i < |ps| then i else 0); }
  }

  /** The detector finds a deadlock exactly when there is a visible wait cycle. */
  lemma FoundExactly(procs: seq<W.Proc>, holder: nat -> int, s: S.State, pids: seq<nat>)
    requires Pictures(procs, holder, s, pids) && TakenIn(s) && S.Exclusive(s)
    ensures (exists w :: W.Stuck(procs, holder, w) && W.InTable(w)) <==> exists ps, rs :: Visible(s, pids, ps, rs)
  {
    if w :| W.Stuck(procs, holder, w) && W.InTable(w) {
      var ps, rs := WalkOf(procs, holder, s, pids, w, |w| - 1);
      LinksDeadlock(s, pids, w, ps, rs);
    }
    if ps, rs :| Visible(s, pids, ps, rs) {
      var w := VisibleWalk(procs, holder, s, pids, ps, rs);
    }
  }

  /** In every later state of every run the processes still wait for each other. */
  ghost predicate Lasts(s: S.State, ps: seq<nat>, rs: seq<nat>) {
    forall run :: S.LockRuns(s, run) ==> S.Runs(s, run) && S.Deadlocked(S.Exec(s, run), ps, rs)
  }

  /** sys_getdeadlockinfo on a snapshot of any reachable state: it reports a deadlock exactly when some processes,
      all asleep, all with pids below NPROC and none waiting for itself, wait for each other in a circle; and
      these wait for ever. */
  method ReportMeansDeadlock(d: W.Detector, procs: seq<W.Proc>, holder: nat -> int, ghost s0: S.State,
                             ghost run: seq<S.Step>, ghost pids: seq<nat>)
    returns (found: bool, ghost ps: seq<nat>, ghost rs: seq<nat>)
    requires S.LocksInit(s0) && S.LockRuns(s0, run) && S.Runs(s0, run) && |procs| == W.NPROC
    requires Pictures(procs, holder, S.Exec(s0, run), pids)
    modifies d
    ensures found <==> exists ps, rs :: Visible(S.Exec(s0, run), pids, ps, rs)
    ensures found ==> Visible(S.Exec(s0, run), pids, ps, rs) && Lasts(S.Exec(s0, run), ps, rs)
  {
    hide Pictures, Visible, W.Stuck, W.InTable, S.Exclusive, S.Inv, S.LocksInit;
    ghost var s := S.Exec(s0, run);
    assert S.Exclusive(s) && TakenIn(s) by { Reached(s0, run); }
    FoundExactly(procs, holder, s, pids);
    var list;
    found, list := d.GetDeadlockInfo(procs, holder);
    ps, rs := [], [];
    if found {
      ps, rs :| Visible(s, pids, ps, rs);
      assert S.Deadlocked(s, ps, rs) by { VisibleDeadlock(s, pids, ps, rs); }
      forall later | S.LockRuns(s, later) ensures S.Runs(s, later) && S.Deadlocked(S.Exec(s, later), ps, rs) {
        S.DeadlockLasts(s, later, ps, rs);
      }
    }
  }

  lemma VisibleDeadlock(s: S.State, pids: seq<nat>, ps: seq<nat>, rs: seq<nat>)
    requires Visible(s, pids, ps, rs)
    ensures S.Deadlocked(s, ps, rs)
  {
  }

  lemma Reached(s0: S.State, run: seq<S.Step>)
    requires S.LocksInit(s0) && S.LockRuns(s0, run)
    ensures S.Runs(s0, run) && S.Exclusive(S.Exec(s0, run)) && TakenIn(S.Exec(s0, run))
  {
    S.InitInv(s0);
    S.RunKeepsExclusive(s0, run);
    RunKeepsTaken(s0, run);
  }

  // ---------------------------------------------------------------- a process that waits for itself

  /** One process, asleep on the lock it holds. */
  function Alone(): S.State { S.State([S.Asleep(0)], [1], 1, [false], {(0, 0)}) }

  function OneWaiter(): (procs: seq<W.Proc>)
    ensures |procs| == W.NPROC && procs[0] == W.Proc(W.SLEEPING, 1, 1)
    ensures forall k :: 1 <= k < W.NPROC ==> procs[k].state == W.UNUSED
  {
    [W.Proc(W.SLEEPING, 1, 1)] + seq(W.NPROC - 1, _ => W.Proc(W.UNUSED, 0, 0))
  }

  function LockOfOne(lock: nat): int { if lock == 1 then 1 else 0 }

  lemma NobodyBlocked(a: nat, b: nat)
    ensures !W.Blocked(OneWaiter(), LockOfOne, a, b)
  {
  }

  /** acquiresleep, and acquiresleep of the same lock again. */
  function LockTwice(): seq<S.Step> {
    [S.Await(0, 0), S.Next(0), S.Take(0, false), S.Next(0),
     S.Await(0, 0), S.Next(0), S.Next(0), S.Next(0), S.Next(0), S.Next(0)]
  }

  /** The one process after i steps of these two calls. */
  ghost function Phase(i: nat): S.State
    requires i <= 10
  {
    var c := [S.Idle, S.Enter(0), S.Test(0), S.Leave(0), S.Idle, S.Enter(0), S.Test(0), S.GoSleep(0), S.Swap(0),
              S.Falling(0), S.Asleep(0)][i];
    S.State([c], [if S.HoldsLk(c, 0) then 0 else 1], if S.HoldsPt(c) then 0 else 1, [i < 3],
            if i < 3 then {} else {(0, 0)})
  }

  lemma PhaseStep(i: nat)
    requires i < 10
    ensures S.Enabled(Phase(i), LockTwice()[i]) && S.Disciplined(Phase(i), LockTwice()[i])
    ensures S.Do(Phase(i), LockTwice()[i]) == Phase(i + 1)
  {
  }

  lemma PhaseEnds()
    ensures |LockTwice()| == 10 && Phase(10) == Alone()
  {
  }

  lemma {:induction false} AloneReached(i: nat)
    requires i <= 10
    ensures S.LockRuns(Phase(i), LockTwice()[i..]) && S.Runs(Phase(i), LockTwice()[i..])
    ensures S.Exec(Phase(i), LockTwice()[i..]) == Alone()
    decreases 10 - i
  {
    PhaseEnds();
    hide Phase, LockTwice, S.Do, S.Enabled, S.Disciplined;
    if i < 10 {
      PhaseStep(i);
      AloneReached(i + 1);
      assert LockTwice()[i..][1..] == LockTwice()[i + 1..];
    }
  }

  /** A process that locks twice waits for ever, and the detector, which skips such edges, reports nothing. */
  method SelfWaitMissed(d: W.Detector) returns (found: bool)
    modifies d
    ensures S.LocksInit(Phase(0)) && S.LockRuns(Phase(0), LockTwice()) && S.Runs(Phase(0), LockTwice())
    ensures S.Exec(Phase(0), LockTwice()) == Alone() && S.Deadlocked(Alone(), [0], [0])
    ensures Pictures(OneWaiter(), LockOfOne, Alone(), [1]) && !found
  {
    hide S.LockRuns, S.Runs, S.Exec;
    AloneReached(0);
    assert LockTwice()[0..] == LockTwice();
    forall i: nat ensures S.Stuck(Alone(), [0], [0], i) {}
    forall r: nat | !S.HasHolder(Alone().taken, r) ensures LockOfOne(r + 1) == 0 {
      assert r == 0 ==> (0, 0) in Alone().taken;
    }
    var list;
    found, list := d.GetDeadlockInfo(OneWaiter(), LockOfOne);
    forall w ensures !W.Stuck(OneWaiter(), LockOfOne, w) {
      if |w| >= 2 { NobodyBlocked(w[1 - 1], w[1]); }
    }
  }
}
