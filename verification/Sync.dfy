/** sleep and wakeup of proc.c, and the sleep locks built on them, at the grain of spinlock operations,
    for any number of processes and conditions.  Condition r has its spinlock lk[r] and its channel;
    for a sleep lock the condition is that it is not locked. */
module Sync {
  datatype Pc =
    | Idle
    // waiting for condition r, as acquiresleep does
    | Enter(r: nat)       // acquire(&lk), first or again
    | Test(r: nat)        // holds lk, at the test of the loop
    | GoSleep(r: nat)     // holds lk; the condition was false; in sleep, before acquire(&ptable.lock)
    | Swap(r: nat)        // holds lk and ptable.lock, before release(lk)
    | Falling(r: nat)     // holds ptable.lock, before state = SLEEPING
    | Asleep(r: nat)      // SLEEPING on r's channel
    | Woken(r: nat)       // RUNNABLE, not scheduled yet
    | Resumed(r: nat)     // scheduled; holds ptable.lock, as sched returns
    | Leave(r: nat)       // holds lk; has taken the condition; before release(&lk)
    // making condition r true, as releasesleep does
    | Begin(r: nat)       // acquire(&lk)
    | Set(r: nat)         // holds lk; before the store that makes the condition true
    | Call(r: nat)        // holds lk; the condition is true; in wakeup, before acquire(&ptable.lock)
    | Scan(r: nat)        // holds both; before the scan of wakeup1
    | Return(r: nat)      // holds both; before release(&ptable.lock)
    | Finish(r: nat)      // holds lk; before release(&lk)

  /** lk[r] and pt are the holders of the spinlocks, |pc| when free; `taken` has (p, r) while p has
      taken condition r and not given it back. */
  datatype State = State(pc: seq<Pc>, lk: seq<nat>, pt: nat, ready: seq<bool>, taken: set<(nat, nat)>)

  datatype Step =
    | Await(p: nat, r: nat)           // start waiting for r
    | Signal(p: nat, r: nat)          // start making r true
    | Take(p: nat, after: bool)       // at the test with the condition true: leave it true or make it false
    | Next(p: nat)                    // any other operation of p
    | Kill(p: nat)                    // kill wakes p if it sleeps

  ghost predicate HoldsLk(c: Pc, r: nat) {
    (c.Test? || c.GoSleep? || c.Swap? || c.Leave? || c.Set? || c.Call? || c.Scan? || c.Return? || c.Finish?) && c.r == r
  }

  ghost predicate HoldsPt(c: Pc) { c.Swap? || c.Falling? || c.Resumed? || c.Scan? || c.Return? }

  /** In acquiresleep(r), without having got it. */
  ghost predicate Waiting(c: Pc, r: nat) {
    (c.Enter? || c.Test? || c.GoSleep? || c.Swap? || c.Falling? || c.Asleep? || c.Woken? || c.Resumed?) && c.r == r
  }

  ghost predicate WantsLk(c: Pc) { c.Enter? || c.Begin? }
  ghost predicate WantsPt(c: Pc) { c.GoSleep? || c.Woken? || c.Call? }

  ghost predicate Enabled(s: State, t: Step) {
    t.p < |s.pc| &&
    match t
    case Await(p, r) => s.pc[p].Idle? && r < |s.lk|
    case Signal(p, r) => s.pc[p].Idle? && r < |s.lk|
    case Take(p, after) => s.pc[p].Test? && s.pc[p].r < |s.ready| && s.ready[s.pc[p].r]
    case Next(p) =>
      var c := s.pc[p];
      && !c.Idle? && !c.Asleep? && c.r < |s.lk| && c.r < |s.ready| && !(c.Test? && s.ready[c.r])
      && (WantsLk(c) ==> s.lk[c.r] == |s.pc|) && (WantsPt(c) ==> s.pt == |s.pc|)
    case Kill(p) => s.pt == |s.pc|
  }

  /** wakeup1. */
  ghost function WakeAll(pc: seq<Pc>, r: nat): (w: seq<Pc>)
    ensures |w| == |pc| && forall i :: 0 <= i < |pc| ==> w[i] == if pc[i] == Asleep(r) then Woken(r) else pc[i]
  {
    seq(|pc|, i requires 0 <= i < |pc| => if pc[i] == Asleep(r) then Woken(r) else pc[i])
  }

  ghost function DoNext(s: State, p: nat): State
    requires Enabled(s, Next(p))
  {
    var c := s.pc[p];
    var r := c.r;
    var n := |s.pc|;
    match c
    case Enter(_) => s.(pc := s.pc[p := Test(r)], lk := s.lk[r := p])
    case Test(_) => s.(pc := s.pc[p := GoSleep(r)])
    case GoSleep(_) => s.(pc := s.pc[p := Swap(r)], pt := p)
    case Swap(_) => s.(pc := s.pc[p := Falling(r)], lk := s.lk[r := n])
    case Falling(_) => s.(pc := s.pc[p := Asleep(r)], pt := n)
    case Woken(_) => s.(pc := s.pc[p := Resumed(r)], pt := p)
    case Resumed(_) => s.(pc := s.pc[p := Enter(r)], pt := n)
    case Leave(_) => s.(pc := s.pc[p := Idle], lk := s.lk[r := n])
    case Begin(_) => s.(pc := s.pc[p := Set(r)], lk := s.lk[r := p])
    case Set(_) => s.(pc := s.pc[p := Call(r)], ready := s.ready[r := true], taken := s.taken - {(p, r)})
    case Call(_) => s.(pc := s.pc[p := Scan(r)], pt := p)
    case Scan(_) => s.(pc := WakeAll(s.pc, r)[p := Return(r)])
    case Return(_) => s.(pc := s.pc[p := Finish(r)], pt := n)
    case Finish(_) => s.(pc := s.pc[p := Idle], lk := s.lk[r := n])
    case _ => s
  }

  ghost function Do(s: State, t: Step): State
    requires Enabled(s, t)
  {
    match t
    case Await(p, r) => s.(pc := s.pc[p := Enter(r)])
    case Signal(p, r) => s.(pc := s.pc[p := Begin(r)])
    case Take(p, after) =>
      var r := s.pc[p].r;
      s.(pc := s.pc[p := Leave(r)], ready := s.ready[r := after], taken := s.taken + {(p, r)})
    case Next(p) => DoNext(s, p)
    case Kill(p) => if s.pc[p].Asleep? then s.(pc := s.pc[p := Woken(s.pc[p].r)]) else s
  }

  // ---------------------------------------------------------------- the invariant

  ghost predicate Shape(s: State) {
    && |s.lk| == |s.ready| && (forall r :: 0 <= r < |s.lk| ==> s.lk[r] <= |s.pc|) && s.pt <= |s.pc|
    && forall p {:trigger s.pc[p]} :: 0 <= p < |s.pc| && !s.pc[p].Idle? ==> s.pc[p].r < |s.lk|
  }

  /** A spinlock has the holder it says, and no other. */
  ghost predicate LocksOk(s: State) {
    && (forall p, r :: 0 <= p < |s.pc| && 0 <= r < |s.lk| ==> (HoldsLk(s.pc[p], r) <==> s.lk[r] == p))
    && (forall p {:trigger HoldsPt(s.pc[p])} :: 0 <= p < |s.pc| ==> (HoldsPt(s.pc[p]) <==> s.pt == p))
  }

  /** r is true but its sleepers have not been woken yet: its lock's holder is about to. */
  ghost predicate WakeDue(s: State, r: nat) {
    r < |s.lk| && s.lk[r] < |s.pc| && (s.pc[s.lk[r]] == Call(r) || s.pc[s.lk[r]] == Scan(r))
  }

  /** Going to sleep is decided while the condition is false; who sleeps, or is past the point of no
      return, while it is true is about to be woken. */
  ghost predicate NoLostWakeup(s: State) {
    && (forall p {:trigger s.pc[p]} ::
          0 <= p < |s.pc| && (s.pc[p].GoSleep? || s.pc[p].Swap?) && s.pc[p].r < |s.ready| ==> !s.ready[s.pc[p].r])
    && (forall p {:trigger s.pc[p]} ::
          0 <= p < |s.pc| && (s.pc[p].Falling? || s.pc[p].Asleep?) && s.pc[p].r < |s.ready| ==>
            !s.ready[s.pc[p].r] || WakeDue(s, s.pc[p].r))
  }

  ghost predicate Inv(s: State) { Shape(s) && LocksOk(s) && NoLostWakeup(s) }

  // ---------------------------------------------------------------- every step keeps it

  /** p moves to c'; the spinlocks change hands accordingly. */
  lemma MoveLocks(s: State, s': State, p: nat, c': Pc)
    requires Shape(s) && LocksOk(s) && p < |s.pc| && s'.pc == s.pc[p := c'] && Shape(s')
    requires |s'.lk| == |s.lk| && forall r :: 0 <= r < |s.lk| ==>
      s'.lk[r] == if HoldsLk(c', r) then p else if HoldsLk(s.pc[p], r) then |s.pc| else s.lk[r]
    requires s'.pt == if HoldsPt(c') then p else if HoldsPt(s.pc[p]) then |s.pc| else s.pt
    requires forall r :: 0 <= r < |s.lk| && HoldsLk(c', r) ==> HoldsLk(s.pc[p], r) || s.lk[r] == |s.pc|
    requires HoldsPt(c') ==> HoldsPt(s.pc[p]) || s.pt == |s.pc|
    ensures LocksOk(s')
  {
    hide HoldsLk, HoldsPt;
    forall q, r | 0 <= q < |s.pc| && 0 <= r < |s.lk| ensures HoldsLk(s'.pc[q], r) <==> s'.lk[r] == q {
      assert HoldsLk(s.pc[q], r) <==> s.lk[r] == q;
      assert HoldsLk(s.pc[p], r) <==> s.lk[r] == p;
    }
    forall q | 0 <= q < |s.pc| ensures HoldsPt(s'.pc[q]) <==> s'.pt == q {
      assert HoldsPt(s.pc[q]) <==> s.pt == q;
      assert HoldsPt(s.pc[p]) <==> s.pt == p;
    }
  }

  lemma StillDue(s: State, s': State, p: nat, r: nat)
    requires LocksOk(s) && p < |s.pc| && r < |s.lk| && |s'.pc| == |s.pc| && |s'.lk| == |s.lk|
    requires WakeDue(s, r) && (s.lk[r] == p ==> s'.pc[p] == Call(r) || s'.pc[p] == Scan(r))
    requires (s.lk[r] != p ==> s'.pc[s.lk[r]] == s.pc[s.lk[r]]) && s'.lk[r] == s.lk[r]
    ensures WakeDue(s', r)
  {
  }

  /** p moves to c' and no condition changes. */
  lemma MoveWakeups(s: State, s': State, p: nat, c': Pc)
    requires Shape(s) && LocksOk(s) && NoLostWakeup(s) && p < |s.pc| && s'.pc == s.pc[p := c'] && Shape(s')
      && s'.ready == s.ready
    requires |s'.lk| == |s.lk| && forall r :: 0 <= r < |s.lk| && s.lk[r] < |s.pc| && s.lk[r] != p ==>
      s'.lk[r] == s.lk[r]
    requires s.pc[p].Call? ==> c' == Scan(s.pc[p].r) && s'.lk == s.lk
    requires !s.pc[p].Scan?
    requires (c'.GoSleep? || c'.Swap?) && c'.r < |s.ready| ==> !s.ready[c'.r]
    requires (c'.Falling? || c'.Asleep?) && c'.r < |s.ready| ==>
      !s.ready[c'.r] || (s.pc[p].Falling? && s.pc[p].r == c'.r)
    ensures NoLostWakeup(s')
  {
    forall q | 0 <= q < |s.pc| && (s'.pc[q].Falling? || s'.pc[q].Asleep?) && s'.pc[q].r < |s.ready|
      ensures !s.ready[s'.pc[q].r] || WakeDue(s', s'.pc[q].r)
    {
      var r := s'.pc[q].r;
      if s.ready[r] {
        assert WakeDue(s, r);
        if s.lk[r] == p { assert s.pc[p] == Call(r); }
        StillDue(s, s', p, r);
      }
    }
    hide LocksOk, WakeDue;
  }

  /** The moves of one process that change no condition and wake nobody. */
  lemma MoveKeeps(s: State, s': State, p: nat, c': Pc)
    requires Inv(s) && p < |s.pc| && s' == s.(pc := s.pc[p := c'], lk := s'.lk, pt := s'.pt)
      && (c'.Idle? || c'.r < |s.lk|)
    requires |s'.lk| == |s.lk| && forall r :: 0 <= r < |s.lk| ==>
      s'.lk[r] == if HoldsLk(c', r) then p else if HoldsLk(s.pc[p], r) then |s.pc| else s.lk[r]
    requires s'.pt == if HoldsPt(c') then p else if HoldsPt(s.pc[p]) then |s.pc| else s.pt
    requires forall r :: 0 <= r < |s.lk| && HoldsLk(c', r) ==> HoldsLk(s.pc[p], r) || s.lk[r] == |s.pc|
    requires HoldsPt(c') ==> HoldsPt(s.pc[p]) || s.pt == |s.pc|
    requires s.pc[p].Call? ==> c' == Scan(s.pc[p].r)
    requires !s.pc[p].Scan?
    requires (c'.GoSleep? || c'.Swap?) && c'.r < |s.ready| ==> !s.ready[c'.r]
    requires (c'.Falling? || c'.Asleep?) && c'.r < |s.ready| ==>
      !s.ready[c'.r] || (s.pc[p].Falling? && s.pc[p].r == c'.r)
    ensures Inv(s')
  {
    assert Shape(s');
    forall r | 0 <= r < |s.lk| && s.lk[r] < |s.pc| && s.lk[r] != p ensures s'.lk[r] == s.lk[r] {
      assert HoldsLk(s.pc[p], r) <==> s.lk[r] == p;
    }
    MoveLocks(s, s', p, c');
    if s.pc[p].Call? {
      forall r | 0 <= r < |s.lk| ensures s'.lk[r] == s.lk[r] { assert HoldsLk(s.pc[p], r) <==> s.lk[r] == p; }
    }
    MoveWakeups(s, s', p, c');
  }

  /** The spinlocks that p's present pc says it holds are its own. */
  lemma OwnLocks(s: State, p: nat)
    requires Inv(s) && p < |s.pc|
    ensures forall r :: 0 <= r < |s.lk| && HoldsLk(s.pc[p], r) ==> s.lk[r] == p
    ensures HoldsPt(s.pc[p]) ==> s.pt == p
    ensures !s.pc[p].Idle? ==> s.pc[p].r < |s.lk| == |s.ready|
    ensures s.pc[p].GoSleep? || s.pc[p].Swap? ==> !s.ready[s.pc[p].r]
  {
    if !s.pc[p].Idle? { assert HoldsLk(s.pc[p], s.pc[p].r) <==> s.lk[s.pc[p].r] == p; }
  }

  lemma NextMoves(s: State, p: nat)
    requires Inv(s) && Enabled(s, Next(p)) && !s.pc[p].Set? && !s.pc[p].Scan?
    ensures Inv(DoNext(s, p))
  {
    OwnLocks(s, p);
    hide Inv;
    var s' := DoNext(s, p);
    MoveKeeps(s, s', p, s'.pc[p]);
  }

  /** The condition changes under the lock, at a moment when nobody sleeps on it or is about to be woken. */
  lemma TakeKeeps(s: State, p: nat, after: bool)
    requires Inv(s) && Enabled(s, Take(p, after))
    ensures Inv(Do(s, Take(p, after)))
  {
    var r := s.pc[p].r;
    OwnLocks(s, p);
    assert HoldsLk(s.pc[p], r) && s.lk[r] == p && !WakeDue(s, r);
    var moved := s.(pc := s.pc[p := Leave(r)]);
    assert Inv(moved) by {
      hide Inv;
      MoveKeeps(s, moved, p, Leave(r));
    }
    assert Inv(moved.(ready := s.ready[r := after])) by {
      assert !WakeDue(moved, r);
      Unslept(moved, r, after);
    }
  }

  lemma Unslept(s: State, r: nat, after: bool)
    requires Inv(s) && r < |s.lk| && s.ready[r] && !WakeDue(s, r)
    ensures Inv(s.(ready := s.ready[r := after]))
  {
    var s' := s.(ready := s.ready[r := after]);
    forall k ensures WakeDue(s', k) <==> WakeDue(s, k) {}
    hide WakeDue;
  }

  lemma SetKeeps(s: State, p: nat)
    requires Inv(s) && Enabled(s, Next(p)) && s.pc[p].Set?
    ensures Inv(DoNext(s, p))
  {
    var r := s.pc[p].r;
    OwnLocks(s, p);
    var moved := s.(pc := s.pc[p := Call(r)]);
    assert Inv(moved) && moved.lk[r] == p by {
      hide Inv;
      assert HoldsLk(s.pc[p], r);
      MoveKeeps(s, moved, p, Call(r));
    }
    var s' := moved.(ready := s.ready[r := true], taken := s.taken - {(p, r)});
    assert WakeDue(s', r);
    forall q | 0 <= q < |s.pc| && (moved.pc[q].GoSleep? || moved.pc[q].Swap?) ensures moved.pc[q].r != r {
      assert HoldsLk(moved.pc[q], r) <==> moved.lk[r] == q;
    }
    forall k ensures WakeDue(s', k) <==> WakeDue(moved, k) {}
    hide LocksOk;
  }

  lemma ScanKeeps(s: State, p: nat)
    requires Inv(s) && Enabled(s, Next(p)) && s.pc[p].Scan?
    ensures Inv(DoNext(s, p))
    ensures forall q :: 0 <= q < |s.pc| ==> DoNext(s, p).pc[q] != Asleep(s.pc[p].r)
  {
    var r := s.pc[p].r;
    OwnLocks(s, p);
    assert HoldsPt(s.pc[p]) && s.pt == p && HoldsLk(s.pc[p], r) && s.lk[r] == p;
    var s' := DoNext(s, p);
    forall q | 0 <= q < |s.pc| ensures !s.pc[q].Falling? { assert HoldsPt(s.pc[q]) <==> s.pt == q; }
    forall q, k | 0 <= q < |s.pc| && 0 <= k < |s.lk| ensures HoldsLk(s'.pc[q], k) <==> s'.lk[k] == q {
      assert HoldsLk(s.pc[q], k) <==> s.lk[k] == q;
    }
    forall q | 0 <= q < |s.pc| ensures HoldsPt(s'.pc[q]) <==> s'.pt == q { assert HoldsPt(s.pc[q]) <==> s.pt == q; }
    forall k | WakeDue(s, k) && k != r ensures WakeDue(s', k) {}
  }

  lemma StepKeepsInv(s: State, t: Step)
    requires Inv(s) && Enabled(s, t)
    ensures Inv(Do(s, t))
  {
    match t {
      case Await(p, r) => hide Inv; MoveKeeps(s, Do(s, t), p, Enter(r));
      case Signal(p, r) => hide Inv; MoveKeeps(s, Do(s, t), p, Begin(r));
      case Take(p, after) => TakeKeeps(s, p, after);
      case Next(p) =>
        if s.pc[p].Set? { SetKeeps(s, p); } else if s.pc[p].Scan? { ScanKeeps(s, p); } else { NextMoves(s, p); }
      case Kill(p) =>
        if s.pc[p].Asleep? { OwnLocks(s, p); hide Inv; MoveKeeps(s, Do(s, t), p, Woken(s.pc[p].r)); }
    }
  }

  // ---------------------------------------------------------------- every run

  ghost predicate Init(s: State) {
    && (forall p :: 0 <= p < |s.pc| ==> s.pc[p] == Idle) && |s.lk| == |s.ready| && s.pt == |s.pc| && s.taken == {}
    && (forall r :: 0 <= r < |s.lk| ==> s.lk[r] == |s.pc|)
  }

  /** initsleeplock: every sleep lock starts unlocked. */
  ghost predicate LocksInit(s: State) { Init(s) && forall r :: 0 <= r < |s.ready| ==> s.ready[r] }

  ghost predicate Runs(s: State, run: seq<Step>)
    decreases |run|
  {
    run != [] ==> Enabled(s, run[0]) && Runs(Do(s, run[0]), run[1..])
  }

  ghost function Exec(s: State, run: seq<Step>): State
    requires Runs(s, run)
    decreases |run|
  {
    if run == [] then s else Exec(Do(s, run[0]), run[1..])
  }

  lemma InitInv(s: State)
    requires Init(s)
    ensures Inv(s)
  {
  }

  lemma {:induction false} RunKeepsInv(s: State, run: seq<Step>)
    requires Inv(s) && Runs(s, run)
    ensures Inv(Exec(s, run))
    decreases |run|
  {
    hide Inv;
    if run != [] {
      StepKeepsInv(s, run[0]);
      RunKeepsInv(Do(s, run[0]), run[1..]);
    }
  }

  /** No lost wakeup: in every run, while its lock is free nobody sleeps on a condition that is true. */
  lemma NobodyMissed(s: State, run: seq<Step>, p: nat, r: nat)
    requires Init(s) && Runs(s, run) && p < |s.pc|
    ensures (var e := Exec(s, run);
      p < |e.pc| && (r < |e.lk| && r < |e.ready| && e.lk[r] == |e.pc| && e.ready[r] ==> e.pc[p] != Asleep(r)))
  {
    InitInv(s);
    RunKeepsInv(s, run);
    RunKeepsSize(s, run);
    var e := Exec(s, run);
    assert e.pc[p] == Asleep(r) && r < |e.ready| && e.ready[r] ==> WakeDue(e, r);
  }

  /** p can take its next step. */
  ghost predicate CanMove(s: State, p: nat) { Enabled(s, Next(p)) || Enabled(s, Take(p, false)) }

  lemma HolderMoves(s: State, p: nat)
    requires Shape(s) && p < |s.pc| && !s.pc[p].Idle? && !s.pc[p].Asleep?
    requires WantsLk(s.pc[p]) ==> s.lk[s.pc[p].r] == |s.pc|
    requires WantsPt(s.pc[p]) ==> s.pt == |s.pc|
    ensures CanMove(s, p)
  {
  }

  lemma SomebodyMoves(s: State, p: nat) returns (q: nat)
    requires Inv(s) && p < |s.pc| && !s.pc[p].Idle? && !s.pc[p].Asleep?
    ensures q < |s.pc| && CanMove(s, q)
  {
    hide NoLostWakeup, CanMove;
    q := p;
    if s.pt < |s.pc| {
      q := s.pt;
      assert HoldsPt(s.pc[q]);
    } else if WantsLk(s.pc[p]) && s.lk[s.pc[p].r] < |s.pc| {
      q := s.lk[s.pc[p].r];
      assert HoldsLk(s.pc[q], s.pc[p].r);
    }
    HolderMoves(s, q);
  }

  /** The spinlocks never block each other: in every reachable state in which somebody is neither idle nor asleep,
      somebody can take a step. */
  lemma NeverStuck(s: State, run: seq<Step>, p: nat) returns (q: nat)
    requires Init(s) && Runs(s, run) && p < |Exec(s, run).pc|
    requires !Exec(s, run).pc[p].Idle? && !Exec(s, run).pc[p].Asleep?
    ensures q < |Exec(s, run).pc| && CanMove(Exec(s, run), q)
  {
    hide Inv, CanMove;
    InitInv(s);
    RunKeepsInv(s, run);
    q := SomebodyMoves(Exec(s, run), p);
  }

  lemma {:induction false} RunKeepsSize(s: State, run: seq<Step>)
    requires Runs(s, run)
    ensures |Exec(s, run).pc| == |s.pc|
    decreases |run|
  {
    if run != [] { RunKeepsSize(Do(s, run[0]), run[1..]); }
  }

  // ---------------------------------------------------------------- sleep locks

  /** Used as a sleep lock: who takes it makes it false (locked), and only who has it makes it true again. */
  ghost predicate Disciplined(s: State, t: Step) {
    (t.Take? ==> !t.after) && (t.Signal? ==> (t.p, t.r) in s.taken)
  }

  ghost predicate LockRuns(s: State, run: seq<Step>)
    decreases |run|
  {
    run != [] ==> Enabled(s, run[0]) && Disciplined(s, run[0]) && LockRuns(Do(s, run[0]), run[1..])
  }

  ghost predicate HasHolder(taken: set<(nat, nat)>, r: nat) { exists h :: h in taken && h.1 == r }

  /** A lock is locked just while it has a holder, and has one at most; who releases is the holder. */
  ghost predicate Exclusive(s: State) {
    && (forall h :: h in s.taken ==> h.1 < |s.ready| && !s.ready[h.1])
    && (forall r :: 0 <= r < |s.ready| && !s.ready[r] ==> HasHolder(s.taken, r))
    && (forall g, h :: g in s.taken && h in s.taken && g.1 == h.1 ==> g.0 == h.0)
    && (forall p {:trigger s.pc[p]} :: 0 <= p < |s.pc| && (s.pc[p].Begin? || s.pc[p].Set?) ==>
        (p, s.pc[p].r) in s.taken)
  }

  lemma TakeExclusive(s: State, p: nat)
    requires Exclusive(s) && Enabled(s, Take(p, false))
    ensures Exclusive(Do(s, Take(p, false)))
  {
    var s' := Do(s, Take(p, false));
    assert (p, s.pc[p].r) in s'.taken;
    forall r | 0 <= r < |s.ready| && !s'.ready[r] ensures HasHolder(s'.taken, r) {
      if r != s.pc[p].r {
        assert HasHolder(s.taken, r);
        var h :| h in s.taken && h.1 == r;
        assert h in s'.taken;
      }
    }
  }

  lemma SetExclusive(s: State, p: nat)
    requires Exclusive(s) && Enabled(s, Next(p)) && s.pc[p].Set?
    ensures Exclusive(DoNext(s, p))
  {
    var s' := DoNext(s, p);
    var r := s.pc[p].r;
    assert (p, r) in s.taken;
    forall k | 0 <= k < |s.ready| && !s'.ready[k] ensures HasHolder(s'.taken, k) {
      assert HasHolder(s.taken, k);
      var h :| h in s.taken && h.1 == k;
      assert h in s'.taken;
    }
    forall q | 0 <= q < |s.pc| && (s'.pc[q].Begin? || s'.pc[q].Set?) ensures (q, s'.pc[q].r) in s'.taken {
      assert s'.pc[q] == s.pc[q] && (q, s.pc[q].r) in s.taken;
    }
  }

  lemma StepKeepsExclusive(s: State, t: Step)
    requires Exclusive(s) && Enabled(s, t) && Disciplined(s, t)
    ensures Exclusive(Do(s, t))
  {
    if t.Take? {
      TakeExclusive(s, t.p);
    } else if t.Next? && s.pc[t.p].Set? {
      SetExclusive(s, t.p);
    } else {
      forall p | 0 <= p < |s.pc| && (Do(s, t).pc[p].Begin? || Do(s, t).pc[p].Set?)
        ensures s.pc[p] == Begin(Do(s, t).pc[p].r) || (p, Do(s, t).pc[p].r) in s.taken
      {
        assert s.pc[p].Begin? || s.pc[p].Set? ==> (p, s.pc[p].r) in s.taken;
      }
      assert Do(s, t).taken == s.taken && Do(s, t).ready == s.ready;
      hide Do;
    }
  }

  lemma {:induction false} RunKeepsExclusive(s: State, run: seq<Step>)
    requires Exclusive(s) && Inv(s) && LockRuns(s, run)
    ensures Runs(s, run) && Exclusive(Exec(s, run)) && Inv(Exec(s, run))
    decreases |run|
  {
    hide Exclusive, Inv;
    if run != [] {
      StepKeepsExclusive(s, run[0]);
      StepKeepsInv(s, run[0]);
      RunKeepsExclusive(Do(s, run[0]), run[1..]);
    }
  }

  /** In every run of sleep-lock calls, at most one process holds a lock and nobody sleeps on a free one. */
  lemma SleepLockWorks(s: State, run: seq<Step>, p: nat, q: nat, r: nat)
    requires LocksInit(s) && LockRuns(s, run) && p < |s.pc|
    ensures Runs(s, run)
    ensures (p, r) in Exec(s, run).taken && (q, r) in Exec(s, run).taken ==> p == q
    ensures (var e := Exec(s, run);
      p < |e.pc| && (r < |e.lk| && r < |e.ready| && e.lk[r] == |e.pc| && e.ready[r] ==>
          e.pc[p] != Asleep(r) && (q, r) !in e.taken))
  {
    InitInv(s);
    RunKeepsExclusive(s, run);
    NobodyMissed(s, run, p, r);
    hide Inv;
  }

  // ---------------------------------------------------------------- deadlock

  function Succ(i: nat, n: nat): nat { if i + 1 < n then i + 1 else 0 }

  /** Process ps[i] waits in acquiresleep for lock rs[i], which the next process holds. */
  ghost predicate Stuck(s: State, ps: seq<nat>, rs: seq<nat>, i: nat)
    requires |rs| == |ps|
  {
    i < |ps| ==>
      && ps[i] < |s.pc| && rs[i] < |s.ready| && Waiting(s.pc[ps[i]], rs[i])
      && (ps[Succ(i, |ps|)], rs[i]) in s.taken
  }

  ghost predicate Deadlocked(s: State, ps: seq<nat>, rs: seq<nat>) {
    |rs| == |ps| && forall i: nat :: Stuck(s, ps, rs, i)
  }

  lemma MemberStays(s: State, t: Step, ps: seq<nat>, rs: seq<nat>, i: nat)
    requires Deadlocked(s, ps, rs) && Exclusive(s) && Enabled(s, t) && Disciplined(s, t) && i < |ps|
    ensures ps[i] < |Do(s, t).pc| && Waiting(Do(s, t).pc[ps[i]], rs[i])
    ensures forall r :: (ps[i], r) in Do(s, t).taken <==> (ps[i], r) in s.taken
  {
    assert Stuck(s, ps, rs, i);
    assert !s.ready[rs[i]];
  }

  lemma StepKeepsDeadlock(s: State, t: Step, ps: seq<nat>, rs: seq<nat>)
    requires Deadlocked(s, ps, rs) && Exclusive(s) && Enabled(s, t) && Disciplined(s, t)
    ensures Deadlocked(Do(s, t), ps, rs)
    ensures forall i, r :: 0 <= i < |ps| ==> ((ps[i], r) in Do(s, t).taken <==> (ps[i], r) in s.taken)
  {
    var s' := Do(s, t);
    assert |s'.ready| == |s.ready|;
    forall i, r | 0 <= i < |ps| ensures (ps[i], r) in s'.taken <==>
        (ps[i], r) in s.taken { MemberStays(s, t, ps, rs, i); }
    hide Exclusive;
    forall i: nat ensures Stuck(s', ps, rs, i) {
      if i < |ps| {
        assert Stuck(s, ps, rs, i);
        MemberStays(s, t, ps, rs, i);
        MemberStays(s, t, ps, rs, Succ(i, |ps|));
      }
    }
  }

  /** A cycle lasts: whatever any process does, kill included, no member gets or gives up a lock again. */
  lemma {:induction false} DeadlockLasts(s: State, run: seq<Step>, ps: seq<nat>, rs: seq<nat>)
    requires Deadlocked(s, ps, rs) && Exclusive(s) && LockRuns(s, run)
    ensures Runs(s, run) && Deadlocked(Exec(s, run), ps, rs)
    ensures forall i, r :: 0 <= i < |ps| ==> ((ps[i], r) in Exec(s, run).taken <==> (ps[i], r) in s.taken)
    decreases |run|
  {
    if run != [] {
      StepKeepsDeadlock(s, run[0], ps, rs);
      StepKeepsExclusive(s, run[0]);
      hide Exclusive, Deadlocked;
      DeadlockLasts(Do(s, run[0]), run[1..], ps, rs);
    }
  }
}
