/** The deadlock detector: build_wfg and dfs_check_cycle of deadlock.c and the driver loop of
    sys_getdeadlockinfo in sysproc.c, over one snapshot of the process table. */
module Deadlock {
  const NPROC: nat := 64

  datatype ProcState = UNUSED | EMBRYO | SLEEPING | RUNNABLE | RUNNING | ZOMBIE

  /** The fields the detector reads; `waiting` is waiting_on_chan, 0 when it is null. */
  datatype Proc = Proc(state: ProcState, pid: int, waiting: nat)

  type Graph = g: seq<seq<bool>> | |g| == NPROC && forall i :: 0 <= i < NPROC ==> |g[i]| == NPROC
    witness seq(NPROC, _ => seq(NPROC, _ => false))

  predicate Edge(g: Graph, u: nat, v: nat) { u < NPROC && v < NPROC && g[u][v] }

  // ---------------------------------------------------------------- cycles

  ghost predicate Path(g: Graph, p: seq<nat>) { forall i :: 0 < i < |p| ==> Edge(g, p[i - 1], p[i]) }

  /** A closed walk with at least one edge. */
  ghost predicate Cycle(g: Graph, p: seq<nat>) { |p| >= 2 && p[0] == p[|p| - 1] && Path(g, p) }

  ghost predicate HasCycle(g: Graph) { exists p :: Cycle(g, p) }

  /** Every vertex in `done` has all its successors earlier in `done`. */
  ghost predicate Sorted(g: Graph, done: seq<nat>) {
    forall i, v :: 0 <= i < |done| && Edge(g, done[i], v) ==> v in done[..i]
  }

  lemma {:induction false} WalkDescends(g: Graph, done: seq<nat>, p: seq<nat>, k: nat, i: nat)
    requires Sorted(g, done) && Path(g, p) && k < |p| && i < |done| && p[0] == done[i]
    ensures p[k] in done[..i + 1] && (k > 0 ==> p[k] in done[..i])
  {
    if k > 0 {
      WalkDescends(g, done, p, k - 1, i);
      var j :| 0 <= j < i + 1 && done[j] == p[k - 1];
      assert Edge(g, done[j], p[k]);
    }
  }

  /** No cycle passes through a vertex in `done`. */
  lemma SortedHasNoCycle(g: Graph, done: seq<nat>, p: seq<nat>)
    requires Sorted(g, done) && Cycle(g, p)
    ensures p[0] !in done
  {
    if p[0] in done {
      FirstIndex(done, p[0]);
      var i :| 0 <= i < |done| && done[i] == p[0] && p[0] !in done[..i];
      WalkDescends(g, done, p, |p| - 1, i);
    }
  }

  lemma {:induction false} FirstIndex(s: seq<nat>, x: nat)
    requires x in s
    ensures exists i :: 0 <= i < |s| && s[i] == x && x !in s[..i]
  {
    var n := |s| - 1;
    if x in s[..n] {
      FirstIndex(s[..n], x);
      var i :| 0 <= i < n && s[..n][i] == x && x !in s[..n][..i];
      assert s[..n][..i] == s[..i];
    } else {
      assert s[n] == x;
    }
  }

  ghost predicate Distinct(s: seq<nat>) { forall i, j :: 0 <= i < j < |s| ==> s[i] != s[j] }

  lemma {:induction false} Pigeonhole(p: seq<nat>, lo: nat, n: nat)
    requires Distinct(p) && forall i :: 0 <= i < |p| ==> lo <= p[i] < lo + n
    ensures |p| <= n
    decreases n
  {
    if p != [] {
      assert lo <= p[0] < lo + n;
      if i :| 0 <= i < |p| && p[i] == lo + n - 1 {
        Pigeonhole(p[..i] + p[i + 1..], lo, n - 1);
      } else {
        Pigeonhole(p, lo, n - 1);
      }
    }
  }

  // ---------------------------------------------------------------- depth-first search

  /** `gray` are the vertices of the calls in progress, a path of the graph; `done` those whose
      call returned 0, in that order. */
  ghost predicate Searching(g: Graph, visited: seq<bool>, stack: seq<bool>, gray: seq<nat>, done: seq<nat>) {
    && |visited| == |stack| == NPROC
    && (forall v :: 0 <= v < NPROC ==> (stack[v] <==> v in gray))
    && (forall v :: 0 <= v < NPROC ==> (visited[v] <==> v in gray || v in done))
    && (forall i :: 0 <= i < |gray| ==> gray[i] < NPROC && gray[i] !in done)
    && (forall i :: 0 <= i < |done| ==> done[i] < NPROC)
    && Distinct(gray) && Path(g, gray) && Sorted(g, done)
  }

  lemma Enter(g: Graph, visited: seq<bool>, stack: seq<bool>, gray: seq<nat>, done: seq<nat>, u: nat)
    requires Searching(g, visited, stack, gray, done) && u < NPROC && !visited[u]
    requires gray != [] ==> Edge(g, gray[|gray| - 1], u)
    ensures |gray| < NPROC && Searching(g, visited[u := true], stack[u := true], gray + [u], done)
    ensures Unseen(visited[u := true]) == Unseen(visited) - {u}
  {
    assert forall v :: v in gray + [u] <==> v in gray || v == u;
    Pigeonhole(gray + [u], 0, NPROC);
  }

  lemma Leave(g: Graph, visited: seq<bool>, stack: seq<bool>, gray: seq<nat>, done: seq<nat>, u: nat)
    requires Searching(g, visited, stack, gray + [u], done)
    requires forall w :: 0 <= w < NPROC && Edge(g, u, w) ==> w in done
    ensures u < NPROC && Searching(g, visited, stack[u := false], gray, done + [u])
  {
    var all := gray + [u];
    assert all[|gray|] == u;
    assert forall i :: 0 <= i < |gray| ==> all[i] == gray[i];
    assert forall v :: v in all <==> v in gray || v == u;
    assert forall v :: v in done + [u] <==> v in done || v == u;
    assert forall i :: 0 <= i <= |done| ==> (done + [u])[..i] == done[..i];
  }

  ghost function Unseen(visited: seq<bool>): set<nat> { set v: nat | v < |visited| && !visited[v] }

  lemma Sizes(g: Graph, visited: seq<bool>, stack: seq<bool>, gray: seq<nat>, done: seq<nat>)
    requires Searching(g, visited, stack, gray, done)
    ensures |visited| == |stack| == NPROC
    ensures forall v: nat :: v < NPROC && visited[v] ==> v in gray || v in done
    ensures forall v: nat :: v < NPROC && visited[v] && stack[v] ==> v in gray
    ensures forall v: nat :: v < NPROC && visited[v] && !stack[v] ==> v in done
    ensures Path(g, gray) && Distinct(gray)
  {
  }

  /** Nothing becomes unvisited again. */
  lemma SeenStays(g: Graph, visited: seq<bool>, stack: seq<bool>, gray: seq<nat>, done: seq<nat>, visited': seq<bool>,
          stack': seq<bool>, done': seq<nat>)
    requires Searching(g, visited, stack, gray, done) && Searching(g, visited', stack', gray, done') && done <= done'
    ensures Unseen(visited') <= Unseen(visited)
  {
    assert forall v :: v in done ==> v in done';
  }

  class Detector {
    var wfg: Graph
    var visited: seq<bool>
    var stack: seq<bool>       // recursion_stack
    var cycle: seq<nat>
    var len: nat               // cycle_len
    ghost var done: seq<nat>

    ghost predicate Valid(gray: seq<nat>)
      reads this
    {
      |cycle| == NPROC && len <= NPROC && cycle[..len] == gray && Searching(wfg, visited, stack, gray, done)
    }

    /** Mark u visited and "gray" and push it on the cycle array. */
    method Push(u: nat, ghost gray: seq<nat>)
      requires Valid(gray) && u < NPROC && !visited[u]
      requires gray != [] ==> Edge(wfg, gray[|gray| - 1], u)
      modifies this`visited, this`stack, this`cycle, this`len
      ensures Valid(gray + [u]) && Unseen(visited) < old(Unseen(visited))
    {
      Enter(wfg, visited, stack, gray, done, u);
      hide Searching;
      assert u in Unseen(visited);
      visited := visited[u := true];
      stack := stack[u := true];
      if len < NPROC {
        cycle := cycle[len := u];
        len := len + 1;
      }
    }

    /** Mark u "black" and pop it. */
    method Pop(u: nat, ghost gray: seq<nat>)
      requires Valid(gray + [u]) && forall w :: 0 <= w < NPROC && Edge(wfg, u, w) ==> w in done
      modifies this`stack, this`len, this`done
      ensures Valid(gray) && done == old(done) + [u]
    {
      Leave(wfg, visited, stack, gray, done, u);
      Sizes(wfg, visited, stack, gray + [u], done);
      hide Searching;
      stack := stack[u := false];
      if len > 0 { len := len - 1; }
      assert cycle[..len] == old(cycle[..len])[..len];
      done := done + [u];
    }

    /** dfs_check_cycle.  On success the path of calls in progress stays in cycle[..len], and its last
        vertex has an edge back onto it; otherwise the search state is as before, with u done. */
    method Dfs(u: nat, ghost gray: seq<nat>) returns (found: bool)
      requires Valid(gray) && u < NPROC && !visited[u]
      requires gray != [] ==> Edge(wfg, gray[|gray| - 1], u)
      modifies this`visited, this`stack, this`cycle, this`len, this`done
      ensures found ==> |cycle| == NPROC && 0 < len <= NPROC && Lasso(wfg, cycle[..len])
      ensures found ==> cycle[0] == (gray + [u])[0]
      ensures !found ==> Valid(gray) && u in done && old(done) <= done
      decreases Unseen(visited)
    {
      hide Searching, Path, Distinct, Unseen;
      Push(u, gray);
      ghost var all := gray + [u];
      var v := 0;
      while v < NPROC
        invariant v <= NPROC && Valid(all) && old(done) <= done && Unseen(visited) < old(Unseen(visited))
        invariant forall w :: 0 <= w < v && Edge(wfg, u, w) ==> w in done
      {
        Sizes(wfg, visited, stack, all, done);
        if wfg[u][v] {
          if !visited[v] {
            label before:
            found := Dfs(v, all);
            if found { return true; }
            SeenStays(wfg, old@before(visited), old@before(stack), all, old@before(done), visited, stack, done);
          } else if stack[v] {
            assert Edge(wfg, all[|all| - 1], v);
            return true;
          }
        }
        v := v + 1;
      }
      Pop(u, gray);
      return false;
    }

    /** build_wfg over a snapshot of the table; holder(l) is the pid field of sleeplock l. */
    method BuildWfg(procs: seq<Proc>, holder: nat -> int)
      requires |procs| == NPROC
      modifies this`wfg
      ensures Faithful(wfg, procs, holder)
    {
      wfg := seq(NPROC, _ => seq(NPROC, _ => false));
      var i := 0;
      while i < NPROC
        invariant i <= NPROC
        invariant forall a, b :: Edge(wfg, a, b) <==> exists k :: 0 <= k < i && Waits(procs[k], holder, a, b)
      {
        var p := procs[i];
        ghost var g := wfg;
        if p.state == SLEEPING && p.waiting != 0 {
          var h := holder(p.waiting);
          if h > 0 && h != p.pid {
            if p.pid > 0 && p.pid < NPROC && h > 0 && h < NPROC {
              wfg := wfg[p.pid := wfg[p.pid][h := true]];
            }
          }
        }
        assert forall a, b :: Edge(wfg, a, b) <==> Edge(g, a, b) || Waits(p, holder, a, b);
        i := i + 1;
      }
    }

    /** The copy loop into the zeroed result. */
    method Report() returns (pids: seq<nat>)
      requires |cycle| == NPROC && len < NPROC
      ensures |pids| == NPROC && forall k :: 0 <= k < NPROC ==> pids[k] == if k < len then cycle[k] else 0
    {
      pids := seq(NPROC, _ => 0);
      var j := 0;
      while j < len && j < NPROC
        invariant j <= len && |pids| == NPROC
        invariant forall k :: 0 <= k < NPROC ==> pids[k] == if k < j then cycle[k] else 0
      {
        pids := pids[j := cycle[j]];
        j := j + 1;
      }
    }

    /** memset of the search state. */
    method Clear()
      modifies this`visited, this`stack, this`cycle, this`len, this`done
      ensures Valid([]) && done == []
    {
      visited, stack, cycle, len, done := seq(NPROC, _ => false), seq(NPROC, _ => false), seq(NPROC, _ => 0), 0, [];
    }

    /** sys_getdeadlockinfo without the copy to user space. */
    method GetDeadlockInfo(procs: seq<Proc>, holder: nat -> int) returns (found: bool, pids: seq<nat>)
      requires |procs| == NPROC
      modifies this
      ensures Faithful(wfg, procs, holder) && (found <==> HasCycle(wfg))
      ensures found <==> exists p :: Stuck(procs, holder, p) && InTable(p)
      ensures found ==> exists k :: 0 < k < NPROC && Reported(wfg, pids, k)
      ensures !found ==> pids == seq(NPROC, _ => 0)
    {
      hide Searching, Lasso, Path, Distinct, HasCycle, Faithful, Stuck, InTable;
      BuildWfg(procs, holder);
      Clear();
      var i := 0;
      while i < NPROC
        invariant i <= NPROC && Valid([]) && Faithful(wfg, procs, holder)
        invariant forall k :: 0 <= k < i && Root(procs[k]) ==> procs[k].pid in done
      {
        var p := procs[i];
        Sizes(wfg, visited, stack, [], done);
        if p.state != UNUSED && p.pid > 0 && p.pid < NPROC && !visited[p.pid] {
          ghost var before := done;
          found := Dfs(p.pid, []);
          if found {
            LassoIsCycle(wfg, cycle[..len]);
            LassoShort(procs, holder, wfg, cycle[..len]);
            pids := Report();
            assert pids[..len] == cycle[..len];
            assert Reported(wfg, pids, len);
            StuckExactly(wfg, procs, holder);
            return;
          }
          assert forall k :: k in before ==> k in done;
        }
        i := i + 1;
      }
      DoneSorted(wfg, visited, stack, done);
      NoCycleLeft(procs, holder, wfg, done);
      StuckExactly(wfg, procs, holder);
      return false, seq(NPROC, _ => 0);
    }
  }

  lemma DoneSorted(g: Graph, visited: seq<bool>, stack: seq<bool>, done: seq<nat>)
    requires Searching(g, visited, stack, [], done)
    ensures Sorted(g, done)
  {
  }

  /** Every vertex with an edge is the pid of a table entry, so all were searched. */
  lemma NoCycleLeft(procs: seq<Proc>, holder: nat -> int, g: Graph, done: seq<nat>)
    requires |procs| == NPROC && Sorted(g, done) && Faithful(g, procs, holder)
    requires forall k :: 0 <= k < NPROC && Root(procs[k]) ==> procs[k].pid in done
    ensures !HasCycle(g)
  {
    forall p ensures !Cycle(g, p) {
      if Cycle(g, p) {
        assert Edge(g, p[0], p[1]);
        var k :| 0 <= k < |procs| && Waits(procs[k], holder, p[0], p[1]);
        SortedHasNoCycle(g, done, p);
      }
    }
  }

  /** Vertices are positive and below NPROC, so a path of distinct ones leaves room for the final zero. */
  lemma LassoShort(procs: seq<Proc>, holder: nat -> int, g: Graph, p: seq<nat>)
    requires Lasso(g, p) && 0 < p[0] < NPROC && Faithful(g, procs, holder)
    ensures |p| < NPROC && forall i :: 0 <= i < |p| ==> p[i] > 0
  {
    forall i | 0 <= i < |p| ensures 0 < p[i] < NPROC {
      if i > 0 { assert Edge(g, p[i - 1], p[i]); }
    }
    Pigeonhole(p, 1, NPROC - 1);
  }

  ghost predicate Waits(p: Proc, holder: nat -> int, a: nat, b: nat) {
    p.state == SLEEPING && p.waiting != 0 && p.pid == a && holder(p.waiting) == b && a != b && 0 < a < NPROC
        && 0 < b < NPROC
  }

  /** Some sleeping process with pid a waits for a lock held by the different process b. */
  ghost predicate WaitsFor(procs: seq<Proc>, holder: nat -> int, a: nat, b: nat) {
    exists k :: 0 <= k < |procs| && Waits(procs[k], holder, a, b)
  }

  ghost predicate Faithful(g: Graph, procs: seq<Proc>, holder: nat -> int) {
    forall a, b :: Edge(g, a, b) <==> WaitsFor(procs, holder, a, b)
  }

  /** A process with pid a sleeps on a lock that the different process b holds, whatever their pids. */
  ghost predicate Blocked(procs: seq<Proc>, holder: nat -> int, a: nat, b: nat) {
    exists k :: 0 <= k < |procs| && procs[k].state == SLEEPING && procs[k].waiting != 0
      && procs[k].pid == a && holder(procs[k].waiting) == b > 0 && a != b
  }

  /** A deadlock: each process of the walk is blocked by the next, and it comes back to its start. */
  ghost predicate Stuck(procs: seq<Proc>, holder: nat -> int, p: seq<nat>) {
    |p| >= 2 && p[0] == p[|p| - 1] && forall i :: 0 < i < |p| ==> Blocked(procs, holder, p[i - 1], p[i])
  }

  ghost predicate InTable(p: seq<nat>) { forall i :: 0 <= i < |p| ==> 0 < p[i] < NPROC }

  /** The graph has a cycle just when there is a deadlock of processes whose pids all index the table. */
  lemma StuckExactly(g: Graph, procs: seq<Proc>, holder: nat -> int)
    requires Faithful(g, procs, holder)
    ensures HasCycle(g) <==> exists p :: Stuck(procs, holder, p) && InTable(p)
  {
    if HasCycle(g) {
      var p :| Cycle(g, p);
      forall i | 0 < i < |p| ensures Blocked(procs, holder, p[i - 1], p[i]) {
        assert Edge(g, p[i - 1], p[i]);
        assert WaitsFor(procs, holder, p[i - 1], p[i]);
      }
      forall i | 0 <= i < |p| ensures 0 < p[i] < NPROC {
        var j := if i == 0 then 1 else i;
        assert Edge(g, p[j - 1], p[j]);
        assert WaitsFor(procs, holder, p[j - 1], p[j]);
      }
      assert Stuck(procs, holder, p) && InTable(p);
    }
    if p :| Stuck(procs, holder, p) && InTable(p) {
      forall i | 0 < i < |p| ensures Edge(g, p[i - 1], p[i]) {
        assert Blocked(procs, holder, p[i - 1], p[i]);
        assert WaitsFor(procs, holder, p[i - 1], p[i]);
      }
      assert Cycle(g, p);
    }
  }

  function Pair(): (procs: seq<Proc>)
    ensures |procs| == NPROC
    ensures procs[0] == Proc(SLEEPING, 64, 1) && procs[1] == Proc(SLEEPING, 65, 2)
    ensures forall k :: 2 <= k < NPROC ==> procs[k].state == UNUSED
  {
    [Proc(SLEEPING, 64, 1), Proc(SLEEPING, 65, 2)] + seq(NPROC - 2, _ => Proc(UNUSED, 0, 0))
  }

  function EachOther(lock: nat): int { if lock == 1 then 65 else 64 }

  /** Processes 64 and 65 each wait for a lock of the other, and no deadlock is reported. */
  method DeadlockMissed(d: Detector) returns (found: bool)
    modifies d
    ensures Stuck(Pair(), EachOther, [64, 65, 64]) && !found
  {
    assert Blocked(Pair(), EachOther, 64, 65) by { assert Pair()[0].pid == 64; }
    assert Blocked(Pair(), EachOther, 65, 64) by { assert Pair()[1].pid == 65; }
    var pids;
    found, pids := d.GetDeadlockInfo(Pair(), EachOther);
    forall p | Stuck(Pair(), EachOther, p) ensures !InTable(p) {
      assert Blocked(Pair(), EachOther, p[1 - 1], p[1]);
    }
  }

  predicate Root(p: Proc) { p.state != UNUSED && 0 < p.pid < NPROC }

  /** pids is a zero-terminated path of k vertices whose last one has an edge back onto it. */
  ghost predicate Reported(g: Graph, pids: seq<nat>, k: nat) {
    && |pids| == NPROC && 0 < k < NPROC && Lasso(g, pids[..k])
    && (forall j :: 0 <= j < k ==> pids[j] > 0) && forall j :: k <= j < NPROC ==> pids[j] == 0
  }

  /** A path of distinct vertices whose last one has an edge back onto the path. */
  ghost predicate Lasso(g: Graph, p: seq<nat>) {
    p != [] && Path(g, p) && Distinct(p) && exists v :: v in p && Edge(g, p[|p| - 1], v)
  }

  lemma LassoIsCycle(g: Graph, p: seq<nat>)
    requires Lasso(g, p)
    ensures HasCycle(g)
  {
    var v :| v in p && Edge(g, p[|p| - 1], v);
    var i :| 0 <= i < |p| && p[i] == v;
    assert Cycle(g, p[i..] + [v]);
  }
}
