/** The functions of log.c as imperative code over the in-memory log header, the buffer cache and
    the disk.  Every method reports which steps of the machine in LogModel it performed. */
module LogCode {
  import opened LogModel

  class Log {
    const start: nat
    const size: nat
    var disk: seq<Block>
    var cache: map<nat, Block>
    var n: nat                 // log.lh.n
    const block: array<nat>    // log.lh.block
    var outstanding: nat
    var committing: bool

    ghost var ops: map<Op, nat>
    ghost var checked: set<Op>
    ghost var phase: Phase
    ghost var origin: seq<Block>
    ghost var events: seq<Event>
    ghost var durable: nat

    ghost function Abs(): State
      requires n <= block.Length
      reads this, block
    {
      State(Geometry(start, size, |disk|), disk, cache, block[..n], ops, checked, phase, origin, events, durable)
    }

    ghost predicate Valid()
      reads this, block
    {
      && block.Length == LOGSIZE && n <= LOGSIZE
      && outstanding == |ops| && (committing <==>
          phase.WriteLog? || phase.WriteHead? || phase.Install? || phase.ClearHead?)
      && Inv(Abs())
    }

    constructor (start: nat, size: nat, disk: seq<Block>)
      requires DiskOk(Geometry(start, size, |disk|), disk) && ReadHeader(disk[start]) == []
      ensures fresh(block) && block.Length == LOGSIZE && n == 0 && Init(Abs()) && Abs().disk == disk
    {
      this.start, this.size, this.disk, cache, n := start, size, disk, map[], 0;
      block := new nat[LOGSIZE];
      outstanding, committing := 0, false;
      ops, checked, phase, origin, events, durable := map[], {}, Boot, disk, [], 0;
    }

    /** One turn of begin_op's loop; `admitted` is false where the source sleeps. */
    method BeginOp(ghost op: Op) returns (admitted: bool)
      requires Valid() && !Recovering(Abs()) && !phase.Panicked? && op !in ops
      modifies this
      ensures Valid() && admitted == old(Enabled(Abs(), Step.BeginOp(op)))
      ensures Abs() == if admitted then old(Do(Abs(), Step.BeginOp(op))) else old(Abs())
      ensures admitted <==> !old(committing) && old(n) + 10 * (old(outstanding) + 1) <= 30
      ensures admitted ==> outstanding == old(outstanding) + 1 && op in ops && unchanged(`n, `committing, `disk, `cache)
      ensures !admitted ==> unchanged(this)
    {
      if committing || n + (outstanding + 1) * MAXOPBLOCKS > LOGSIZE {
        return false;
      }
      StepKeepsInv(Abs(), Step.BeginOp(op));
      outstanding := outstanding + 1;
      ops := ops[op := 0];
      events := events + [Began(op)];
      return true;
    }

    /** The loop of log_write: log absorption, or a new entry at the end. */
    method RecordBlock(b: nat)
      requires n <= block.Length && (n < block.Length || b in block[..n])
      modifies this`n, block
      ensures n <= block.Length
      ensures block[..n] == if b in old(block[..n]) then old(block[..n]) else old(block[..n]) + [b]
    {
      var i := 0;
      while i < n && block[i] != b
        invariant i <= n && b !in block[..i]
      {
        i := i + 1;
      }
      block[i] := b;
      if i == n { n := n + 1; }
    }

    /** The critical section of log_write: absorb or append, and pin the buffer. */
    method LogWrite(ghost op: Op, b: nat, data: Block)
      requires Valid() && phase.Idle? && op in checked && b < |disk| && !(start <= b < start + size)
      requires b in block[..n] || (n < LOGSIZE && n + 2 <= size)
      modifies this, block
      ensures Valid() && Abs() == old(Do(Abs(), Step.LogWrite(op, b, data)))
      ensures block[..n] == if b in old(block[..n]) then old(block[..n]) else old(block[..n]) + [b]
      ensures cache == old(cache)[b := data] && events == old(events) + [Wrote(op, b, data)] && unchanged(`disk)
    {
      hide Inv, Do, Enabled, LogFits;
      ghost var s := Abs();
      MayWrite(s, op, b, data);
      ghost var s' := Do(s, Step.LogWrite(op, b, data));
      StepKeepsInv(s, Step.LogWrite(op, b, data));
      WriteState(s, op, b, data);
      RecordBlock(b);
      cache := cache[b := data];
      ops, checked, events := s'.ops, s'.checked, s'.events;
      assert Abs() == s';
    }

    static lemma MayWrite(s: State, op: Op, b: nat, data: Block)
      requires Inv(s) && s.phase.Idle? && op in s.checked && Home(s.g, b)
      requires b in s.lh || (|s.lh| < LOGSIZE && |s.lh| + 2 <= s.g.size)
      ensures Enabled(s, Step.LogWrite(op, b, data)) && LogFits(s.g, Do(s, Step.LogWrite(op, b, data)).lh)
    {
      hide Gathering, Open, Replay, HeaderOk, EventsOk;
    }

    static lemma WriteState(s: State, op: Op, b: nat, data: Block)
      requires Enabled(s, Step.LogWrite(op, b, data)) && LogFits(s.g, Do(s, Step.LogWrite(op, b, data)).lh)
      ensures (var s' := Do(s, Step.LogWrite(op, b, data)); var lh := if b in s.lh then s.lh else s.lh + [b];
        && |s'.ops| == |s.ops| && |lh| <= LOGSIZE && s'.events == s.events + [Wrote(op, b, data)]
        && s' == s.(cache := s.cache[b := data], lh := lh, ops := s'.ops, checked := s'.checked, events := s'.events))
    {
      var s' := Do(s, Step.LogWrite(op, b, data));
      assert s'.ops.Keys == s.ops.Keys && |s'.ops| == |s'.ops.Keys| && |s.ops| == |s.ops.Keys|;
    }

    method WriteLog() returns (ghost ts: seq<Step>)
      requires Valid() && n > 0 && phase == Phase.WriteLog(0)
      modifies this`disk, this`phase
      ensures Valid() && phase.WriteHead? && Performs(old(Abs()), ts, Abs())
    {
      hide Inv, Performs, PutHeader, ReadHeader, HeaderOk;
      ts := PerformNone(Abs());
      var tail := 0;
      while tail < n
        invariant Valid() && tail <= n && Performs(old(Abs()), ts, Abs())
        invariant phase == if tail < n then Phase.WriteLog(tail) else Phase.WriteHead
      {
        ts := PerformMore(old(Abs()), ts, Abs());
        disk := disk[start + 1 + tail := cache[block[tail]]];
        phase := if tail + 1 == n then Phase.WriteHead else Phase.WriteLog(tail + 1);
        tail := tail + 1;
      }
    }

    /** One turn of install_trans: copy a log block over its home block and write it. */
    method CopyHome(tail: nat)
      requires Valid() && tail < n && (phase == Phase.Install(tail) || phase == Phase.Recover(tail))
      modifies this`disk, this`cache, this`phase
      ensures Valid() && old(Enabled(Abs(), Advance)) && Abs() == old(Forward(Abs()))
    {
      hide Inv;
      NeverStuck(Abs());
      ghost var next := Forward(Abs()).phase;
      var lbuf := disk[start + tail + 1];
      disk, cache := disk[block[tail] := lbuf], cache[block[tail] := lbuf];
      phase := next;
    }

    /** install_trans, during a commit or during recovery. */
    method InstallTrans() returns (ghost ts: seq<Step>)
      requires Valid() && n > 0 && (phase == Phase.Install(0) || phase == Phase.Recover(0))
      modifies this`disk, this`cache, this`phase
      ensures Valid() && Performs(old(Abs()), ts, Abs())
      ensures phase == if old(phase.Install?) then Phase.ClearHead else Phase.RecoverClear
    {
      hide Inv, Performs, PutHeader, ReadHeader, HeaderOk;
      ts := PerformNone(Abs());
      var tail := 0;
      while tail < n
        invariant Valid() && tail <= n && Performs(old(Abs()), ts, Abs())
        invariant phase == if old(phase.Install?) then (if tail < n then Phase.Install(tail) else Phase.ClearHead)
                           else (if tail < n then Phase.Recover(tail) else Phase.RecoverClear)
      {
        ts := PerformMore(old(Abs()), ts, Abs());
        CopyHome(tail);
        tail := tail + 1;
      }
    }

    /** Lay the in-memory header over the words of a block. */
    method EncodeHead(hb: Block) returns (r: Block)
      requires n <= block.Length == LOGSIZE && |hb.w| == WORDS
      ensures r == PutHeader(hb, block[..n])
    {
      var w := hb.w[0 := n];
      var i := 0;
      while i < n
        invariant i <= n && |w| == WORDS && w[0] == n
        invariant forall k :: 0 < k < WORDS ==> w[k] == if k <= i then block[k - 1] else hb.w[k]
      {
        w := w[i + 1 := block[i]];
        i := i + 1;
      }
      assert w == PutHeader(hb, block[..n]).w;
      r := Block(w);
    }

    /** write_head with the gathered block numbers, which makes the group durable. */
    method WriteHead() returns (ghost ts: seq<Step>)
      requires Valid() && phase.WriteHead?
      modifies this`disk, this`phase, this`durable
      ensures Valid() && phase == Phase.Install(0) && durable == |events| && Performs(old(Abs()), ts, Abs())
    {
      hide Inv, Performs;
      ts := PerformNone(Abs());
      ts := PerformMore(Abs(), ts, Abs());
      var hb := EncodeHead(disk[start]);
      disk, phase, durable := disk[start := hb], Phase.Install(0), |events|;
    }

    /** The header written with an empty list: the log on disk is free again. */
    method EraseHead() returns (ghost ts: seq<Step>)
      requires Valid() && (phase.ClearHead? || phase.RecoverClear?)
      modifies this`disk, this`phase, this`n, this`committing
      ensures Valid() && phase.Idle? && n == 0 && Performs(old(Abs()), ts, Abs())
    {
      hide Inv, Performs;
      ts := PerformNone(Abs());
      ts := PerformMore(Abs(), ts, Abs());
      n := 0;
      var hb := EncodeHead(disk[start]);
      disk, phase, committing := disk[start := hb], Phase.Idle, false;
    }

    method Commit() returns (ghost ts: seq<Step>)
      requires Valid() && n > 0 && phase == Phase.WriteLog(0)
      modifies this
      ensures Valid() && phase.Idle? && n == 0 && ops == old(ops)
      ensures Performs(old(Abs()), ts, Abs()) && durable == |events| && events == old(events)
      ensures |disk| == |old(disk)|
      ensures forall b :: b in old(block[..n]) ==> b in old(cache) && b < |disk| && disk[b] == old(cache)[b]
      ensures forall b :: 0 <= b < |disk| && !(start <= b < start + size) && b !in old(block[..n]) ==>
        disk[b] == old(disk)[b]
    {
      hide Inv, Performs;
      ghost var a := WriteLog();
      ghost var s1 := Abs();
      ghost var b := WriteHead();
      ghost var s2 := Abs();
      ghost var c := InstallTrans();
      ghost var s3 := Abs();
      ghost var d := EraseHead();
      PerformBoth(s2, c, s3, d, Abs());
      PerformBoth(s1, b, s2, c + d, Abs());
      PerformBoth(old(Abs()), a, s1, b + (c + d), Abs());
      ts := a + (b + (c + d));
      CommitWrites(old(Abs()), Abs());
    }

    /** A commit brings exactly the logged blocks home. */
    static lemma CommitWrites(s: State, s': State)
      requires Inv(s) && s.phase == Phase.WriteLog(0) && Inv(s') && s'.phase.Idle? && s'.ops == s.ops
      requires s'.events == s.events && s'.origin == s.origin && s'.g.start == s.g.start && s'.g.size == s.g.size
      ensures |s'.disk| == |s.disk|
      ensures forall b :: b in s.lh ==> b in s.cache && b < |s'.disk| && s'.disk[b] == s.cache[b]
      ensures forall b: nat :: Home(s.g, b) && b !in s.lh ==> s'.disk[b] == s.disk[b]
    {
      hide Open, Replay, HeaderOk, EventsOk;
      assert s'.events[..|s'.events|] == s'.events;
      forall b | b in s.lh ensures b in s.cache && b < |s'.disk| && s'.disk[b] == s.cache[b] {
        var i :| 0 <= i < |s.lh| && s.lh[i] == b;
        assert Home(s.g, s.lh[i]);
      }
    }

    /** The critical section of end_op. */
    method LeaveOp(ghost op: Op) returns (doCommit: bool)
      requires Valid() && phase.Idle? && op in ops && op !in checked
      modifies this
      ensures Valid() && Abs() == old(Do(Abs(), Step.EndOp(op)))
      ensures doCommit == (phase == Phase.WriteLog(0)) && (doCommit ==> n > 0) && (!doCommit ==> phase.Idle?)
      ensures outstanding == old(outstanding) - 1 && (doCommit <==> old(outstanding) == 1 && n > 0)
      ensures committing == doCommit && unchanged(`n, `disk, `cache)
    {
      hide Inv, Do, Enabled;
      EndState(Abs(), op);
      StepKeepsInv(Abs(), Step.EndOp(op));
      ghost var s := Do(Abs(), Step.EndOp(op));
      outstanding := outstanding - 1;
      ops, events, durable, phase := s.ops, s.events, s.durable, s.phase;
      doCommit := outstanding == 0 && n > 0;
      committing := doCommit;
    }

    static lemma EndState(s: State, op: Op)
      requires s.phase.Idle? && op in s.ops && op !in s.checked
      ensures Enabled(s, Step.EndOp(op))
      ensures (var s' := Do(s, Step.EndOp(op));
        && |s'.ops| == |s.ops| - 1 && s'.ops == s.ops - {op}
        && s'.phase == (if |s'.ops| == 0 && |s.lh| > 0 then Phase.WriteLog(0) else Phase.Idle)
        && s' == s.(ops := s'.ops, events := s'.events, durable := s'.durable, phase := s'.phase))
    {
      assert s.ops.Keys == (s.ops - {op}).Keys + {op} && |s.ops| == |s.ops.Keys|
          && |s.ops - {op}| == |(s.ops - {op}).Keys|;
    }

    /** end_op: the last outstanding call commits for the whole group. */
    method EndOp(ghost op: Op) returns (ghost ts: seq<Step>)
      requires Valid() && phase.Idle? && op in ops && op !in checked
      modifies this
      ensures Valid() && phase.Idle? && !committing && outstanding == old(outstanding) - 1
      ensures if outstanding == 0 then n == 0 else n == old(n) && disk == old(disk) && cache == old(cache)
      ensures Performs(old(Do(Abs(), Step.EndOp(op))), ts, Abs())
      ensures ops == old(ops) - {op} && (ops == map[] ==> durable == |events|)
    {
      hide Inv, Performs;
      var doCommit := LeaveOp(op);
      ts := PerformNone(Abs());
      if doCommit {
        ts := Commit();
      }
    }

    method ReadHead() returns (ghost ts: seq<Step>)
      requires Valid() && phase.Boot?
      modifies this`n, this`phase, block
      ensures Valid() && Performs(old(Abs()), ts, Abs())
      ensures phase == if n == 0 then Phase.RecoverClear else Phase.Recover(0)
    {
      hide Inv, Performs;
      ghost var s0 := Abs();
      ts := PerformNone(s0);
      ts := PerformMore(s0, ts, Abs());
      ghost var lh := ReadHeader(disk[start]);
      n := disk[start].w[0];
      var i := 0;
      while i < n
        invariant i <= n == |lh| <= LOGSIZE && block[..i] == lh[..i]
      {
        block[i] := disk[start].w[i + 1];
        i := i + 1;
      }
      phase := if n == 0 then Phase.RecoverClear else Phase.Recover(0);
      assert block[..n] == lh;
    }

    /** recover_from_log, from the header read at boot to the cleared log. */
    method RecoverFromLog() returns (ghost ts: seq<Step>)
      requires Valid() && phase.Boot?
      modifies this, block
      ensures Valid() && phase.Idle? && n == 0 && Performs(old(Abs()), ts, Abs())
    {
      hide Inv, Performs;
      ts := ReadHead();
      if n > 0 {
        ghost var s1 := Abs();
        ghost var b := InstallTrans();
        PerformBoth(old(Abs()), ts, s1, b, Abs());
        ts := ts + b;
      }
      ghost var s2 := Abs();
      ghost var c := EraseHead();
      PerformBoth(old(Abs()), ts, s2, c, Abs());
      ts := ts + c;
    }
  }

  /** `s'` is reached from `s` by the disk writes `ts` of the committing process alone. */
  ghost predicate Performs(s: State, ts: seq<Step>, s': State) {
    Runs(s, ts) && Exec(s, ts) == s' && forall i :: 0 <= i < |ts| ==> ts[i] == Advance
  }

  lemma PerformNone(s: State) returns (ts: seq<Step>)
    ensures ts == [] && Performs(s, ts, s)
  {
    ts := [];
  }

  lemma PerformMore(s: State, ts: seq<Step>, m: State) returns (ts': seq<Step>)
    requires Performs(s, ts, m) && Inv(m) && !m.phase.Idle? && !m.phase.Panicked?
    ensures Enabled(m, Advance) && Inv(Forward(m)) && Performs(s, ts', Forward(m))
  {
    NeverStuck(m);
    hide Inv, Enabled, Forward;
    ts' := ts + [Advance];
    assert ts'[..|ts|] == ts;
  }

  lemma {:induction false} PerformBoth(s: State, a: seq<Step>, m: State, b: seq<Step>, s': State)
    requires Performs(s, a, m) && Performs(m, b, s')
    ensures Performs(s, a + b, s')
    decreases |b|
  {
    hide Enabled, Do;
    if b == [] {
      assert a + b == a;
    } else {
      PerformBoth(s, a, m, b[..|b| - 1], Exec(m, b[..|b| - 1]));
      assert (a + b)[..|a + b| - 1] == a + b[..|b| - 1];
    }
  }
}
