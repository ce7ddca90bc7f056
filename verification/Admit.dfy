/** Which system calls begin_op lets in, told by the history of the calls alone. */
module Admission {
  import opened LogModel

  /** The blocks that `es` writes. */
  ghost function Written(es: seq<Event>): set<nat> {
    if es == [] then {}
    else Written(es[..|es| - 1]) + if es[|es| - 1].Wrote? then {es[|es| - 1].b} else {}
  }

  /** The blocks written since the last commit. */
  ghost function Pending(s: State): set<nat>
    requires s.durable <= |s.events|
  {
    Written(s.events[s.durable..])
  }

  ghost predicate Collecting(c: Phase) { c.Idle? || c.Panicked? || c.WriteLog? || c.WriteHead? }

  /** The list in memory has each block written since the last commit once; the calls in progress are those that
      began and did not end. */
  ghost predicate Booked(s: State) {
    && s.durable <= |s.events|
    && (if Collecting(s.phase) then Distinct(s.lh) && forall b :: b in s.lh <==> b in Pending(s)
        else s.durable == |s.events|)
    && Open(s.events) == s.ops.Keys && Open(s.events[..s.durable]) == {}
    && (s.phase.Idle? || s.phase.Panicked? || s.ops == map[])
  }

  lemma AppendEvent(es: seq<Event>, d: nat, e: Event)
    requires d <= |es|
    ensures Written((es + [e])[d..]) == Written(es[d..]) + if e.Wrote? then {e.b} else {}
    ensures Open(es + [e]) == OpenAfter(Open(es), e) && (es + [e])[..d] == es[..d]
  {
    var r := (es + [e])[d..];
    assert r[..|r| - 1] == es[d..] && (es + [e])[..|es|] == es;
  }

  lemma BeginBooked(s: State, op: Op)
    requires Booked(s) && Enabled(s, BeginOp(op))
    ensures Booked(Do(s, BeginOp(op)))
  {
    AppendEvent(s.events, s.durable, Began(op));
    assert s.ops[op := 0].Keys == s.ops.Keys + {op};
    hide Open, Written, Distinct;
    assert Pending(Do(s, BeginOp(op))) == Pending(s);
    hide Pending;
  }

  lemma EndBooked(s: State, op: Op)
    requires Booked(s) && Enabled(s, EndOp(op))
    ensures Booked(Do(s, EndOp(op)))
  {
    var es := s.events + [Ended(op)];
    AppendEvent(s.events, s.durable, Ended(op));
    assert (s.ops - {op}).Keys == s.ops.Keys - {op} && es[..|es|] == es && es[|es|..] == [] && Written([]) == {};
    hide Open, Written;
  }

  lemma LogWriteBooked(s: State, op: Op, b: nat, data: Block)
    requires Booked(s) && Enabled(s, LogWrite(op, b, data))
    ensures Booked(Do(s, LogWrite(op, b, data)))
  {
    hide Open, Written;
    AppendEvent(s.events, s.durable, Wrote(op, b, data));
    assert s.ops[op := s.ops[op] + 1].Keys == s.ops.Keys;
  }

  lemma CrashBooked(s: State)
    requires Booked(s)
    ensures Booked(Do(s, Crash))
  {
    var es := s.events[..s.durable];
    assert es[..s.durable] == es;
    hide Open, Written;
  }

  lemma AdvanceBooked(s: State)
    requires Booked(s) && Enabled(s, Advance)
    ensures Booked(Do(s, Advance))
  {
    assert s.events[..|s.events|] == s.events && s.events[|s.events|..] == [] && Written([]) == {};
    hide Open, Written;
  }

  lemma StepBooked(s: State, t: Step)
    requires Booked(s) && Enabled(s, t)
    ensures Booked(Do(s, t))
  {
    match t {
      case BeginOp(op) => BeginBooked(s, op);
      case LogWrite(op, b, data) => LogWriteBooked(s, op, b, data);
      case EndOp(op) => EndBooked(s, op);
      case Advance => AdvanceBooked(s);
      case Crash => CrashBooked(s);
      case _ =>
    }
  }

  lemma {:induction false} RunBooked(s0: State, ts: seq<Step>)
    requires Init(s0) && Runs(s0, ts)
    ensures Booked(Exec(s0, ts))
    decreases |ts|
  {
    if ts == [] {
      assert s0.events[..0] == [];
    } else {
      hide Booked, Do, Enabled;
      RunBooked(s0, ts[..|ts| - 1]);
      StepBooked(Exec(s0, ts[..|ts| - 1]), ts[|ts| - 1]);
    }
  }

  lemma {:induction false} DistinctSize(lh: seq<nat>, blocks: set<nat>)
    requires Distinct(lh) && forall b :: b in lh <==> b in blocks
    ensures |lh| == |blocks|
    decreases |lh|
  {
    if lh != [] {
      var r, b := lh[..|lh| - 1], lh[|lh| - 1];
      assert lh == r + [b];
      DistinctSize(r, blocks - {b});
    }
  }

  /** In every run, whatever the calls do: where nothing is committing, a new call is let in if and only if the blocks
      written since the last commit, and ten for each call in progress and for the new one, are at most thirty. */
  lemma AdmittedExactly(s0: State, ts: seq<Step>, op: Op)
    requires Init(s0) && Runs(s0, ts) && Exec(s0, ts).phase.Idle? && op !in Open(Exec(s0, ts).events)
    ensures (var s := Exec(s0, ts);
      && s.durable <= |s.events|
      && (Enabled(s, BeginOp(op)) <==> |Pending(s)| + 10 * (|Open(s.events)| + 1) <= 30))
  {
    hide Runs, Exec, Init;
    RunBooked(s0, ts);
    var s := Exec(s0, ts);
    DistinctSize(s.lh, Pending(s));
    assert |s.ops| == |s.ops.Keys|;
  }

  /** Boot from an empty log. */
  lemma BootsIdle(s0: State)
    requires Init(s0)
    ensures Runs(s0, [Advance, Advance]) && Thrifty(s0, [Advance, Advance], MAXOPBLOCKS)
    ensures (var s := Exec(s0, [Advance, Advance]); Quiet(s, s0.g))
  {
    Single(s0, Advance, MAXOPBLOCKS);
    assert [Advance] + [Advance] == [Advance, Advance];
    hide Runs, Exec, Thrifty;
    Append(s0, [Advance], Advance, MAXOPBLOCKS);
  }

  ghost predicate Quiet(s: State, g: Geometry) {
    s.phase.Idle? && s.lh == [] && s.ops == map[] && s.checked == {} && s.g == g
  }

  /** Boot, and the first call logs its first block. */
  lemma FirstBlock(s0: State, first: nat, data: Block) returns (ts: seq<Step>)
    requires Init(s0) && s0.g.size == LOGSIZE && Home(s0.g, first)
    ensures ts == [Advance, Advance, BeginOp(0), LogCheck(0), LogWrite(0, first, data)]
    ensures Runs(s0, ts) && Thrifty(s0, ts, MAXOPBLOCKS)
    ensures (var s := Exec(s0, ts); s.phase.Idle? && s.lh == [first] && s.ops == map[0 := 1])
  {
    hide Runs, Exec, Thrifty, Init, Forward;
    BootsIdle(s0);
    ts := [Advance, Advance];
    Append(s0, ts, BeginOp(0), MAXOPBLOCKS);
    ts := ts + [BeginOp(0)];
    Append(s0, ts, LogCheck(0), MAXOPBLOCKS);
    ts := ts + [LogCheck(0)];
    Append(s0, ts, LogWrite(0, first, data), MAXOPBLOCKS);
    ts := ts + [LogWrite(0, first, data)];
  }

  /** A second call joins a group that has logged a block already; a third then has to wait. */
  lemma JoinsGroup(s0: State, first: nat, data: Block) returns (ts: seq<Step>)
    requires Init(s0) && s0.g.size == LOGSIZE && Home(s0.g, first)
    ensures ts == [Advance, Advance, BeginOp(0), LogCheck(0), LogWrite(0, first, data), BeginOp(1)]
    ensures Runs(s0, ts) && Exec(s0, ts).lh == [first] && Exec(s0, ts).ops == map[0 := 1, 1 := 0]
    ensures !Enabled(Exec(s0, ts), BeginOp(2))
  {
    hide Runs, Exec, Thrifty, Init;
    ts := FirstBlock(s0, first, data);
    Append(s0, ts, BeginOp(1), MAXOPBLOCKS);
    ts := ts + [BeginOp(1)];
  }
}
