/** A pipe (pipe.c) under any number of readers and writers.  A step is what a process does while it holds
    the pipe's lock, from acquire, or from waking up in sleep, to release or to the next sleep. */
module PipeModel {
  const PIPESIZE: nat := 512
  const WORD: nat := 0x1_0000_0000

  datatype Proc =
    | Idle
    | Writing(rest: seq<nat>)     // in pipewrite with these bytes left, able to run
    | WSleep(rest: seq<nat>)      // asleep on nwrite
    | Reading(n: nat)             // in piperead, able to run
    | RSleep(n: nat)              // asleep on nread

  /** stored and delivered are all the bytes that ever went in and came out. */
  datatype Pipe = Pipe(stored: seq<nat>, delivered: seq<nat>, readopen: bool, writeopen: bool, procs: seq<Proc>,
      killed: seq<bool>)

  datatype Step =
    | CallWrite(p: nat, addr: seq<nat>)
    | CallRead(p: nat, n: nat)
    | Write(p: nat)
    | Read(p: nat)
    | Close(writable: bool)
    | Kill(p: nat)

  ghost function Count(s: Pipe): int { |s.stored| - |s.delivered| }

  function WokenReader(c: Proc): Proc { if c.RSleep? then Reading(c.n) else c }
  function WokenWriter(c: Proc): Proc { if c.WSleep? then Writing(c.rest) else c }

  /** wakeup(&p->nread). */
  function WakeReaders(procs: seq<Proc>): (r: seq<Proc>)
    ensures |r| == |procs| && forall i :: 0 <= i < |r| ==> r[i] == WokenReader(procs[i])
  {
    seq(|procs|, i requires 0 <= i < |procs| => WokenReader(procs[i]))
  }

  /** wakeup(&p->nwrite). */
  function WakeWriters(procs: seq<Proc>): (r: seq<Proc>)
    ensures |r| == |procs| && forall i :: 0 <= i < |r| ==> r[i] == WokenWriter(procs[i])
  {
    seq(|procs|, i requires 0 <= i < |procs| => WokenWriter(procs[i]))
  }

  function Min(a: nat, b: nat): nat { if a < b then a else b }

  ghost predicate IsReader(c: Proc) { c.Reading? || c.RSleep? }
  ghost predicate IsWriter(c: Proc) { c.Writing? || c.WSleep? }

  ghost predicate Enabled(s: Pipe, t: Step) {
    && |s.killed| == |s.procs| && |s.delivered| <= |s.stored| <= |s.delivered| + PIPESIZE
    && match t
       case CallWrite(p, _) => p < |s.procs| && s.procs[p].Idle? && s.writeopen
       case CallRead(p, _) => p < |s.procs| && s.procs[p].Idle? && s.readopen
       case Write(p) => p < |s.procs| && s.procs[p].Writing?
       case Read(p) => p < |s.procs| && s.procs[p].Reading?
       // the file layer closes an end when nobody has it open any more, so nobody is using it
       case Close(w) => forall i :: 0 <= i < |s.procs| ==> if w then !IsWriter(s.procs[i]) else !IsReader(s.procs[i])
       case Kill(p) => p < |s.procs|
  }

  ghost function DoWrite(s: Pipe, p: nat): Pipe
    requires Enabled(s, Write(p))
  {
    var rest := s.procs[p].rest;
    var k := Min(|rest|, PIPESIZE - Count(s));
    var s' := s.(stored := s.stored + rest[..k]);
    if k == |rest| then s'.(procs := WakeReaders(s.procs)[p := Idle])
    else if !s.readopen || s.killed[p] then s'.(procs := s.procs[p := Idle])
    else s'.(procs := WakeReaders(s.procs)[p := WSleep(rest[k..])])
  }

  ghost function DoRead(s: Pipe, p: nat): Pipe
    requires Enabled(s, Read(p))
  {
    var n := s.procs[p].n;
    if Count(s) == 0 && s.writeopen then
      if s.killed[p] then s.(procs := s.procs[p := Idle]) else s.(procs := s.procs[p := RSleep(n)])
    else
      var k := Min(n, Count(s));
      s.(delivered := s.delivered + s.stored[|s.delivered|..|s.delivered| + k],
          procs := WakeWriters(s.procs)[p := Idle])
  }

  ghost function Do(s: Pipe, t: Step): Pipe
    requires Enabled(s, t)
  {
    match t
    case CallWrite(p, addr) => s.(procs := s.procs[p := Writing(addr)])
    case CallRead(p, n) => s.(procs := s.procs[p := Reading(n)])
    case Write(p) => DoWrite(s, p)
    case Read(p) => DoRead(s, p)
    case Close(w) => if w then s.(writeopen := false, procs := WakeReaders(s.procs))
        else s.(readopen := false, procs := WakeWriters(s.procs))
    case Kill(p) => s.(killed := s.killed[p := true], procs := s.procs[p := WokenReader(WokenWriter(s.procs[p]))])
  }

  /** What pipewrite does, by how many of its bytes fit. */
  lemma Writes(s: Pipe, p: nat)
    requires InOrder(s) && p < |s.procs| && s.procs[p].Writing?
    ensures Enabled(s, Write(p))
    ensures (var rest, room := s.procs[p].rest, PIPESIZE - Count(s);
      Do(s, Write(p)) ==
        if |rest| <= room then s.(stored := s.stored + rest, procs := WakeReaders(s.procs)[p := Idle])
        else if !s.readopen || s.killed[p] then s.(stored := s.stored + rest[..room], procs := s.procs[p := Idle])
        else s.(stored := s.stored + rest[..room], procs := WakeReaders(s.procs)[p := WSleep(rest[room..])]))
  {
    var rest := s.procs[p].rest;
    assert rest[..|rest|] == rest;
  }

  // ---------------------------------------------------------------- the invariant

  /** What came out is what went in, in order, up to the at most 512 bytes still inside. */
  ghost predicate InOrder(s: Pipe) {
    |s.delivered| <= |s.stored| <= |s.delivered| + PIPESIZE && s.delivered == s.stored[..|s.delivered|]
        && |s.killed| == |s.procs|
  }

  /** A writer sleeps only while the pipe is full and can still be read. */
  ghost predicate WritersOk(s: Pipe) {
    forall i :: 0 <= i < |s.procs| && s.procs[i].WSleep? ==> Count(s) == PIPESIZE && s.readopen && s.procs[i].rest != []
  }

  /** A reader and a writer are never both asleep. */
  ghost predicate NotBoth(s: Pipe) {
    forall i, j :: 0 <= i < |s.procs| && 0 <= j < |s.procs| ==> !(s.procs[i].RSleep? && s.procs[j].WSleep?)
  }

  ghost predicate EndsOk(s: Pipe) {
    forall i :: 0 <= i < |s.procs| ==> (IsReader(s.procs[i]) ==> s.readopen) && (IsWriter(s.procs[i]) ==> s.writeopen)
  }

  ghost predicate Inv(s: Pipe) { InOrder(s) && WritersOk(s) && NotBoth(s) && EndsOk(s) }

  lemma WriteKeeps(s: Pipe, p: nat)
    requires Inv(s) && Enabled(s, Write(p))
    ensures Inv(DoWrite(s, p))
  {
  }

  lemma ReadKeeps(s: Pipe, p: nat)
    requires Inv(s) && Enabled(s, Read(p))
    ensures Inv(DoRead(s, p))
  {
    var s' := DoRead(s, p);
    assert s'.delivered == s.stored[..|s'.delivered|];
  }

  lemma StepKeepsInv(s: Pipe, t: Step)
    requires Inv(s) && Enabled(s, t)
    ensures Inv(Do(s, t))
  {
    match t {
      case Write(p) => WriteKeeps(s, p);
      case Read(p) => ReadKeeps(s, p);
      case _ =>
    }
  }

  // ---------------------------------------------------------------- every run

  ghost predicate Init(s: Pipe) {
    && s.stored == s.delivered == [] && s.readopen && s.writeopen && |s.killed| == |s.procs|
    && forall i :: 0 <= i < |s.procs| ==> s.procs[i] == Idle
  }

  ghost predicate Runs(s: Pipe, run: seq<Step>)
    decreases |run|
  {
    run != [] ==> Enabled(s, run[0]) && Runs(Do(s, run[0]), run[1..])
  }

  ghost function Exec(s: Pipe, run: seq<Step>): Pipe
    requires Runs(s, run)
    decreases |run|
  {
    if run == [] then s else Exec(Do(s, run[0]), run[1..])
  }

  lemma {:induction false} RunKeepsInv(s: Pipe, run: seq<Step>)
    requires Inv(s) && Runs(s, run)
    ensures Inv(Exec(s, run))
    decreases |run|
  {
    hide Inv;
    if run != [] {
      StepKeepsInv(s, run[0]);
      RunKeepsInv(Do(s, run[0]), run[1..]);
    }
  }

  /** In every run the bytes delivered are a prefix of the bytes stored, at most 512 behind, and no
      reader sleeps while a writer does. */
  lemma PipeInOrder(s: Pipe, run: seq<Step>)
    requires Init(s) && Runs(s, run)
    ensures Exec(s, run).delivered <= Exec(s, run).stored && 0 <= Count(Exec(s, run)) <= PIPESIZE
      && NotBoth(Exec(s, run))
  {
    RunKeepsInv(s, run);
  }

  // ---------------------------------------------------------------- readers asleep beside bytes

  ghost predicate ReaderAsleep(s: Pipe) { exists i :: 0 <= i < |s.procs| && s.procs[i].RSleep? }

  /** A reader sleeps only while the pipe is empty and can still be written. */
  ghost predicate ReadersOk(s: Pipe) {
    ReaderAsleep(s) ==> Count(s) == 0 && s.writeopen
  }

  /** p is killed and has more bytes left than there is room, but there is some. */
  ghost predicate GivesUpHalfWay(s: Pipe, p: nat) {
    p < |s.procs| && s.procs[p].Writing? && |s.killed| == |s.procs| && s.killed[p]
        && 0 < PIPESIZE - Count(s) < |s.procs[p].rest|
  }

  ghost predicate Loses(s: Pipe, t: Step) { t.Write? && ReaderAsleep(s) && GivesUpHalfWay(s, t.p) }

  lemma WriteReaders(s: Pipe, p: nat)
    requires Inv(s) && ReadersOk(s) && Enabled(s, Write(p))
    ensures ReadersOk(DoWrite(s, p)) <==> !(ReaderAsleep(s) && GivesUpHalfWay(s, p))
  {
    var s' := DoWrite(s, p);
    var rest := s.procs[p].rest;
    var k := Min(|rest|, PIPESIZE - Count(s));
    if k < |rest| && (!s.readopen || s.killed[p]) {
      forall i | 0 <= i < |s.procs| ensures s'.procs[i].RSleep? <==> s.procs[i].RSleep? {}
      if ReaderAsleep(s) {
        var i :| 0 <= i < |s.procs| && s.procs[i].RSleep?;
        assert IsReader(s.procs[i]) && s'.procs[i].RSleep?;
      }
    } else {
      forall i | 0 <= i < |s.procs| ensures !s'.procs[i].RSleep? {}
    }
  }

  /** The only step that leaves a reader asleep beside bytes is a killed writer's giving up half-way: it
      returns -1 without the wakeup that a complete or a waiting write makes. */
  lemma LostWakeupExactly(s: Pipe, t: Step)
    requires Inv(s) && ReadersOk(s) && Enabled(s, t)
    ensures ReadersOk(Do(s, t)) <==> !Loses(s, t)
  {
    match t {
      case Write(p) => WriteReaders(s, p);
      case Read(p) =>
        var s' := DoRead(s, p);
        if Count(s) != 0 || !s.writeopen {
          forall i | 0 <= i < |s.procs| ensures s'.procs[i].RSleep? ==> s.procs[i].RSleep? {}
        }
      case _ =>
        forall i | 0 <= i < |s.procs| ensures Do(s, t).procs[i].RSleep? ==> s.procs[i].RSleep? {}
    }
  }

  /** At no point of the run does a reader sleep beside bytes, or with the other end closed. */
  ghost predicate AlwaysWoken(s: Pipe, run: seq<Step>)
    requires Runs(s, run)
    decreases |run|
  {
    ReadersOk(s) && (run != [] ==> AlwaysWoken(Do(s, run[0]), run[1..]))
  }

  ghost predicate NeverLoses(s: Pipe, run: seq<Step>)
    requires Runs(s, run)
    decreases |run|
  {
    run != [] ==> !Loses(s, run[0]) && NeverLoses(Do(s, run[0]), run[1..])
  }

  lemma {:induction false} WokenFrom(s: Pipe, run: seq<Step>)
    requires Inv(s) && ReadersOk(s) && Runs(s, run)
    ensures AlwaysWoken(s, run) <==> NeverLoses(s, run)
    decreases |run|
  {
    hide Inv, Do, Enabled, Loses, ReadersOk;
    if run != [] {
      LostWakeupExactly(s, run[0]);
      StepKeepsInv(s, run[0]);
      var s' := Do(s, run[0]);
      if ReadersOk(s') { WokenFrom(s', run[1..]); }
    }
  }

  /** Over whole runs of a pipe: no reader ever sleeps beside bytes exactly when no killed writer gives up half-way
      while a reader sleeps. */
  lemma WokenExactly(s: Pipe, run: seq<Step>)
    requires Init(s) && Runs(s, run)
    ensures AlwaysWoken(s, run) <==> NeverLoses(s, run)
  {
    WokenFrom(s, run);
  }

  /** It happens: a reader waits, a killed process writes 513 bytes, and the reader sleeps on beside 512. */
  lemma LostWakeupHappens(s: Pipe, addr: seq<nat>)
    requires Init(s) && |s.procs| >= 2 && !s.killed[0] && |addr| == PIPESIZE + 1
    ensures (var run := [CallRead(0, 1), Read(0), CallWrite(1, addr), Kill(1), Write(1)];
      Runs(s, run) && Exec(s, run).procs == s.procs[0 := RSleep(1)] && Count(Exec(s, run)) == PIPESIZE)
  {
    var run := [CallRead(0, 1), Read(0), CallWrite(1, addr), Kill(1), Write(1)];
    var s1 := Do(s, run[0]);
    var s2 := Do(s1, run[1]);
    var s3 := Do(s2, run[2]);
    var s4 := Do(s3, run[3]);
    var s5 := Do(s4, run[4]);
    hide Do, Enabled;
    Before(s4, run[4], run[4..], []);
    Before(s3, run[3], run[3..], run[4..]);
    Before(s2, run[2], run[2..], run[3..]);
    Before(s1, run[1], run[1..], run[2..]);
    Before(s, run[0], run, run[1..]);
  }

  lemma Before(s: Pipe, t: Step, run: seq<Step>, rest: seq<Step>)
    requires run == [t] + rest && Enabled(s, t) && Runs(Do(s, t), rest)
    ensures Runs(s, run) && Exec(s, run) == Exec(Do(s, t), rest)
  {
    hide Do, Enabled;
    assert run[1..] == rest;
  }
  // ---------------------------------------------------------------- reading to the end

  /** A read takes the smaller of what it asks for and what is inside, the oldest bytes first; it sleeps exactly on
      an empty pipe that can still be written, unless killed. */
  lemma ReadTakes(s: Pipe, p: nat)
    requires InOrder(s) && p < |s.procs| && s.procs[p].Reading?
    ensures Enabled(s, Read(p))
    ensures (var s', k := Do(s, Read(p)), Min(s.procs[p].n, Count(s));
      && s'.delivered == s.stored[..|s.delivered| + k] && s'.stored == s.stored && |s'.procs| == |s.procs|
      && s'.readopen == s.readopen && s'.writeopen == s.writeopen
      && s'.procs[p] == if s.stored == s.delivered && s.writeopen && !s.killed[p] then RSleep(s.procs[p].n) else Idle)
  {
    var k := Min(s.procs[p].n, Count(s));
    assert s.delivered + s.stored[|s.delivered|..|s.delivered| + k] == s.stored[..|s.delivered| + k];
  }

  /** m reads of n bytes, one after the other. */
  ghost function ReadLoop(p: nat, n: nat, m: nat): seq<Step> {
    if m == 0 then [] else [CallRead(p, n), Read(p)] + ReadLoop(p, n, m - 1)
  }

  ghost function Asked(n: nat, m: nat): nat { if m == 0 then 0 else n + Asked(n, m - 1) }

  /** Once nobody writes any more, a reader that reads on gets every byte that is left, in order, and then none. */
  lemma {:induction false} ReadsToEnd(s: Pipe, p: nat, n: nat, m: nat)
    requires Inv(s) && p < |s.procs| && s.procs[p].Idle? && s.readopen && !s.writeopen
    ensures Runs(s, ReadLoop(p, n, m))
    ensures (var e := Exec(s, ReadLoop(p, n, m));
      e.stored == s.stored && e.delivered == s.stored[..Min(|s.stored|, |s.delivered| + Asked(n, m))])
    decreases m
  {
    if m > 0 {
      var s1 := Do(s, CallRead(p, n));
      StepKeepsInv(s, CallRead(p, n));
      ReadTakes(s1, p);
      StepKeepsInv(s1, Read(p));
      var s2 := Do(s1, Read(p));
      ReadsToEnd(s2, p, n, m - 1);
      hide Inv, Do, Enabled;
      var run := ReadLoop(p, n, m);
      Before(s1, Read(p), run[1..], ReadLoop(p, n, m - 1));
      Before(s, CallRead(p, n), run, run[1..]);
    }
  }

  /** In every run: whatever was stored before the write end was closed is delivered to whoever reads on. */
  lemma AllDelivered(s: Pipe, run: seq<Step>, p: nat, n: nat, m: nat)
    requires Init(s) && Runs(s, run) && p < |Exec(s, run).procs| && Exec(s, run).procs[p].Idle?
    requires Exec(s, run).readopen && !Exec(s, run).writeopen && Asked(n, m) >= Count(Exec(s, run))
    ensures Runs(Exec(s, run), ReadLoop(p, n, m))
    ensures (var e := Exec(Exec(s, run), ReadLoop(p, n, m)); e.delivered == e.stored == Exec(s, run).stored)
  {
    hide Do, Enabled;
    RunKeepsInv(s, run);
    ReadsToEnd(Exec(s, run), p, n, m);
  }
  // ---------------------------------------------------------------- one writer

  /** The bytes of the call in progress that are not in the pipe yet. */
  ghost function Rest(c: Proc): seq<nat> { if IsWriter(c) then c.rest else [] }

  /** What went into the pipe, and what p has still to put there. */
  ghost function Given(s: Pipe, p: nat): seq<nat>
    requires p < |s.procs|
  {
    s.stored + Rest(s.procs[p])
  }

  /** All bytes that p passed to write in the run. */
  ghost function Passed(run: seq<Step>, p: nat): seq<nat> {
    if run == [] then [] else PassedBy(run[0], p) + Passed(run[1..], p)
  }

  ghost function PassedBy(t: Step, p: nat): seq<nat> { if t.CallWrite? && t.p == p then t.addr else [] }

  /** pipewrite returns -1 with bytes left. */
  ghost predicate Quits(s: Pipe, t: Step) {
    && t.Write? && t.p < |s.procs| == |s.killed| && s.procs[t.p].Writing?
    && |s.procs[t.p].rest| > PIPESIZE - Count(s) && (!s.readopen || s.killed[t.p])
  }

  ghost predicate NeverQuits(s: Pipe, run: seq<Step>)
    requires Runs(s, run)
    decreases |run|
  {
    run != [] ==> !Quits(s, run[0]) && NeverQuits(Do(s, run[0]), run[1..])
  }

  /** Nobody but p writes, nor will. */
  ghost predicate LoneWriter(s: Pipe, p: nat) {
    p < |s.procs| && forall i :: 0 <= i < |s.procs| && IsWriter(s.procs[i]) ==> i == p
  }

  ghost predicate OneCaller(run: seq<Step>, p: nat) {
    run != [] ==> (run[0].CallWrite? ==> run[0].p == p) && OneCaller(run[1..], p)
  }

  /** What a process has left to write, after a step other than Write. */
  lemma OtherStep(s: Pipe, t: Step, p: nat)
    requires InOrder(s) && Enabled(s, t) && !t.Write? && p < |s.procs|
    ensures Do(s, t).stored == s.stored && |Do(s, t).procs| == |s.procs|
    ensures Rest(Do(s, t).procs[p]) == Rest(s.procs[p]) + PassedBy(t, p)
    ensures IsWriter(Do(s, t).procs[p]) ==> IsWriter(s.procs[p]) || (t.CallWrite? && t.p == p)
  {
  }

  lemma WriteStep(s: Pipe, p: nat)
    requires InOrder(s) && p < |s.procs| && s.procs[p].Writing?
    ensures Enabled(s, Write(p)) && |Do(s, Write(p)).procs| == |s.procs|
    ensures forall i :: 0 <= i < |s.procs| ==> (IsWriter(Do(s, Write(p)).procs[i]) ==> IsWriter(s.procs[i]))
    ensures (var g', g := Given(Do(s, Write(p)), p), Given(s, p);
      if Quits(s, Write(p)) then |g'| < |g| else g' == g)
  {
    Writes(s, p);
    hide Do, Enabled, InOrder;
    var rest, room := s.procs[p].rest, PIPESIZE - Count(s);
    if |rest| > room {
      assert (s.stored + rest[..room]) + rest[room..] == s.stored + rest;
    } else {
      assert (s.stored + rest) + [] == s.stored + rest;
    }
  }

  lemma WriterStep(s: Pipe, t: Step, p: nat)
    requires InOrder(s) && Enabled(s, t) && LoneWriter(s, p) && (t.CallWrite? ==> t.p == p)
    ensures (var s' := Do(s, t);
      && LoneWriter(s', p)
      && (var g', g := Given(s', p), Given(s, p) + PassedBy(t, p); if Quits(s, t) then |g'| < |g| else g' == g))
  {
    if t.Write? {
      assert t.p == p && PassedBy(t, p) == [] && Given(s, p) + [] == Given(s, p);
      WriteStep(s, p);
      hide Do, Enabled, InOrder, Quits, Rest;
    } else {
      forall i: nat | i < |s.procs|
        ensures |Do(s, t).procs| == |s.procs| && (IsWriter(Do(s, t).procs[i]) ==> i == p)
      {
        OtherStep(s, t, i);
      }
      OtherStep(s, t, p);
      assert s.stored + (Rest(s.procs[p]) + PassedBy(t, p)) == Given(s, p) + PassedBy(t, p);
      hide Do, Enabled, InOrder, Rest;
    }
  }

  /** With one writer, what is in the pipe, taken out or waiting to go in is exactly what was passed to write, in order,
      if and only if no call gave up. */
  lemma {:induction false} WriterConserved(s: Pipe, run: seq<Step>, p: nat)
    requires Inv(s) && Runs(s, run) && LoneWriter(s, p) && OneCaller(run, p)
    ensures (var e := Exec(s, run);
      && p < |e.procs|
      && (var g', g := Given(e, p), Given(s, p) + Passed(run, p);
          |g'| <= |g| && (NeverQuits(s, run) <==> g' == g)))
    decreases |run|
  {
    hide Inv, InOrder, Enabled, Do, Quits, Given, LoneWriter;
    assert p < |s.procs| by { LoneIn(s, p); }
    if run != [] {
      var t := run[0];
      assert (Given(s, p) + PassedBy(t, p)) + Passed(run[1..], p) == Given(s, p) + Passed(run, p);
      assert InOrder(s) by { InvInOrder(s); }
      WriterStep(s, run[0], p);
      StepKeepsInv(s, run[0]);
      WriterConserved(Do(s, run[0]), run[1..], p);
    }
  }

  lemma LoneIn(s: Pipe, p: nat)
    requires LoneWriter(s, p)
    ensures p < |s.procs|
  {
  }

  lemma InvInOrder(s: Pipe)
    requires Inv(s)
    ensures InOrder(s)
  {
  }
}
