/** The write-ahead log of log.c as a machine whose atomic steps are the critical
    sections under log.lock and the single-block disk writes of commit() and
    recover_from_log().  A crash may fall between any two steps. */
module LogModel {

  const LOGSIZE: nat := 30
  const MAXOPBLOCKS: nat := 10
  /** 32-bit words in a block: BSIZE / 4. */
  const WORDS: nat := 128

  datatype Block = Block(w: seq<int>)
  type Op = nat

  // ---------------------------------------------------------------- header block

  /** struct logheader laid over a block: word 0 is n, words 1..n the home block numbers. */
  ghost predicate HeaderOk(b: Block) {
    |b.w| == WORDS && 0 <= b.w[0] <= LOGSIZE && forall i :: 1 <= i <= b.w[0] ==> b.w[i] >= 0
  }

  function ReadHeader(b: Block): (lh: seq<nat>)
    requires HeaderOk(b)
    ensures |lh| == b.w[0] && forall i :: 0 <= i < |lh| ==> lh[i] == b.w[i + 1]
  {
    seq(b.w[0], i requires 0 <= i < b.w[0] => b.w[i + 1])
  }

  /** write_head overwrites the first n+1 words and leaves the stale tail in place. */
  function PutHeader(b: Block, lh: seq<nat>): (r: Block)
    requires |b.w| == WORDS && |lh| <= LOGSIZE
    ensures HeaderOk(r) && ReadHeader(r) == lh
  {
    var r := Block(seq(WORDS, k requires 0 <= k < WORDS =>
      if k == 0 then |lh| else if k <= |lh| then lh[k - 1] else b.w[k]));
    assert ReadHeader(r) == lh;
    r
  }

  // ---------------------------------------------------------------- events and replay

  /** What system calls did, in the order of the log.lock critical sections. */
  datatype Event = Began(op: Op) | Wrote(op: Op, b: nat, data: Block) | Ended(op: Op)

  /** The disk after performing the logged writes of `es` directly. */
  ghost function Replay(d: seq<Block>, es: seq<Event>): (r: seq<Block>)
    ensures |r| == |d|
  {
    if es == [] then d else
      var p := Replay(d, es[..|es| - 1]);
      match es[|es| - 1]
      case Wrote(_, b, data) => if b < |p| then p[b := data] else p
      case _ => p
  }

  /** System calls begun and not ended in `es`. */
  ghost function Open(es: seq<Event>): set<Op> {
    if es == [] then {} else OpenAfter(Open(es[..|es| - 1]), es[|es| - 1])
  }

  ghost function OpenAfter(p: set<Op>, e: Event): set<Op> {
    match e
    case Began(op) => p + {op}
    case Ended(op) => p - {op}
    case _ => p
  }

  // ---------------------------------------------------------------- the machine

  /** Idle: normal operation.  WriteLog..ClearHead: inside commit().
      Boot, Recover, RecoverClear: inside recover_from_log().  Panicked: log_write gave up. */
  datatype Phase = Idle | WriteLog(i: nat) | WriteHead | Install(i: nat) | ClearHead
                 | Boot | Recover(i: nat) | RecoverClear | Panicked

  /** log.start, log.size and the number of blocks of the disk. */
  datatype Geometry = Geometry(start: nat, size: nat, blocks: nat)

  datatype State = State(
    g: Geometry,
    disk: seq<Block>,
    cache: map<nat, Block>,         // home blocks held by the buffer cache
    lh: seq<nat>,                   // log.lh.block[0..log.lh.n)
    ops: map<Op, nat>,              // outstanding system calls, with the blocks each has added
    checked: set<Op>,               // past the unlocked space test of log_write, not yet in its critical section
    phase: Phase,
    origin: seq<Block>,             // history: the disk at the first boot
    events: seq<Event>,             // history: what the surviving system calls did
    durable: nat)                   // history: how many of them the last commit covered

  datatype Step = BeginOp(op: Op) | LogCheck(op: Op) | LogWrite(op: Op, b: nat, data: Block) | EndOp(op: Op)
                | Fill(b: nat) | Evict(b: nat) | Advance | Crash

  predicate Home(g: Geometry, b: nat) { b < g.blocks && !(g.start <= b < g.start + g.size) }

  /** Buffers carrying B_DIRTY: logged and not yet written home. */
  function Dirty(s: State): set<nat> {
    match s.phase
    case Install(i) => if i <= |s.lh| then set b | b in s.lh[i..] else {}
    case Idle | WriteLog(_) | WriteHead | Panicked => set b | b in s.lh
    case _ => {}
  }

  predicate Recovering(s: State) { s.phase.Boot? || s.phase.Recover? || s.phase.RecoverClear? }

  predicate Full(s: State) { |s.lh| >= LOGSIZE || |s.lh| + 1 >= s.g.size }

  predicate HeadBlock(s: State) { s.g.start < |s.disk| && |s.disk[s.g.start].w| == WORDS }

  ghost predicate Enabled(s: State, t: Step) {
    match t
    case BeginOp(op) => s.phase.Idle? && op !in s.ops && |s.lh| + (|s.ops| + 1) * MAXOPBLOCKS <= LOGSIZE
    case LogCheck(op) => s.phase.Idle? && op in s.ops && op !in s.checked
    case LogWrite(op, b, _) => s.phase.Idle? && op in s.ops && op in s.checked && Home(s.g, b)
    case EndOp(op) => s.phase.Idle? && op in s.ops && op !in s.checked
    case Fill(b) => Home(s.g, b) && b < |s.disk| && b !in s.cache && !Recovering(s)
    case Evict(b) => b in s.cache && b !in Dirty(s)
    case Crash => true
    case Advance =>
      match s.phase
      case WriteLog(i) => i < |s.lh| && s.lh[i] in s.cache && s.g.start + 1 + i < |s.disk|
      case WriteHead => |s.lh| <= LOGSIZE && HeadBlock(s)
      case Install(i) => i < |s.lh| && s.lh[i] < |s.disk| && s.g.start + 1 + i < |s.disk|
      case Recover(i) => i < |s.lh| && s.lh[i] < |s.disk| && s.g.start + 1 + i < |s.disk|
      case ClearHead => HeadBlock(s)
      case RecoverClear => HeadBlock(s)
      case Boot => s.g.start < |s.disk| && HeaderOk(s.disk[s.g.start])
      case _ => false
  }

  ghost function Do(s: State, t: Step): State
    requires Enabled(s, t)
  {
    match t
    case BeginOp(op) => s.(ops := s.ops[op := 0], events := s.events + [Began(op)])
    case LogCheck(op) => if Full(s) then s.(phase := Panicked) else s.(checked := s.checked + {op})
    case LogWrite(op, b, data) =>
      var s1 := s.(cache := s.cache[b := data], checked := s.checked - {op}, events := s.events + [Wrote(op, b, data)]);
      if b in s.lh then s1 else s1.(lh := s.lh + [b], ops := s.ops[op := s.ops[op] + 1])
    case EndOp(op) =>
      var s1 := s.(ops := s.ops - {op}, events := s.events + [Ended(op)]);
      if s1.ops != map[] then s1
      else if s.lh == [] then s1.(durable := |s1.events|)
      else s1.(phase := WriteLog(0))
    case Fill(b) => s.(cache := s.cache[b := s.disk[b]])
    case Evict(b) => s.(cache := s.cache - {b})
    case Crash => s.(cache := map[], lh := [], ops := map[], checked := {}, phase := Boot,
                     events := if s.durable <= |s.events| then s.events[..s.durable] else s.events)
    case Advance => Forward(s)
  }

  /** One disk write of commit() or of recover_from_log(), or the header read at boot. */
  ghost function Forward(s: State): State
    requires Enabled(s, Advance)
  {
    match s.phase
    case WriteLog(i) =>
      s.(disk := s.disk[s.g.start + 1 + i := s.cache[s.lh[i]]],
         phase := if i + 1 == |s.lh| then WriteHead else WriteLog(i + 1))
    case WriteHead =>
      s.(disk := s.disk[s.g.start := PutHeader(s.disk[s.g.start], s.lh)], phase := Install(0), durable := |s.events|)
    case Install(i) =>
      var data := s.disk[s.g.start + 1 + i];
      s.(disk := s.disk[s.lh[i] := data], cache := s.cache[s.lh[i] := data],
         phase := if i + 1 == |s.lh| then ClearHead else Install(i + 1))
    case Recover(i) =>
      var data := s.disk[s.g.start + 1 + i];
      s.(disk := s.disk[s.lh[i] := data], cache := s.cache[s.lh[i] := data],
         phase := if i + 1 == |s.lh| then RecoverClear else Recover(i + 1))
    case ClearHead => s.(disk := s.disk[s.g.start := PutHeader(s.disk[s.g.start], [])], lh := [], phase := Idle)
    case RecoverClear => s.(disk := s.disk[s.g.start := PutHeader(s.disk[s.g.start], [])], lh := [], phase := Idle)
    case Boot =>
      var lh := ReadHeader(s.disk[s.g.start]);
      s.(lh := lh, phase := if lh == [] then RecoverClear else Recover(0))
    case _ => s
  }

  ghost predicate Runs(s: State, ts: seq<Step>)
    decreases |ts|, 0
  {
    ts == [] || (Runs(s, ts[..|ts| - 1]) && Enabled(Exec(s, ts[..|ts| - 1]), ts[|ts| - 1]))
  }

  ghost function Exec(s: State, ts: seq<Step>): State
    requires Runs(s, ts)
    decreases |ts|, 1
  {
    if ts == [] then s else Do(Exec(s, ts[..|ts| - 1]), ts[|ts| - 1])
  }

  /** First boot from a disk whose log is empty, as mkfs leaves it (all log blocks zero). */
  ghost predicate Init(s: State) {
    && DiskOk(s.g, s.disk) && ReadHeader(s.disk[s.g.start]) == []
    && s.cache == map[] && s.lh == [] && s.ops == map[] && s.checked == {} && s.phase == Boot
    && s.origin == s.disk && s.events == [] && s.durable == 0
  }

  // ---------------------------------------------------------------- invariant

  /** What the running system calls see. */
  ghost function Visible(s: State): seq<Block> { Replay(s.origin, s.events) }
  /** What the last commit covered. */
  ghost function Committed(s: State): seq<Block>
    requires s.durable <= |s.events|
  { Replay(s.origin, s.events[..s.durable]) }

  ghost predicate Distinct(lh: seq<nat>) { forall i, j :: 0 <= i < j < |lh| ==> lh[i] != lh[j] }

  ghost predicate LogFits(g: Geometry, lh: seq<nat>) {
    && Distinct(lh) && |lh| <= LOGSIZE && |lh| + 1 <= g.size
    && forall i :: 0 <= i < |lh| ==> Home(g, lh[i])
  }

  ghost predicate DiskOk(g: Geometry, d: seq<Block>) {
    2 <= g.size && g.start + g.size <= g.blocks == |d| && HeaderOk(d[g.start])
  }

  ghost predicate EventsOk(g: Geometry, es: seq<Event>, durable: nat)
    requires durable <= |es|
  {
    && Open(es[..durable]) == {}
    && forall i :: 0 <= i < |es| && es[i].Wrote? ==> Home(g, es[i].b)
  }

  ghost predicate Shape(s: State) {
    && DiskOk(s.g, s.disk) && |s.origin| == |s.disk|
    && s.durable <= |s.events| && EventsOk(s.g, s.events, s.durable)
    && Open(s.events) == s.ops.Keys && s.checked <= s.ops.Keys
    && LogFits(s.g, s.lh)
    && (s.phase.Idle? || s.phase.Panicked? || s.ops == map[])
  }

  /** Before the commit header: home blocks hold the committed contents `com`, the log is empty
      on disk, and every block where the visible contents `vis` are newer is pinned in the cache. */
  ghost predicate Gathering(g: Geometry, d: seq<Block>, cache: map<nat, Block>, lh: seq<nat>, vis: seq<Block>,
          com: seq<Block>)
    requires DiskOk(g, d) && |vis| == |com| == |d|
  {
    && ReadHeader(d[g.start]) == []
    && (forall b: nat :: Home(g, b) ==> d[b] == com[b])
    && (forall b: nat :: Home(g, b) && b !in lh ==> vis[b] == com[b])
    && (forall i :: 0 <= i < |lh| ==> lh[i] < |vis| && lh[i] in cache && cache[lh[i]] == vis[lh[i]])
    && (forall b :: b in cache ==> Home(g, b) && (b !in lh ==> cache[b] == d[b]))
  }

  /** The first k log slots hold the visible contents of the blocks they stand for. */
  ghost predicate Slots(g: Geometry, d: seq<Block>, lh: seq<nat>, k: nat, vis: seq<Block>)
    requires DiskOk(g, d) && LogFits(g, lh) && k <= |lh| && |vis| == |d|
  {
    forall j :: 0 <= j < k ==> d[g.start + 1 + j] == vis[lh[j]]
  }

  /** After the commit header: the slots named by `hdr` hold the committed contents of those blocks,
      all other home blocks are up to date, and so are the first k logged ones. */
  ghost predicate Redoing(g: Geometry, d: seq<Block>, cache: map<nat, Block>, hdr: seq<nat>, k: nat, vis: seq<Block>)
    requires DiskOk(g, d) && |vis| == |d|
  {
    && LogFits(g, hdr) && k <= |hdr|
    && ReadHeader(d[g.start]) == hdr
    && Slots(g, d, hdr, |hdr|, vis)
    && (forall b: nat :: Home(g, b) && b !in hdr ==> d[b] == vis[b])
    && (forall j :: 0 <= j < k ==> d[hdr[j]] == vis[hdr[j]])
    && (forall b :: b in cache ==> Home(g, b) && cache[b] == vis[b])
  }

  ghost predicate BeforeCommit(s: State) {
    Shape(s) && Gathering(s.g, s.disk, s.cache, s.lh, Visible(s), Committed(s))
  }

  ghost predicate AfterCommit(s: State, hdr: seq<nat>, k: nat) {
    Shape(s) && s.durable == |s.events| && Redoing(s.g, s.disk, s.cache, hdr, k, Visible(s))
  }

  ghost predicate Pinned(cache: map<nat, Block>, bs: seq<nat>) { forall i :: 0 <= i < |bs| ==> bs[i] in cache }

  ghost predicate Inv(s: State) {
    match s.phase
    case Idle => BeforeCommit(s) && (s.ops == map[] ==> s.lh == [] && s.durable == |s.events|)
    case Panicked => BeforeCommit(s)
    case WriteLog(i) => BeforeCommit(s) && i < |s.lh| && Slots(s.g, s.disk, s.lh, i, Visible(s))
    case WriteHead => BeforeCommit(s) && s.lh != [] && Slots(s.g, s.disk, s.lh, |s.lh|, Visible(s))
    case Install(i) => i < |s.lh| && AfterCommit(s, s.lh, i) && Pinned(s.cache, s.lh[i..])
    case Recover(i) => i < |s.lh| && AfterCommit(s, s.lh, i)
    case ClearHead => AfterCommit(s, s.lh, |s.lh|)
    case RecoverClear => AfterCommit(s, s.lh, |s.lh|)
    case Boot => s.lh == [] && s.cache == map[] && Shape(s) && AfterCommit(s, ReadHeader(s.disk[s.g.start]), 0)
  }

  // ---------------------------------------------------------------- replay lemmas

  lemma ReplayAppend(d: seq<Block>, es: seq<Event>, e: Event)
    ensures Replay(d, es + [e]) == if e.Wrote? && e.b < |d| then Replay(d, es)[e.b := e.data] else Replay(d, es)
    ensures Open(es + [e]) == OpenAfter(Open(es), e)
  {
    assert (es + [e])[..|es|] == es;
  }

  // ---------------------------------------------------------------- the invariant under single writes

  lemma WriteSlot(g: Geometry, d: seq<Block>, cache: map<nat, Block>, lh: seq<nat>, vis: seq<Block>, com: seq<Block>,
          i: nat)
    requires DiskOk(g, d) && |vis| == |com| == |d| && LogFits(g, lh) && i < |lh|
    requires Gathering(g, d, cache, lh, vis, com) && Slots(g, d, lh, i, vis)
    ensures var d' := d[g.start + 1 + i := cache[lh[i]]];
      DiskOk(g, d') && Gathering(g, d', cache, lh, vis, com) && Slots(g, d', lh, i + 1, vis)
  {
  }

  /** Writing the header turns the gathered transaction into a redo log. */
  lemma WriteHeader(g: Geometry, d: seq<Block>, cache: map<nat, Block>, lh: seq<nat>, vis: seq<Block>, com: seq<Block>)
    requires DiskOk(g, d) && |vis| == |com| == |d| && LogFits(g, lh)
    requires Gathering(g, d, cache, lh, vis, com) && Slots(g, d, lh, |lh|, vis)
    ensures var d' := d[g.start := PutHeader(d[g.start], lh)];
      DiskOk(g, d') && Redoing(g, d', cache, lh, 0, vis) && Pinned(cache, lh)
  {
  }

  lemma InstallOne(g: Geometry, d: seq<Block>, cache: map<nat, Block>, hdr: seq<nat>, k: nat, vis: seq<Block>)
    requires DiskOk(g, d) && |vis| == |d| && k < |hdr| && Redoing(g, d, cache, hdr, k, vis)
    ensures var data := d[g.start + 1 + k]; var d' := d[hdr[k] := data];
      DiskOk(g, d') && Redoing(g, d', cache[hdr[k] := data], hdr, k + 1, vis)
    ensures Pinned(cache, hdr[k..]) ==> Pinned(cache[hdr[k] := d[g.start + 1 + k]], hdr[k + 1..])
  {
    assert hdr[k..][1..] == hdr[k + 1..];
    var data := d[g.start + 1 + k];
    var d' := d[hdr[k] := data];
    assert data == vis[hdr[k]];
    assert Home(g, hdr[k]);
  }

  lemma ClearHeader(g: Geometry, d: seq<Block>, cache: map<nat, Block>, hdr: seq<nat>, vis: seq<Block>)
    requires DiskOk(g, d) && |vis| == |d| && Redoing(g, d, cache, hdr, |hdr|, vis)
    ensures var d' := d[g.start := PutHeader(d[g.start], [])];
      DiskOk(g, d') && Gathering(g, d', cache, [], vis, vis)
  {
  }

  lemma LoseMemory(g: Geometry, d: seq<Block>, cache: map<nat, Block>, lh: seq<nat>, vis: seq<Block>, com: seq<Block>)
    requires DiskOk(g, d) && |vis| == |com| == |d| && Gathering(g, d, cache, lh, vis, com)
    ensures Redoing(g, d, map[], [], 0, com)
  {
  }

  /** log_write: a block enters the log list once, and its newest contents stay pinned. */
  lemma AbsorbWrite(g: Geometry, d: seq<Block>, cache: map<nat, Block>, lh: seq<nat>, lh': seq<nat>, vis: seq<Block>,
          com: seq<Block>, b: nat, data: Block)
    requires DiskOk(g, d) && |vis| == |com| == |d| && Gathering(g, d, cache, lh, vis, com)
    requires Home(g, b) && lh' == if b in lh then lh else lh + [b]
    ensures Gathering(g, d, cache[b := data], lh', vis[b := data], com)
  {
  }

  lemma EmptyFits(g: Geometry)
    requires 2 <= g.size
    ensures LogFits(g, [])
  {
  }

  lemma FillGathering(g: Geometry, d: seq<Block>, cache: map<nat, Block>, lh: seq<nat>, vis: seq<Block>,
          com: seq<Block>, b: nat)
    requires DiskOk(g, d) && |vis| == |com| == |d| && Gathering(g, d, cache, lh, vis, com) && Home(g, b) && b !in cache
    ensures Gathering(g, d, cache[b := d[b]], lh, vis, com)
  {
  }

  lemma EvictGathering(g: Geometry, d: seq<Block>, cache: map<nat, Block>, lh: seq<nat>, vis: seq<Block>,
          com: seq<Block>, b: nat)
    requires DiskOk(g, d) && |vis| == |com| == |d| && Gathering(g, d, cache, lh, vis, com) && b !in lh
    ensures Gathering(g, d, cache - {b}, lh, vis, com)
  {
  }

  lemma FillRedoing(g: Geometry, d: seq<Block>, cache: map<nat, Block>, hdr: seq<nat>, k: nat, vis: seq<Block>, b: nat)
    requires DiskOk(g, d) && |vis| == |d| && Redoing(g, d, cache, hdr, k, vis) && Pinned(cache, hdr[k..])
    requires Home(g, b) && b !in cache
    ensures Redoing(g, d, cache[b := d[b]], hdr, k, vis) && Pinned(cache[b := d[b]], hdr[k..])
  {
  }

  lemma EvictRedoing(g: Geometry, d: seq<Block>, cache: map<nat, Block>, hdr: seq<nat>, k: nat, vis: seq<Block>, b: nat)
    requires DiskOk(g, d) && |vis| == |d| && Redoing(g, d, cache, hdr, k, vis)
    ensures Redoing(g, d, cache - {b}, hdr, k, vis)
    ensures b !in hdr[k..] && Pinned(cache, hdr[k..]) ==> Pinned(cache - {b}, hdr[k..])
  {
  }

  // ---------------------------------------------------------------- every step keeps the invariant

  lemma BeginKeepsInv(s: State, op: Op)
    requires Inv(s) && Enabled(s, BeginOp(op))
    ensures Inv(Do(s, BeginOp(op)))
  {
    hide Gathering, Redoing, Slots, Open, Replay;
    ReplayAppend(s.origin, s.events, Began(op));
    assert (s.events + [Began(op)])[..s.durable] == s.events[..s.durable];
  }

  lemma NothingGathered(g: Geometry, d: seq<Block>, cache: map<nat, Block>, vis: seq<Block>, com: seq<Block>)
    requires DiskOk(g, d) && |vis| == |com| == |d| && Gathering(g, d, cache, [], vis, com)
    ensures Gathering(g, d, cache, [], vis, vis)
  {
  }

  lemma EndKeepsInv(s: State, op: Op)
    requires Inv(s) && Enabled(s, EndOp(op))
    ensures Inv(Do(s, EndOp(op)))
  {
    hide Gathering, Open, Replay, HeaderOk;
    if s.lh == [] { NothingGathered(s.g, s.disk, s.cache, Visible(s), Committed(s)); }
    var s' := Do(s, EndOp(op));
    var es := s.events + [Ended(op)];
    ReplayAppend(s.origin, s.events, Ended(op));
    assert es[..|es|] == es && es[..s.durable] == s.events[..s.durable];
    assert s'.ops.Keys == s.ops.Keys - {op};
  }

  lemma LogWriteKeepsInv(s: State, op: Op, b: nat, data: Block)
    requires Inv(s) && Enabled(s, LogWrite(op, b, data))
    requires LogFits(s.g, Do(s, LogWrite(op, b, data)).lh)
    ensures Inv(Do(s, LogWrite(op, b, data)))
  {
    hide Gathering, Redoing, Slots, Open, Replay, Pinned;
    var s' := Do(s, LogWrite(op, b, data));
    ReplayAppend(s.origin, s.events, Wrote(op, b, data));
    assert s'.events[..s.durable] == s.events[..s.durable];
    assert s'.ops.Keys == s.ops.Keys;
    AbsorbWrite(s.g, s.disk, s.cache, s.lh, s'.lh, Visible(s), Committed(s), b, data);
    assert EventsOk(s'.g, s'.events, s'.durable);
  }

  lemma FillKeepsInv(s: State, b: nat)
    requires Inv(s) && Enabled(s, Fill(b))
    ensures Inv(Do(s, Fill(b)))
  {
    hide Gathering, Redoing, Slots, EventsOk, Open, Replay, Pinned;
    if s.phase.Install? {
      FillRedoing(s.g, s.disk, s.cache, s.lh, s.phase.i, Visible(s), b);
    } else if s.phase.ClearHead? {
      FillRedoing(s.g, s.disk, s.cache, s.lh, |s.lh|, Visible(s), b);
    } else {
      FillGathering(s.g, s.disk, s.cache, s.lh, Visible(s), Committed(s), b);
    }
  }

  lemma EvictKeepsInv(s: State, b: nat)
    requires Inv(s) && Enabled(s, Evict(b))
    ensures Inv(Do(s, Evict(b)))
  {
    hide Gathering, Redoing, Slots, EventsOk, Open, Replay, Pinned;
    if s.phase.Install? {
      EvictRedoing(s.g, s.disk, s.cache, s.lh, s.phase.i, Visible(s), b);
    } else if s.phase.ClearHead? || s.phase.RecoverClear? {
      EvictRedoing(s.g, s.disk, s.cache, s.lh, |s.lh|, Visible(s), b);
    } else if s.phase.Recover? {
      EvictRedoing(s.g, s.disk, s.cache, s.lh, s.phase.i, Visible(s), b);
    } else {
      EvictGathering(s.g, s.disk, s.cache, s.lh, Visible(s), Committed(s), b);
    }
  }

  lemma CrashKeepsInv(s: State)
    requires Inv(s)
    ensures Inv(Do(s, Crash))
  {
    hide Gathering, Slots, Open, Replay, Pinned;
    var s' := Do(s, Crash);
    assert s'.events[..s'.durable] == s'.events && s.events[..|s.events|] == s.events;
    if s.phase.Idle? || s.phase.WriteLog? || s.phase.WriteHead? || s.phase.Panicked? {
      LoseMemory(s.g, s.disk, s.cache, s.lh, Visible(s), Committed(s));
    }
  }

  lemma WriteLogKeepsInv(s: State)
    requires Inv(s) && Enabled(s, Advance) && s.phase.WriteLog?
    ensures Inv(Forward(s))
  {
    hide Gathering, Redoing, Slots, EventsOk, Open, Replay;
    WriteSlot(s.g, s.disk, s.cache, s.lh, Visible(s), Committed(s), s.phase.i);
  }

  lemma WriteHeadKeepsInv(s: State)
    requires Inv(s) && Enabled(s, Advance) && s.phase.WriteHead?
    ensures Inv(Forward(s))
  {
    assert s.events[..|s.events|] == s.events && s.lh[0..] == s.lh;
    WriteHeader(s.g, s.disk, s.cache, s.lh, Visible(s), Committed(s));
    hide Gathering, Redoing, Slots, LogFits, EventsOk, DiskOk, Open, Replay, Pinned;
  }

  lemma InstallKeepsInv(s: State)
    requires Inv(s) && Enabled(s, Advance) && s.phase.Install?
    ensures Inv(Forward(s))
  {
    hide Gathering, Redoing, Slots, EventsOk, Open, Replay;
    InstallOne(s.g, s.disk, s.cache, s.lh, s.phase.i, Visible(s));
  }

  lemma ClearHeadKeepsInv(s: State)
    requires Inv(s) && Enabled(s, Advance) && s.phase.ClearHead?
    ensures Inv(Forward(s))
  {
    ClearHeader(s.g, s.disk, s.cache, s.lh, Visible(s));
    EmptyFits(s.g);
    assert s.events[..|s.events|] == s.events;
    hide Gathering, Redoing, Slots, LogFits, EventsOk, DiskOk, Open, Replay, Pinned;
  }

  lemma BootKeepsInv(s: State)
    requires Inv(s) && Enabled(s, Advance) && s.phase.Boot?
    ensures Inv(Forward(s))
  {
    assert LogFits(s.g, ReadHeader(s.disk[s.g.start]));
    hide Gathering, Redoing, Slots, LogFits, EventsOk, DiskOk, Open, Replay, Pinned;
  }

  lemma RecoverKeepsInv(s: State)
    requires Inv(s) && Enabled(s, Advance) && s.phase.Recover?
    ensures Inv(Forward(s))
  {
    hide Gathering, Redoing, Slots, EventsOk, Open, Replay;
    InstallOne(s.g, s.disk, s.cache, s.lh, s.phase.i, Visible(s));
  }

  lemma RecoverClearKeepsInv(s: State)
    requires Inv(s) && Enabled(s, Advance) && s.phase.RecoverClear?
    ensures Inv(Forward(s))
  {
    ClearHeader(s.g, s.disk, s.cache, s.lh, Visible(s));
    EmptyFits(s.g);
    assert s.events[..|s.events|] == s.events;
    hide Gathering, Redoing, Slots, LogFits, EventsOk, DiskOk, Open, Replay, Pinned;
  }

  lemma StepKeepsInv(s: State, t: Step)
    requires Inv(s) && Enabled(s, t)
    requires t.LogWrite? ==> LogFits(s.g, Do(s, t).lh)
    ensures Inv(Do(s, t))
  {
    match t {
      case BeginOp(op) => BeginKeepsInv(s, op);
      case LogCheck(op) => hide Gathering, Redoing, Slots, LogFits, EventsOk, Open, Replay, Pinned;
      case LogWrite(op, b, data) => LogWriteKeepsInv(s, op, b, data);
      case EndOp(op) => EndKeepsInv(s, op);
      case Fill(b) => FillKeepsInv(s, b);
      case Evict(b) => EvictKeepsInv(s, b);
      case Crash => CrashKeepsInv(s);
      case Advance =>
        match s.phase {
          case WriteLog(_) => WriteLogKeepsInv(s);
          case WriteHead => WriteHeadKeepsInv(s);
          case Install(_) => InstallKeepsInv(s);
          case ClearHead => ClearHeadKeepsInv(s);
          case Boot => BootKeepsInv(s);
          case Recover(_) => RecoverKeepsInv(s);
          case RecoverClear => RecoverClearKeepsInv(s);
        }
    }
  }

  /** commit() and recover_from_log() never get stuck: the next write is always possible. */
  lemma NeverStuck(s: State)
    requires Inv(s) && !s.phase.Idle? && !s.phase.Panicked?
    ensures Enabled(s, Advance) && Inv(Forward(s))
  {
    assert Enabled(s, Advance);
    hide Inv;
    StepKeepsInv(s, Advance);
  }

  // ---------------------------------------------------------------- log space

  ghost function Added(ops: map<Op, nat>): nat {
    if ops == map[] then 0 else var op :| op in ops; ops[op] + Added(ops - {op})
  }

  lemma AddedSplit(ops: map<Op, nat>, op: Op)
    requires op in ops
    ensures Added(ops) == ops[op] + Added(ops - {op})
    decreases |ops|
  {
    var x :| x in ops && Added(ops) == ops[x] + Added(ops - {x});
    if x != op {
      AddedSplit(ops - {x}, op);
      AddedSplit(ops - {op}, x);
      assert ops - {x} - {op} == ops - {op} - {x};
    }
  }

  lemma AddedBound(ops: map<Op, nat>, w: nat)
    requires OpsWithin(ops, w)
    ensures Added(ops) <= w * |ops|
    decreases |ops|
  {
    if ops != map[] {
      var x :| x in ops && Added(ops) == ops[x] + Added(ops - {x});
      AddedBound(ops - {x}, w);
      assert |ops - {x}| == |ops| - 1;
      assert w * |ops| == w + w * (|ops| - 1);
    }
  }

  ghost predicate OpsWithin(ops: map<Op, nat>, w: nat) { forall op :: op in ops ==> ops[op] <= w }

  /** In no state of the run has an outstanding system call added more than w new blocks. */
  ghost predicate Thrifty(s: State, ts: seq<Step>, w: nat)
    requires Runs(s, ts)
  {
    OpsWithin(Exec(s, ts).ops, w) && (ts == [] || Thrifty(s, ts[..|ts| - 1], w))
  }

  /** begin_op's reservation: the blocks logged so far plus what each outstanding call may still add. */
  ghost predicate Reserved(s: State) {
    && |s.lh| <= 28
    && (s.phase.Idle? ==> |s.lh| + (MAXOPBLOCKS - 1) * |s.ops| - Added(s.ops) <= 28)
    && (Recovering(s) || s.phase.Install? || s.phase.ClearHead? ==>
          DiskOk(s.g, s.disk) && |ReadHeader(s.disk[s.g.start])| <= 28)
    && !s.phase.Panicked?
  }

  lemma BeginKeepsReserved(s: State, op: Op)
    requires Inv(s) && Reserved(s) && Enabled(s, BeginOp(op))
    ensures Reserved(Do(s, BeginOp(op)))
  {
    hide Gathering, EventsOk, Open, Replay, HeaderOk;
    var ops' := s.ops[op := 0];
    AddedSplit(ops', op);
    assert ops' - {op} == s.ops;
  }

  lemma LogWriteKeepsReserved(s: State, op: Op, b: nat, data: Block)
    requires Inv(s) && Reserved(s) && Enabled(s, LogWrite(op, b, data)) && s.g.size >= LOGSIZE
    requires OpsWithin(Do(s, LogWrite(op, b, data)).ops, MAXOPBLOCKS - 1)
    ensures Reserved(Do(s, LogWrite(op, b, data))) && LogFits(s.g, Do(s, LogWrite(op, b, data)).lh)
  {
    hide Gathering, EventsOk, Open, Replay, HeaderOk, Added, OpsWithin;
    AddedOne(s.ops, op);
    AddedBound(Do(s, LogWrite(op, b, data)).ops, MAXOPBLOCKS - 1);
  }

  lemma AddedOne(ops: map<Op, nat>, op: Op)
    requires op in ops
    ensures (var ops' := ops[op := ops[op] + 1]; Added(ops') == Added(ops) + 1 && |ops'| == |ops|)
  {
    hide Added;
    var ops' := ops[op := ops[op] + 1];
    AddedSplit(ops, op);
    AddedSplit(ops', op);
    assert ops' - {op} == ops - {op} && ops'.Keys == ops.Keys;
    assert |ops'| == |ops'.Keys| == |ops.Keys| == |ops|;
  }

  lemma EndKeepsReserved(s: State, op: Op)
    requires Reserved(s) && Enabled(s, EndOp(op)) && OpsWithin(s.ops, MAXOPBLOCKS - 1)
    ensures Reserved(Do(s, EndOp(op)))
  {
    AddedSplit(s.ops, op);
    assert |s.ops - {op}| == |s.ops| - 1;
  }

  lemma AdvanceKeepsReserved(s: State)
    requires Inv(s) && Reserved(s) && Enabled(s, Advance)
    ensures Reserved(Do(s, Advance))
  {
    hide Gathering, Slots, EventsOk, Open, Replay, Pinned, HeaderOk;
    StepKeepsInv(s, Advance);
    if s.phase.ClearHead? || s.phase.RecoverClear? { assert Added(map[]) == 0; }
  }

  lemma CrashKeepsReserved(s: State)
    requires Inv(s) && Reserved(s)
    ensures Reserved(Do(s, Crash))
  {
    hide Redoing, Slots, EventsOk, Open, Replay, Pinned, HeaderOk;
  }

  lemma RestKeepsReserved(s: State, t: Step)
    requires Reserved(s) && Enabled(s, t) && s.g.size >= LOGSIZE && (t.LogCheck? || t.Fill? || t.Evict?)
    ensures Reserved(Do(s, t))
  {
  }

  lemma HistoryKept(s: State, t: Step)
    requires Enabled(s, t)
    ensures Do(s, t).g == s.g && Do(s, t).origin == s.origin
  {
  }

  lemma StepIsSafe(s: State, t: Step)
    requires Inv(s) && Reserved(s) && Enabled(s, t) && s.g.size >= LOGSIZE
    requires OpsWithin(s.ops, MAXOPBLOCKS - 1) && OpsWithin(Do(s, t).ops, MAXOPBLOCKS - 1)
    ensures Inv(Do(s, t)) && Reserved(Do(s, t)) && Do(s, t).g == s.g && Do(s, t).origin == s.origin
  {
    hide Inv, Enabled, Do, Forward, Reserved, LogFits, OpsWithin;
    HistoryKept(s, t);
    match t {
      case BeginOp(op) => BeginKeepsReserved(s, op);
      case LogWrite(op, b, data) => LogWriteKeepsReserved(s, op, b, data);
      case EndOp(op) => EndKeepsReserved(s, op);
      case Advance => AdvanceKeepsReserved(s);
      case Crash => CrashKeepsReserved(s);
      case _ => RestKeepsReserved(s, t);
    }
    StepKeepsInv(s, t);
  }

  /** In every run whose system calls each add at most MAXOPBLOCKS-1 new blocks, the log never
      holds more than 28, so no call finds it full. */
  lemma {:induction false} ReservationHolds(s0: State, ts: seq<Step>)
    requires Init(s0) && s0.g.size >= LOGSIZE
    requires Runs(s0, ts) && Thrifty(s0, ts, MAXOPBLOCKS - 1)
    ensures var s := Exec(s0, ts);
      Inv(s) && Reserved(s) && |s.lh| <= 28 && !s.phase.Panicked? && s.g == s0.g && s.origin == s0.disk
    decreases |ts|
  {
    if ts == [] {
      EmptyFits(s0.g);
    } else {
      hide Inv, Do, Enabled, OpsWithin;
      var p := ts[..|ts| - 1];
      ReservationHolds(s0, p);
      StepIsSafe(Exec(s0, p), ts[|ts| - 1]);
    }
  }

  // ---------------------------------------------------------------- crash atomicity

  /** The disk that recover_from_log() makes of `d`: install_trans over the first k slots. */
  ghost function Installed(g: Geometry, d: seq<Block>, hdr: seq<nat>, k: nat): (r: seq<Block>)
    requires k <= |hdr|
    ensures |r| == |d|
  {
    if k == 0 then d else
      var p := Installed(g, d, hdr, k - 1);
      if g.start + k < |p| && hdr[k - 1] < |p| then p[hdr[k - 1] := p[g.start + k]] else p
  }

  ghost function Recovered(g: Geometry, d: seq<Block>): seq<Block>
    requires DiskOk(g, d)
  {
    var hdr := ReadHeader(d[g.start]);
    var r := Installed(g, d, hdr, |hdr|);
    r[g.start := PutHeader(d[g.start], [])]
  }

  ghost predicate SameHome(g: Geometry, d: seq<Block>, e: seq<Block>) {
    |d| == |e| == g.blocks && forall b: nat :: Home(g, b) ==> d[b] == e[b]
  }

  lemma {:induction false} InstalledRedoes(g: Geometry, d: seq<Block>, hdr: seq<nat>, k: nat, vis: seq<Block>)
    requires DiskOk(g, d) && |vis| == |d| && Redoing(g, d, map[], hdr, 0, vis) && k <= |hdr|
    ensures var r := Installed(g, d, hdr, k);
      DiskOk(g, r) && r[g.start] == d[g.start] && Redoing(g, r, map[], hdr, k, vis)
  {
    hide Redoing;
    if k > 0 {
      InstalledRedoes(g, d, hdr, k - 1, vis);
      RedoOne(g, Installed(g, d, hdr, k - 1), hdr, k - 1, vis);
    }
  }

  lemma RedoOne(g: Geometry, d: seq<Block>, hdr: seq<nat>, k: nat, vis: seq<Block>)
    requires DiskOk(g, d) && |vis| == |d| && Redoing(g, d, map[], hdr, k, vis) && k < |hdr|
    ensures g.start + k + 1 < |d| && hdr[k] < |d| && hdr[k] != g.start
    ensures var r := d[hdr[k] := d[g.start + k + 1]]; DiskOk(g, r) && Redoing(g, r, map[], hdr, k + 1, vis)
  {
    assert Home(g, hdr[k]);
    InstallOne(g, d, map[], hdr, k, vis);
  }

  lemma RecoveredHome(g: Geometry, d: seq<Block>, vis: seq<Block>)
    requires DiskOk(g, d) && |vis| == |d| && Redoing(g, d, map[], ReadHeader(d[g.start]), 0, vis)
    ensures SameHome(g, Recovered(g, d), vis)
  {
    var hdr := ReadHeader(d[g.start]);
    InstalledRedoes(g, d, hdr, |hdr|, vis);
    ClearHeader(g, Installed(g, d, hdr, |hdr|), map[], hdr, vis);
  }

  /** A crash in any reachable state, inside commit or recovery included, followed by recovery yields
      exactly the effect of a prefix of the system calls that contains no unfinished call; nothing is
      lost when the log is idle. */
  lemma CrashAtomicity(s0: State, ts: seq<Step>)
    requires Init(s0) && s0.g.size >= LOGSIZE
    requires Runs(s0, ts) && Thrifty(s0, ts, MAXOPBLOCKS - 1)
    ensures var s := Exec(s0, ts);
      && DiskOk(s.g, s.disk) && s.durable <= |s.events|
      && Open(s.events[..s.durable]) == {}
      && SameHome(s.g, Recovered(s.g, s.disk), Replay(s0.disk, s.events[..s.durable]))
      && (s.phase.Idle? && s.ops == map[] ==> s.durable == |s.events|)
  {
    ReservationHolds(s0, ts);
    var s := Exec(s0, ts);
    CrashKeepsInv(s);
    var c := Do(s, Crash);
    assert c.events == s.events[..s.durable];
    RecoveredHome(s.g, s.disk, Replay(s0.disk, c.events));
  }

  /** What a commit made durable stays durable, whatever happens next. */
  lemma DurableGrows(s: State, t: Step)
    requires Inv(s) && Enabled(s, t)
    ensures s.durable <= Do(s, t).durable <= |Do(s, t).events|
    ensures Do(s, t).events[..s.durable] == s.events[..s.durable]
  {
    assert s.durable <= |s.events|;
    hide Inv;
  }

  /** After a crash nothing but recovery can happen, it never gets stuck, and if it is not cut short
      it ends idle with the recovered disk. */
  lemma {:induction false} RecoveryCompletes(s: State) returns (ts: seq<Step>)
    requires Inv(s) && (s.phase.Recover? || s.phase.RecoverClear?)
    ensures Runs(s, ts) && (forall i :: 0 <= i < |ts| ==> ts[i] == Advance)
    ensures var e := Exec(s, ts); e.phase.Idle? && e.lh == [] && SameHome(s.g, e.disk, Visible(s))
    decreases if s.phase.Recover? then |s.lh| - s.phase.i else 0
  {
    StepKeepsInv(s, Advance);
    hide Slots, EventsOk, Open, Pinned;
    var s' := Forward(s);
    if s.phase.Recover? {
      var rest := RecoveryCompletes(s');
      ts := [Advance] + rest;
      ExecFrom(s, Advance, rest);
    } else {
      ts := [Advance];
      assert ts[..0] == [];
      assert Exec(s, ts) == s';
    }
  }

  lemma {:induction false} ExecFrom(s: State, t: Step, ts: seq<Step>)
    requires Enabled(s, t) && Runs(Do(s, t), ts)
    ensures Runs(s, [t] + ts) && Exec(s, [t] + ts) == Exec(Do(s, t), ts)
    decreases |ts|
  {
    hide Enabled, Do;
    var all := [t] + ts;
    if ts == [] {
      assert all[..0] == [];
    } else {
      ExecFrom(s, t, ts[..|ts| - 1]);
      assert all[..|all| - 1] == [t] + ts[..|ts| - 1];
    }
  }

  // ---------------------------------------------------------------- the bound is tight

  lemma Single(s: State, t: Step, w: nat)
    requires Enabled(s, t) && OpsWithin(s.ops, w) && OpsWithin(Do(s, t).ops, w)
    ensures Runs(s, [t]) && Exec(s, [t]) == Do(s, t) && Thrifty(s, [t], w)
  {
    hide Enabled, Do, OpsWithin;
    assert [t][..0] == [];
  }

  lemma Append(s: State, a: seq<Step>, t: Step, w: nat)
    requires Runs(s, a) && Thrifty(s, a, w) && Enabled(Exec(s, a), t) && OpsWithin(Do(Exec(s, a), t).ops, w)
    ensures Runs(s, a + [t]) && Exec(s, a + [t]) == Do(Exec(s, a), t) && Thrifty(s, a + [t], w)
  {
    hide Enabled, Do, OpsWithin;
    assert (a + [t])[..|a|] == a;
  }

  ghost function From(first: nat, k: nat): seq<nat> { seq(k, i => first + i) }

  /** Idle, with the n blocks from `first` on in the log and the outstanding calls `ops`. */
  ghost predicate Holding(s: State, g: Geometry, first: nat, n: nat, ops: map<Op, nat>) {
    && s.phase.Idle? && s.checked == {} && s.g == g && g.size == LOGSIZE
    && s.lh == From(first, n) && s.ops == ops && OpsWithin(ops, MAXOPBLOCKS)
    && forall b :: first <= b < first + LOGSIZE ==> Home(g, b)
  }

  /** An outstanding call can add k more blocks as long as the log is not full at its tests. */
  lemma {:induction false} AddBlocks(s0: State, ts: seq<Step>, g: Geometry, first: nat, n: nat, ops: map<Op, nat>,
          op: Op, k: nat, data: Block)
    returns (ts': seq<Step>)
    requires Runs(s0, ts) && Thrifty(s0, ts, MAXOPBLOCKS) && Holding(Exec(s0, ts), g, first, n, ops)
    requires op in ops && ops[op] + k <= MAXOPBLOCKS && n + k < LOGSIZE
    ensures Runs(s0, ts') && Thrifty(s0, ts', MAXOPBLOCKS)
    ensures Holding(Exec(s0, ts'), g, first, n + k, ops[op := ops[op] + k])
  {
    hide Runs, Exec, Thrifty, Forward;
    if k == 0 {
      ts' := ts;
      assert ops[op := ops[op]] == ops;
    } else {
      ts' := AddBlocks(s0, ts, g, first, n, ops, op, k - 1, data);
      assert From(first, n + k) == From(first, n + k - 1) + [first + n + k - 1];
      Append(s0, ts', LogCheck(op), MAXOPBLOCKS);
      ts' := ts' + [LogCheck(op)];
      Append(s0, ts', LogWrite(op, first + n + k - 1, data), MAXOPBLOCKS);
      ts' := ts' + [LogWrite(op, first + n + k - 1, data)];
    }
  }

  /** Boot, then three system calls begin. */
  lemma BeginThree(s0: State, first: nat) returns (ts: seq<Step>)
    requires Init(s0) && s0.g.size == LOGSIZE
    requires forall b :: first <= b < first + LOGSIZE ==> Home(s0.g, b)
    ensures Runs(s0, ts) && Thrifty(s0, ts, MAXOPBLOCKS)
    ensures Holding(Exec(s0, ts), s0.g, first, 0, map[0 := 0, 1 := 0, 2 := 0])
  {
    Single(s0, Advance, MAXOPBLOCKS);
    ts := [Advance];
    hide Runs, Exec, Thrifty;
    Append(s0, ts, Advance, MAXOPBLOCKS);
    ts := ts + [Advance];
    Append(s0, ts, BeginOp(0), MAXOPBLOCKS);
    ts := ts + [BeginOp(0)];
    Append(s0, ts, BeginOp(1), MAXOPBLOCKS);
    ts := ts + [BeginOp(1)];
    Append(s0, ts, BeginOp(2), MAXOPBLOCKS);
    ts := ts + [BeginOp(2)];
  }

  /** Two calls pass the unlocked space test of log_write at 28 and both append. */
  lemma PassTogether(s0: State, ts0: seq<Step>, g: Geometry, first: nat, data: Block) returns (ts: seq<Step>)
    requires Runs(s0, ts0) && Thrifty(s0, ts0, MAXOPBLOCKS)
    requires Holding(Exec(s0, ts0), g, first, 28, map[0 := 10, 1 := 9, 2 := 9])
    ensures Runs(s0, ts) && Thrifty(s0, ts, MAXOPBLOCKS) && |Exec(s0, ts).lh| == LOGSIZE
  {
    hide Runs, Exec, Thrifty, Forward;
    ts := ts0;
    Append(s0, ts, LogCheck(1), MAXOPBLOCKS);
    ts := ts + [LogCheck(1)];
    Append(s0, ts, LogCheck(2), MAXOPBLOCKS);
    ts := ts + [LogCheck(2)];
    Append(s0, ts, LogWrite(1, first + 28, data), MAXOPBLOCKS);
    ts := ts + [LogWrite(1, first + 28, data)];
    Append(s0, ts, LogWrite(2, first + 29, data), MAXOPBLOCKS);
    ts := ts + [LogWrite(2, first + 29, data)];
  }

  /** If calls may add MAXOPBLOCKS blocks each, three of them can fill the log to 30 entries, one
      more than the log that mkfs lays out has slots. */
  lemma OverrunPossible(s0: State, first: nat, data: Block) returns (ts: seq<Step>)
    requires Init(s0) && s0.g.size == LOGSIZE
    requires forall b :: first <= b < first + LOGSIZE ==> Home(s0.g, b)
    ensures Runs(s0, ts) && Thrifty(s0, ts, MAXOPBLOCKS) && |Exec(s0, ts).lh| == LOGSIZE
  {
    hide Runs, Exec, Thrifty, Holding, Init;
    ts := BeginThree(s0, first);
    var m0, m1, m2, m3 := map[0 := 0, 1 := 0, 2 := 0], map[0 := 10, 1 := 0, 2 := 0], map[0 := 10, 1 := 9, 2 := 0],
        map[0 := 10, 1 := 9, 2 := 9];
    assert m1 == m0[0 := 10] && m2 == m1[1 := 9] && m3 == m2[2 := 9];
    ts := AddBlocks(s0, ts, s0.g, first, 0, m0, 0, 10, data);
    ts := AddBlocks(s0, ts, s0.g, first, 10, m1, 1, 9, data);
    ts := AddBlocks(s0, ts, s0.g, first, 19, m2, 2, 9, data);
    ts := PassTogether(s0, ts, s0.g, first, data);
  }

  lemma {:induction false} ThriftyMono(s: State, ts: seq<Step>, w: nat, w': nat)
    requires Runs(s, ts) && Thrifty(s, ts, w) && w <= w'
    ensures Thrifty(s, ts, w')
    decreases |ts|
  {
    hide Enabled, Do;
    if ts != [] { ThriftyMono(s, ts[..|ts| - 1], w, w'); }
  }

  // ---------------------------------------------------------------- calls known by the blocks they write

  ghost function Allowed(m: map<Op, set<nat>>, op: Op): set<nat> { if op in m then m[op] else {} }

  /** Every call writes only blocks of its own set in `m`, and no set has more than w blocks. */
  ghost predicate Frugal(ts: seq<Step>, m: map<Op, set<nat>>, w: nat) {
    && (forall op :: |Allowed(m, op)| <= w)
    && forall i :: 0 <= i < |ts| && ts[i].LogWrite? ==> ts[i].b in Allowed(m, ts[i].op)
  }

  ghost predicate CountedIn(lh: seq<nat>, ops: map<Op, nat>, m: map<Op, set<nat>>) {
    forall op :: op in ops ==> ops[op] <= |(set b | b in lh) * Allowed(m, op)|
  }

  /** What each outstanding call added is in the log and in its set. */
  ghost predicate Counted(s: State, m: map<Op, set<nat>>) { CountedIn(s.lh, s.ops, m) }

  lemma CountMore(lh: seq<nat>, ops: map<Op, nat>, m: map<Op, set<nat>>, op: Op, b: nat)
    requires CountedIn(lh, ops, m) && op in ops && b in Allowed(m, op) && b !in lh
    ensures CountedIn(lh + [b], ops[op := ops[op] + 1], m)
  {
    var was, now := set c | c in lh, set c | c in lh + [b];
    assert now == was + {b};
    forall o | o in ops ensures |now * Allowed(m, o)| >= |was * Allowed(m, o)| + if o == op then 1 else 0 {
      if b in Allowed(m, o) {
        assert now * Allowed(m, o) == was * Allowed(m, o) + {b};
      } else {
        assert now * Allowed(m, o) == was * Allowed(m, o);
      }
    }
  }

  lemma BusyIsAlone(s: State)
    requires Inv(s) && Enabled(s, Advance)
    ensures s.ops == map[] == Do(s, Advance).ops
  {
    hide Gathering, Redoing, Slots, EventsOk, Open, Replay, Pinned, HeaderOk;
  }

  lemma StepKeepsCounted(s: State, t: Step, m: map<Op, set<nat>>)
    requires Inv(s) && Enabled(s, t) && Counted(s, m) && (t.LogWrite? ==> t.b in Allowed(m, t.op))
    ensures Counted(Do(s, t), m)
  {
    hide Inv, Allowed, Forward;
    if t.LogWrite? && t.b !in s.lh { CountMore(s.lh, s.ops, m, t.op, t.b); }
    if t.Advance? { BusyIsAlone(s); }
  }

  lemma {:induction false} FrugalIsThrifty(s0: State, ts: seq<Step>, m: map<Op, set<nat>>)
    requires Init(s0) && s0.g.size >= LOGSIZE && Runs(s0, ts) && Frugal(ts, m, MAXOPBLOCKS - 1)
    ensures Thrifty(s0, ts, MAXOPBLOCKS - 1) && Counted(Exec(s0, ts), m)
    decreases |ts|
  {
    if ts != [] {
      var p, t := ts[..|ts| - 1], ts[|ts| - 1];
      assert forall i :: 0 <= i < |p| ==> p[i] == ts[i];
      FrugalIsThrifty(s0, p, m);
      ReservationHolds(s0, p);
      hide Inv, Do, Enabled, Allowed;
      StepKeepsCounted(Exec(s0, p), t, m);
      CountedWithin(Exec(s0, ts), m);
    }
  }

  lemma CountedWithin(s: State, m: map<Op, set<nat>>)
    requires Counted(s, m) && forall op :: |Allowed(m, op)| <= MAXOPBLOCKS - 1
    ensures OpsWithin(s.ops, MAXOPBLOCKS - 1)
  {
    forall op | op in s.ops ensures s.ops[op] <= MAXOPBLOCKS - 1 {
      var a, b := (set b | b in s.lh) * Allowed(m, op), Allowed(m, op);
      assert b == a + (b - a);
    }
  }

  /** The log of an mkfs disk never outgrows its slots when each call adds at most w blocks. */
  ghost predicate BoundSuffices(w: nat) {
    forall s0: State, ts: seq<Step> :: Init(s0) && s0.g.size == LOGSIZE && Runs(s0, ts) && Thrifty(s0, ts, w)
      ==> |Exec(s0, ts).lh| < LOGSIZE
  }

  lemma ExactBound(w: nat)
    ensures BoundSuffices(w) <==> w < MAXOPBLOCKS
  {
    if w < MAXOPBLOCKS {
      forall s0: State, ts: seq<Step> | Init(s0) && s0.g.size == LOGSIZE && Runs(s0, ts) && Thrifty(s0, ts, w)
        ensures |Exec(s0, ts).lh| < LOGSIZE
      {
        ThriftyMono(s0, ts, w, MAXOPBLOCKS - 1);
        ReservationHolds(s0, ts);
      }
    } else {
      var zero := Block(seq(WORDS, _ => 0));
      var d := seq(62, _ => zero);
      var s0 := State(Geometry(2, LOGSIZE, 62), d, map[], [], map[], {}, Boot, d, [], 0);
      var ts := OverrunPossible(s0, 32, zero);
      ThriftyMono(s0, ts, MAXOPBLOCKS, w);
    }
  }
}
