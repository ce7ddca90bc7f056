/** File-system transactions over the log: what recovery leaves of a filewrite that a crash cuts short. */
module FsLog {
  import opened FsModel
  import opened FsTrace
  import opened FsCode
  import L = LogModel

  // The disk of mkfs.c: boot block, superblock, 30 log blocks, 26 inode blocks, one bitmap block, file blocks.
  const LOGSTART: nat := 2
  const INODESTART: nat := 32
  const BMAPSTART: nat := 58
  const DATASTART: nat := 59

  /** The block number of a logged block. */
  function At(x: LogBlock): nat {
    match x
    case BitmapBlock(k) => BMAPSTART + k
    case InodeBlock(k) => INODESTART + k
    case HomeBlock(b) => b
  }

  ghost predicate Laid(d: Disk, g: L.Geometry) {
    && g == L.Geometry(LOGSTART, L.LOGSIZE, |d.blocks|) && |d.bitmap| == |d.blocks| <= BPB
    && |d.dinodes| <= (BMAPSTART - INODESTART) * IPB && d.nmeta == DATASTART <= |d.blocks|
  }

  lemma AtHome(d: Disk, g: L.Geometry, x: LogBlock)
    requires Laid(d, g) && OnDisk(d, x)
    ensures L.Home(g, At(x)) && At(x) < g.blocks
  {
  }

  lemma AtOnce(d: Disk, g: L.Geometry, x: LogBlock, y: LogBlock)
    requires Laid(d, g) && OnDisk(d, x) && OnDisk(d, y) && At(x) == At(y)
    ensures x == y
  {
  }

  /** The blocks of `disk` hold d, in whatever way `enc` lays the contents of a block out. */
  ghost predicate Encodes(enc: Held -> L.Block, d: Disk, disk: seq<L.Block>) {
    forall x :: OnDisk(d, x) ==> At(x) < |disk| && disk[At(x)] == enc(Holds(d, x))
  }

  ghost function Writes(op: L.Op, t: seq<Write>, enc: Held -> L.Block): (es: seq<L.Event>)
    ensures |es| == |t| && forall i :: 0 <= i < |es| ==> es[i].Wrote?
  {
    if t == [] then [] else
      Writes(op, t[..|t| - 1], enc) + [L.Wrote(op, At(t[|t| - 1].x), enc(t[|t| - 1].held))]
  }

  /** begin_op, the log_writes of one transaction, end_op. */
  ghost function Events(op: L.Op, t: seq<Write>, enc: Held -> L.Block): seq<L.Event> {
    [L.Began(op)] + Writes(op, t, enc) + [L.Ended(op)]
  }

  lemma Joined(p: seq<L.Event>, a: seq<L.Event>, b: seq<L.Event>)
    ensures p + (a + b) == p + a + b
  {
  }

  lemma EventsLength(op: L.Op, t: seq<Write>, enc: Held -> L.Block)
    ensures |Events(op, t, enc)| == |t| + 2
  {
  }

  lemma {:induction false} WritesReplay(enc: Held -> L.Block, d: Disk, g: L.Geometry, disk: seq<L.Block>,
          p: seq<L.Event>,
                                        op: L.Op, t: seq<Write>, x: LogBlock)
    requires Laid(d, g) && |disk| == g.blocks && Encodes(enc, d, L.Replay(disk, p)) && OnDisk(d, x)
    requires forall k :: 0 <= k < |t| ==> OnDisk(d, t[k].x)
    ensures At(x) < |disk| && L.Replay(disk, p + Writes(op, t, enc))[At(x)] == enc(Last(t, x, Holds(d, x)))
    decreases |t|
  {
    hide Laid, OnDisk, Holds, At, L.Replay, L.Home;
    AtHome(d, g, x);
    if t == [] {
      assert p + Writes(op, t, enc) == p;
    } else {
      var r, w := t[..|t| - 1], t[|t| - 1];
      WritesReplay(enc, d, g, disk, p, op, r, x);
      var e := L.Wrote(op, At(w.x), enc(w.held));
      Joined(p, Writes(op, r, enc), [e]);
      L.ReplayAppend(disk, p + Writes(op, r, enc), e);
      AtHome(d, g, w.x);
      if At(w.x) == At(x) { AtOnce(d, g, w.x, x); }
    }
  }

  lemma TracedAt(d: Disk, d': Disk, t: seq<Write>, g: L.Geometry, x: LogBlock)
    requires Traced(d, d', [], t) && Laid(d, g)
    ensures Laid(d', g) && (OnDisk(d', x) <==> OnDisk(d, x)) && Holds(d', x) == Last(t, x, Holds(d, x))
    ensures forall k :: 0 <= k < |t| ==> OnDisk(d, t[k].x)
  {
    hide Holds, Last;
    assert t[0..] == t;
  }

  /** Replaying one whole transaction takes the disk that holds d to one that holds d'. */
  lemma TxReplays(enc: Held -> L.Block, d: Disk, d': Disk, g: L.Geometry, disk: seq<L.Block>, p: seq<L.Event>,
                  op: L.Op, t: seq<Write>)
    requires Laid(d, g) && |disk| == g.blocks && Encodes(enc, d, L.Replay(disk, p)) && Traced(d, d', [], t)
    ensures Laid(d', g) && Encodes(enc, d', L.Replay(disk, p + Events(op, t, enc)))
  {
    hide Laid, Traced, Holds, OnDisk, Last, At, Writes, L.Replay;
    var p1 := p + [L.Began(op)];
    L.ReplayAppend(disk, p, L.Began(op));
    var p2 := p1 + Writes(op, t, enc);
    L.ReplayAppend(disk, p2, L.Ended(op));
    Joined(p, [L.Began(op)] + Writes(op, t, enc), [L.Ended(op)]);
    Joined(p, [L.Began(op)], Writes(op, t, enc));
    TracedAt(d, d', t, g, BitmapBlock(0));
    forall x | OnDisk(d', x)
      ensures At(x) < |disk| && L.Replay(disk, p2)[At(x)] == enc(Holds(d', x))
    {
      TracedAt(d, d', t, g, x);
      WritesReplay(enc, d, g, disk, p1, op, t, x);
    }
  }

  /** The events of the first k transactions, run one after the other under the calls `ops`. */
  ghost function AllEvents(ops: seq<L.Op>, txs: seq<seq<Write>>, enc: Held -> L.Block, k: nat): seq<L.Event>
    requires k <= |txs| == |ops|
  {
    if k == 0 then [] else AllEvents(ops, txs, enc, k - 1) + Events(ops[k - 1], txs[k - 1], enc)
  }

  /** After k whole transactions the disk holds ds[k]. */
  lemma {:induction false} ChainReplays(enc: Held -> L.Block, ds: seq<Disk>, txs: seq<seq<Write>>, ops: seq<L.Op>,
                                        g: L.Geometry, disk: seq<L.Block>, k: nat)
    requires Chain(ds, txs) && k <= |txs| == |ops| && Laid(ds[0], g) && |disk| == g.blocks && Encodes(enc, ds[0], disk)
    ensures Laid(ds[k], g) && Encodes(enc, ds[k], L.Replay(disk, AllEvents(ops, txs, enc, k)))
  {
    if k > 0 {
      ChainReplays(enc, ds, txs, ops, g, disk, k - 1);
      assert Link(ds, txs, k - 1);
      hide Encodes, Laid, Traced;
      TxReplays(enc, ds[k - 1], ds[k], g, disk, AllEvents(ops, txs, enc, k - 1), ops[k - 1], txs[k - 1]);
    }
  }

  /** Inside a transaction its call is open, and at its end it is not. */
  lemma {:induction false} OpenInside(p: seq<L.Event>, op: L.Op, t: seq<Write>, enc: Held -> L.Block, m: nat)
    requires L.Open(p) == {} && 0 < m <= |t| + 2
    ensures m <= |Events(op, t, enc)| && L.Open(p + Events(op, t, enc)[..m]) == if m == |t| + 2 then {} else {op}
    decreases m
  {
    var es := Events(op, t, enc);
    assert es[0] == L.Began(op) && es[|t| + 1] == L.Ended(op);
    assert es[..m] == es[..m - 1] + [es[m - 1]];
    assert p + es[..m] == p + es[..m - 1] + [es[m - 1]];
    L.ReplayAppend([], p + es[..m - 1], es[m - 1]);
    if m == 1 {
      assert p + es[..0] == p;
    } else {
      OpenInside(p, op, t, enc, m - 1);
      if m < |t| + 2 { assert es[m - 1] == Writes(op, t, enc)[m - 2]; }
    }
  }

  lemma {:induction false} AllClosed(ops: seq<L.Op>, txs: seq<seq<Write>>, enc: Held -> L.Block, k: nat)
    requires k <= |txs| == |ops|
    ensures L.Open(AllEvents(ops, txs, enc, k)) == {}
  {
    if k > 0 {
      AllClosed(ops, txs, enc, k - 1);
      var es := Events(ops[k - 1], txs[k - 1], enc);
      OpenInside(AllEvents(ops, txs, enc, k - 1), ops[k - 1], txs[k - 1], enc, |txs[k - 1]| + 2);
      assert es[..|es|] == es;
    }
  }

  /** A prefix of the events that leaves no call open is a whole number of transactions. */
  lemma {:induction false} WholeTransactions(es: seq<L.Event>, ops: seq<L.Op>, txs: seq<seq<Write>>,
          enc: Held -> L.Block, n: nat)
    returns (k: nat)
    requires n <= |txs| == |ops| && es <= AllEvents(ops, txs, enc, n) && L.Open(es) == {}
    ensures k <= n && es == AllEvents(ops, txs, enc, k)
  {
    hide Events, L.Open;
    if n == 0 { return 0; }
    var p, q := AllEvents(ops, txs, enc, n - 1), Events(ops[n - 1], txs[n - 1], enc);
    if |es| <= |p| {
      assert es <= p;
      k := WholeTransactions(es, ops, txs, enc, n - 1);
    } else {
      EventsLength(ops[n - 1], txs[n - 1], enc);
      var m := |es| - |p|;
      AllClosed(ops, txs, enc, n - 1);
      assert m <= |q| && es == p + q[..m];
      OpenInside(p, ops[n - 1], txs[n - 1], enc, m);
      assert q[..|q|] == q;
      k := n;
    }
  }

  // ---------------------------------------------------------------- the log has room for them

  /** The block numbers that the log_writes t go to. */
  ghost function Places(t: seq<Write>): set<nat> { set x | x in Blocks(t) :: At(x) }

  lemma {:induction false} ImageSize(s: set<LogBlock>)
    ensures |set x | x in s :: At(x)| <= |s|
  {
    if s != {} {
      var y :| y in s;
      ImageSize(s - {y});
      assert (set x | x in s :: At(x)) == (set x | x in s - {y} :: At(x)) + {At(y)};
    }
  }

  /** At every point of the run, what the calls did so far is a prefix of `all`. */
  ghost predicate Within(s0: L.State, ts: seq<L.Step>, all: seq<L.Event>)
    requires L.Runs(s0, ts)
  {
    L.Exec(s0, ts).events <= all && (ts != [] ==> Within(s0, ts[..|ts| - 1], all))
  }

  ghost predicate Distinct(ops: seq<L.Op>) { forall j, k :: 0 <= j < k < |ops| ==> ops[j] != ops[k] }

  /** The blocks that each of the first n transactions writes. */
  ghost function Writers(ops: seq<L.Op>, txs: seq<seq<Write>>, n: nat): map<L.Op, set<nat>>
    requires n <= |txs| == |ops|
  {
    if n == 0 then map[] else Writers(ops, txs, n - 1)[ops[n - 1] := Places(txs[n - 1])]
  }

  lemma {:induction false} WriterOf(ops: seq<L.Op>, txs: seq<seq<Write>>, n: nat, w: nat)
    requires n <= |txs| == |ops| && Distinct(ops) && forall t :: t in txs ==> |Blocks(t)| <= w
    ensures forall k :: 0 <= k < n ==> L.Allowed(Writers(ops, txs, n), ops[k]) == Places(txs[k])
    ensures forall op :: |L.Allowed(Writers(ops, txs, n), op)| <= w
  {
    if n > 0 {
      WriterOf(ops, txs, n - 1, w);
      ImageSize(Blocks(txs[n - 1]));
      assert txs[n - 1] in txs;
      var m, m' := Writers(ops, txs, n - 1), Writers(ops, txs, n);
      forall op ensures |L.Allowed(m', op)| <= w { assert |L.Allowed(m, op)| <= w; }
      forall k | 0 <= k < n ensures L.Allowed(m', ops[k]) == Places(txs[k]) {
        if k < n - 1 { assert ops[k] != ops[n - 1] && L.Allowed(m, ops[k]) == Places(txs[k]); }
      }
    }
  }

  lemma {:induction false} WritesAt(op: L.Op, t: seq<Write>, enc: Held -> L.Block, e: L.Event)
    requires e in Writes(op, t, enc)
    ensures e.Wrote? && e.op == op && e.b in Places(t)
    decreases |t|
  {
    var r, w := t[..|t| - 1], t[|t| - 1];
    if e in Writes(op, r, enc) {
      WritesAt(op, r, enc, e);
      assert forall v :: v in r ==> v in t;
    } else {
      assert w in t && w.x in Blocks(t);
    }
  }

  lemma {:induction false} EventWriter(ops: seq<L.Op>, txs: seq<seq<Write>>, enc: Held -> L.Block, n: nat, e: L.Event)
    returns (k: nat)
    requires n <= |txs| == |ops| && e in AllEvents(ops, txs, enc, n) && e.Wrote?
    ensures k < n && e.op == ops[k] && e.b in Places(txs[k])
  {
    if e in AllEvents(ops, txs, enc, n - 1) {
      k := EventWriter(ops, txs, enc, n - 1, e);
    } else {
      k := n - 1;
      assert e in Events(ops[k], txs[k], enc);
      WritesAt(ops[k], txs[k], enc, e);
    }
  }

  /** A run that performs only these transactions writes only their blocks. */
  lemma {:induction false} WithinIsFrugal(s0: L.State, ts: seq<L.Step>, ops: seq<L.Op>, txs: seq<seq<Write>>,
                                          enc: Held -> L.Block, w: nat)
    requires L.Runs(s0, ts) && |ops| == |txs| && Within(s0, ts, AllEvents(ops, txs, enc, |txs|)) && Distinct(ops)
    requires forall t :: t in txs ==> |Blocks(t)| <= w
    ensures L.Frugal(ts, Writers(ops, txs, |txs|), w)
    decreases |ts|
  {
    hide Blocks, Places, Writers, AllEvents, Distinct, L.Allowed, L.Do, L.Enabled;
    var m := Writers(ops, txs, |txs|);
    WriterOf(ops, txs, |txs|, w);
    if ts != [] {
      var p, t := ts[..|ts| - 1], ts[|ts| - 1];
      WithinIsFrugal(s0, p, ops, txs, enc, w);
      if t.LogWrite? {
        StepEvent(L.Exec(s0, p), t);
        var e := L.Wrote(t.op, t.b, t.data);
        var all := AllEvents(ops, txs, enc, |txs|);
        assert e in all by { LastIn(L.Exec(s0, p).events, e, all); }
        var k := EventWriter(ops, txs, enc, |txs|, e);
        assert L.Allowed(m, ops[k]) == Places(txs[k]);
      }
      assert forall i :: 0 <= i < |p| ==> ts[i] == p[i];
    }
  }

  lemma StepEvent(s: L.State, t: L.Step)
    requires t.LogWrite? && L.Enabled(s, t)
    ensures L.Do(s, t).events == s.events + [L.Wrote(t.op, t.b, t.data)]
  {
  }

  lemma LastIn(es: seq<L.Event>, e: L.Event, all: seq<L.Event>)
    requires es + [e] <= all
    ensures e in all
  {
    assert all[|es|] == (es + [e])[|es|];
  }

  /** Transactions that each log at most nine blocks, over the log: whenever the machine crashes, recovery
      yields the disk after a whole number of them. */
  lemma CrashBetweenTransactions(enc: Held -> L.Block, ds: seq<Disk>, txs: seq<seq<Write>>, ops: seq<L.Op>,
                                 s0: L.State, ts: seq<L.Step>)
    returns (k: nat)
    requires L.Init(s0) && L.Runs(s0, ts) && |ops| == |txs| && Distinct(ops)
    requires Within(s0, ts, AllEvents(ops, txs, enc, |txs|))
    requires Chain(ds, txs) && Laid(ds[0], s0.g) && Encodes(enc, ds[0], s0.disk)
    requires forall t :: t in txs ==> |Blocks(t)| <= L.MAXOPBLOCKS - 1
    ensures (var s := L.Exec(s0, ts);
      && k < |ds| && L.DiskOk(s.g, s.disk) && Encodes(enc, ds[k], L.Recovered(s.g, s.disk))
      && !s.phase.Panicked? && s.durable <= |s.events| && s.events[..s.durable] == AllEvents(ops, txs, enc, k)
      && (s.phase.Idle? && s.ops == map[] ==> s.events == AllEvents(ops, txs, enc, k)))
  {
    WithinIsFrugal(s0, ts, ops, txs, enc, L.MAXOPBLOCKS - 1);
    hide Blocks, Writers, L.Frugal;
    var s := L.Exec(s0, ts);
    L.FrugalIsThrifty(s0, ts, Writers(ops, txs, |txs|));
    L.ReservationHolds(s0, ts);
    L.CrashAtomicity(s0, ts);
    var es := s.events[..s.durable];
    k := WholeTransactions(es, ops, txs, enc, |txs|);
    ChainReplays(enc, ds, txs, ops, s0.g, s0.disk, k);
    assert s.events[..|s.events|] == s.events;
    SameContents(enc, ds[k], s.g, L.Replay(s0.disk, es), L.Recovered(s.g, s.disk));
  }

  lemma SameContents(enc: Held -> L.Block, d: Disk, g: L.Geometry, a: seq<L.Block>, b: seq<L.Block>)
    requires Laid(d, g) && Encodes(enc, d, a) && L.SameHome(g, b, a)
    ensures Encodes(enc, d, b)
  {
    forall x | OnDisk(d, x) ensures At(x) < |b| && b[At(x)] == enc(Holds(d, x)) { AtHome(d, g, x); }
  }

  /** A crash during filewrite, at any disk write: after recovery the file holds its old contents with a prefix of
      the new bytes written over it, a whole number of chunks of 1536 (or all of them), and every other file is as
      it was. */
  lemma CrashDuringFileWrite(enc: Held -> L.Block, ds: seq<Disk>, txs: seq<seq<Write>>, ops: seq<L.Op>,
                             s0: L.State, ts: seq<L.Step>,
                             vs: seq<Vol>, v: Vol, i: nat, off: nat, src: seq<byte>, done: nat)
    returns (k: nat)
    requires L.Init(s0) && L.Runs(s0, ts) && |ops| == |txs| && Distinct(ops)
    requires Within(s0, ts, AllEvents(ops, txs, enc, |txs|))
    requires Chain(ds, txs) && Laid(ds[0], s0.g) && Encodes(enc, ds[0], s0.disk)
    requires forall t :: t in txs ==> |Blocks(t)| <= 7
    requires Chunks(ds, vs, v, i, off, src, done) && done <= |src|
    requires VolOk(v) && i < |v.inodes| && (forall j :: 0 <= j < |v.inodes| ==> v.inodes[j].size <= MAXBYTES)
    requires off <= v.inodes[i].size && off + done <= MAXBYTES
    ensures k < |ds| == |vs| && vs[k].inodes == ds[k].dinodes && vs[k].blocks == ds[k].blocks
    ensures (var s := L.Exec(s0, ts); L.DiskOk(s.g, s.disk) && Encodes(enc, ds[k], L.Recovered(s.g, s.disk)))
    ensures VolOk(vs[k]) && |vs[k].inodes| == |v.inodes| && vs[k].inodes[i].size <= MAXBYTES
    ensures (var n := Least(k * 1536, done); var c := Content(v, i);
      Content(vs[k], i) == c[..off] + src[..n] + if off + n < |c| then c[off + n..] else [])
    ensures forall j :: 0 <= j < |v.inodes| && j != i ==>
              vs[k].inodes[j].size <= MAXBYTES && Content(vs[k], j) == Content(v, j)
  {
    hide Encodes, Laid, Chain, Content, Owns, Chunk, Blocks, Within, AllEvents, Distinct;
    hide L.Init, L.Runs, L.Exec, L.Recovered, L.DiskOk;
    k := CrashBetweenTransactions(enc, ds, txs, ops, s0, ts);
    ChunkContents(ds[k], vs[k], v, i, off, src, Least(k * 1536, done));
  }

  /** The volume with the first n bytes written, file by file. */
  lemma ChunkContents(d: Disk, w: Vol, v: Vol, i: nat, off: nat, src: seq<byte>, n: nat)
    requires Chunk(d, w, v, i, off, src, n) && i < |v.inodes|
    requires VolOk(v) && (forall j :: 0 <= j < |v.inodes| ==> v.inodes[j].size <= MAXBYTES)
    requires off <= v.inodes[i].size && off + n <= MAXBYTES
    ensures n <= |src| && w.inodes == d.dinodes && w.blocks == d.blocks
    ensures VolOk(w) && |w.inodes| == |v.inodes| && w.inodes[i].size <= MAXBYTES
    ensures (var c := Content(v, i);
      Content(w, i) == c[..off] + src[..n] + if off + n < |c| then c[off + n..] else [])
    ensures forall j :: 0 <= j < |v.inodes| && j != i ==>
      w.inodes[j].size <= MAXBYTES && Content(w, j) == Content(v, j)
  {
    hide Content, Patched, Owns;
    PatchedParts(v, w, i, off, src[..n]);
    WrittenSplices(v, w, i, off, src[..n]);
    forall j | 0 <= j < |v.inodes| && j != i
      ensures w.inodes[j].size <= MAXBYTES && Content(w, j) == Content(v, j)
    {
      WrittenKeepsOthers(v, w, i, off, src[..n], j);
    }
  }

  lemma PatchedParts(v: Vol, w: Vol, i: nat, off: nat, data: seq<byte>)
    requires Patched(v, w, i, off, data)
    ensures VolOk(v) && VolOk(w) && i < |v.inodes| == |w.inodes|
  {
  }
}
