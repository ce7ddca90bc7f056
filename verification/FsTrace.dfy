/** What the file layer passes to log_write: which block, and what the block then holds. */
module FsTrace {
  import opened FsModel

  const BPB: nat := 4096
  const IPB: nat := 8

  /** A block of the free map, a block of inodes, or a block of files. */
  datatype LogBlock = BitmapBlock(k: nat) | InodeBlock(k: nat) | HomeBlock(b: nat)

  /** The parts of the disk that transactions change; files live in the blocks from nmeta on. */
  datatype Disk = Disk(bitmap: seq<bool>, dinodes: seq<Inode>, blocks: seq<Block>, nmeta: nat)

  datatype Held = HeldBits(bits: seq<bool>) | HeldInodes(ips: seq<Inode>) | HeldData(data: Block)

  /** One call of log_write. */
  datatype Write = Write(x: LogBlock, held: Held)

  function Least(a: nat, b: nat): nat { if a < b then a else b }

  /** Entries k*n up to (k+1)*n of a table, as far as it goes. */
  function Part<T>(s: seq<T>, k: nat, n: nat): seq<T> { s[Least(k * n, |s|)..Least(k * n + n, |s|)] }

  function Holds(d: Disk, x: LogBlock): Held {
    match x
    case BitmapBlock(k) => HeldBits(Part(d.bitmap, k, BPB))
    case InodeBlock(k) => HeldInodes(Part(d.dinodes, k, IPB))
    case HomeBlock(b) => HeldData(if b < |d.blocks| then d.blocks[b] else Zeros())
  }

  predicate OnDisk(d: Disk, x: LogBlock) {
    match x
    case BitmapBlock(k) => k * BPB < |d.bitmap|
    case InodeBlock(k) => k * IPB < |d.dinodes|
    case HomeBlock(b) => d.nmeta <= b < |d.blocks|
  }

  ghost function Blocks(t: seq<Write>): set<LogBlock> { set w | w in t :: w.x }

  /** What block x holds after the writes t, if it held c before. */
  ghost function Last(t: seq<Write>, x: LogBlock, c: Held): Held {
    if t == [] then c else if t[|t| - 1].x == x then t[|t| - 1].held else Last(t[..|t| - 1], x, c)
  }

  /** The writes that t' adds to t are exactly what turns d into d', block for block. */
  ghost predicate Traced(d: Disk, d': Disk, t: seq<Write>, t': seq<Write>) {
    && |d'.bitmap| == |d.bitmap| && |d'.dinodes| == |d.dinodes| && |d'.blocks| == |d.blocks| && d'.nmeta == d.nmeta
    && t <= t'
    && (forall w :: w in t'[|t|..] ==> OnDisk(d, w.x))
    && forall x :: Holds(d', x) == Last(t'[|t|..], x, Holds(d, x))
  }

  /** Allocation and writing besides clear no bit of the free map. */
  ghost predicate Effect(d: Disk, d': Disk, t: seq<Write>, t': seq<Write>) {
    Traced(d, d', t, t') && forall k :: 0 <= k < |d.bitmap| && d.bitmap[k] ==> d'.bitmap[k]
  }

  lemma {:induction false} LastTwice(a: seq<Write>, b: seq<Write>, x: LogBlock, c: Held)
    ensures Last(a + b, x, c) == Last(b, x, Last(a, x, c))
    decreases |b|
  {
    if b == [] {
      assert a + b == a;
    } else {
      assert (a + b)[..|a + b| - 1] == a + b[..|b| - 1];
      LastTwice(a, b[..|b| - 1], x, c);
    }
  }

  lemma TracedTwice(d0: Disk, d1: Disk, d2: Disk, t0: seq<Write>, t1: seq<Write>, t2: seq<Write>)
    requires Traced(d0, d1, t0, t1) && Traced(d1, d2, t1, t2)
    ensures Traced(d0, d2, t0, t2)
  {
    hide Holds;
    var a, b := t1[|t0|..], t2[|t1|..];
    assert t2[|t0|..] == a + b;
    forall x ensures Holds(d2, x) == Last(a + b, x, Holds(d0, x)) { LastTwice(a, b, x, Holds(d0, x)); }
    assert forall w :: w in b ==> OnDisk(d1, w.x);
  }

  lemma TracedNone(d: Disk, t: seq<Write>)
    ensures Traced(d, d, t, t)
  {
    assert t[|t|..] == [];
  }

  lemma EffectSelf(d: Disk, t: seq<Write>)
    ensures Effect(d, d, t, t)
  {
    TracedNone(d, t);
  }

  lemma EffectTwice(d0: Disk, d1: Disk, d2: Disk, t0: seq<Write>, t1: seq<Write>, t2: seq<Write>)
    requires Effect(d0, d1, t0, t1) && Effect(d1, d2, t1, t2)
    ensures Effect(d0, d2, t0, t2)
  {
    TracedTwice(d0, d1, d2, t0, t1, t2);
  }

  /** One log_write of the one block that changed. */
  lemma OneWrite(d: Disk, d': Disk, x: LogBlock, t: seq<Write>)
    requires |d'.bitmap| == |d.bitmap| && |d'.dinodes| == |d.dinodes| && |d'.blocks| == |d.blocks|
      && d'.nmeta == d.nmeta
    requires OnDisk(d, x) && forall y :: y != x ==> Holds(d', y) == Holds(d, y)
    ensures Traced(d, d', t, t + [Write(x, Holds(d', x))])
  {
    hide Holds, OnDisk;
    var w := Write(x, Holds(d', x));
    assert (t + [w])[|t|..] == [w];
    forall y ensures Holds(d', y) == Last([w], y, Holds(d, y)) { assert [w][..0] == []; }
  }

  lemma Outside(i: nat, n: nat, k: nat)
    requires n > 0
    ensures k < i / n ==> k * n + n <= i
    ensures k > i / n ==> i < k * n
    ensures i / n * n <= i
  {
    assert i == i / n * n + i % n;
    if k < i / n { assert (k + 1) * n <= i / n * n; }
    if k > i / n { assert (i / n + 1) * n <= k * n; }
  }

  lemma PartUpdate<T>(s: seq<T>, i: nat, v: T, k: nat, n: nat)
    requires i < |s| && n > 0 && k != i / n
    ensures Part(s[i := v], k, n) == Part(s, k, n)
  {
    Outside(i, n, k);
  }

  lemma EffectBlock(d: Disk, b: nat, x: Block, t: seq<Write>)
    requires d.nmeta <= b < |d.blocks|
    ensures Effect(d, d.(blocks := d.blocks[b := x]), t, t + [Write(HomeBlock(b), HeldData(x))])
  {
    OneWrite(d, d.(blocks := d.blocks[b := x]), HomeBlock(b), t);
  }

  lemma EffectInode(d: Disk, i: nat, ip: Inode, t: seq<Write>)
    requires i < |d.dinodes|
    ensures (var d' := d.(dinodes := d.dinodes[i := ip]);
      Effect(d, d', t, t + [Write(InodeBlock(i / IPB), Holds(d', InodeBlock(i / IPB)))]))
  {
    var d' := d.(dinodes := d.dinodes[i := ip]);
    forall k: nat | k != i / IPB ensures Part(d'.dinodes, k, IPB) == Part(d.dinodes, k, IPB) {
      PartUpdate(d.dinodes, i, ip, k, IPB);
    }
    Outside(i, IPB, 0);
    OneWrite(d, d', InodeBlock(i / IPB), t);
  }

  lemma TracedBit(d: Disk, b: nat, v: bool, t: seq<Write>)
    requires b < |d.bitmap|
    ensures (var d' := d.(bitmap := d.bitmap[b := v]);
      Traced(d, d', t, t + [Write(BitmapBlock(b / BPB), Holds(d', BitmapBlock(b / BPB)))]))
  {
    var d' := d.(bitmap := d.bitmap[b := v]);
    forall k: nat | k != b / BPB ensures Part(d'.bitmap, k, BPB) == Part(d.bitmap, k, BPB) {
      PartUpdate(d.bitmap, b, v, k, BPB);
    }
    Outside(b, BPB, 0);
    OneWrite(d, d', BitmapBlock(b / BPB), t);
  }

  /** balloc: the bit, then the zeroed block. */
  lemma AllocTraced(d: Disk, b: nat, t: seq<Write>)
    requires d.nmeta <= b < |d.bitmap| == |d.blocks| && !d.bitmap[b]
    ensures (var d' := d.(bitmap := d.bitmap[b := true], blocks := d.blocks[b := Zeros()]);
      var t' := t + [Write(BitmapBlock(b / BPB), Holds(d', BitmapBlock(b / BPB))),
          Write(HomeBlock(b), HeldData(Zeros()))];
      Effect(d, d', t, t') && Took(d.bitmap, d'.bitmap, t', b)
      && Blocks(t') == Blocks(t) + {BitmapBlock(b / BPB), HomeBlock(b)})
  {
    var m := d.(bitmap := d.bitmap[b := true]);
    var w, z := Write(BitmapBlock(b / BPB), Holds(m, BitmapBlock(b / BPB))), Write(HomeBlock(b), HeldData(Zeros()));
    TracedBit(d, b, true, t);
    EffectBlock(m, b, Zeros(), t + [w]);
    EffectTwice(d, m, m.(blocks := d.blocks[b := Zeros()]), t, t + [w], t + [w] + [z]);
    assert t + [w] + [z] == t + [w, z];
    BlocksAdd(t, w);
    BlocksAdd(t + [w], z);
  }

  lemma BlocksAdd(t: seq<Write>, w: Write)
    ensures Blocks(t + [w]) == Blocks(t) + {w.x}
  {
    assert forall v :: v in t + [w] <==> v in t || v == w;
  }

  /** Freeing blocks logs parts of the free map; on a disk with one bitmap block, only that block. */
  ghost predicate Freed(d: Disk, d': Disk, t: seq<Write>, t': seq<Write>) {
    Traced(d, d', t, t') && (|d.bitmap| <= BPB ==> Blocks(t') <= Blocks(t) + {BitmapBlock(0)})
  }

  lemma FreedNone(d: Disk, t: seq<Write>)
    ensures Freed(d, d, t, t)
  {
    TracedNone(d, t);
  }

  lemma FreedBit(d: Disk, b: nat, t: seq<Write>)
    requires b < |d.bitmap|
    ensures (var d' := d.(bitmap := d.bitmap[b := false]);
      Freed(d, d', t, t + [Write(BitmapBlock(b / BPB), Holds(d', BitmapBlock(b / BPB)))]))
  {
    TracedBit(d, b, false, t);
    BlocksAdd(t, Write(BitmapBlock(b / BPB), Holds(d.(bitmap := d.bitmap[b := false]), BitmapBlock(b / BPB))));
  }

  lemma FreedTwice(d0: Disk, d1: Disk, d2: Disk, t0: seq<Write>, t1: seq<Write>, t2: seq<Write>)
    requires Freed(d0, d1, t0, t1) && Freed(d1, d2, t1, t2)
    ensures Freed(d0, d2, t0, t2)
  {
    TracedTwice(d0, d1, d2, t0, t1, t2);
  }

  lemma FreedThenInode(d0: Disk, d1: Disk, i: nat, ip: Inode, t0: seq<Write>, t1: seq<Write>)
    requires Freed(d0, d1, t0, t1) && i < |d1.dinodes|
    ensures (var d' := d1.(dinodes := d1.dinodes[i := ip]);
      var t' := t1 + [Write(InodeBlock(i / IPB), Holds(d', InodeBlock(i / IPB)))];
      Traced(d0, d', t0, t')
      && (|d0.bitmap| <= BPB ==> Blocks(t') <= Blocks(t0) + {BitmapBlock(0), InodeBlock(i / IPB)}))
  {
    var d' := d1.(dinodes := d1.dinodes[i := ip]);
    var w := Write(InodeBlock(i / IPB), Holds(d', InodeBlock(i / IPB)));
    EffectInode(d1, i, ip, t1);
    TracedTwice(d0, d1, d', t0, t1, t1 + [w]);
    BlocksAdd(t1, w);
  }

  /** How many bits of the free map are clear. */
  ghost function Free(bitmap: seq<bool>): nat { |Clear(bitmap)| }

  ghost function Clear(bitmap: seq<bool>): set<nat> { set k: nat | k < |bitmap| && !bitmap[k] }

  lemma FreeNone(bitmap: seq<bool>)
    ensures Free(bitmap) == 0 <==> forall k :: 0 <= k < |bitmap| ==> bitmap[k]
  {
    if k: nat :| k < |bitmap| && !bitmap[k] { assert k in Clear(bitmap); }
    if Free(bitmap) != 0 { var k :| k in Clear(bitmap); }
  }

  lemma FreeTaken(bitmap: seq<bool>, b: nat)
    requires b < |bitmap| && !bitmap[b]
    ensures Free(bitmap) == Free(bitmap[b := true]) + 1
  {
    assert Clear(bitmap) == Clear(bitmap[b := true]) + {b};
  }

  /** Block a was taken from the free map, and its part of the map logged. */
  ghost predicate Took(before: seq<bool>, after: seq<bool>, t: seq<Write>, a: nat) {
    a < |before| == |after| && !before[a] && after[a] && BitmapBlock(a / BPB) in Blocks(t)
  }

  lemma TookMore(before: seq<bool>, after: seq<bool>, t: seq<Write>, t': seq<Write>, a: nat)
    requires Took(before, after, t, a) && t <= t'
    ensures Took(before, after, t', a)
  {
    var w :| w in t && w.x == BitmapBlock(a / BPB);
    assert w in t';
  }

  ghost predicate TookSome(before: seq<bool>, after: seq<bool>, t: seq<Write>) {
    exists a :: Took(before, after, t, a)
  }

  /** A block taken stays taken, and was free before. */
  lemma StillTook(d0: Disk, d1: Disk, d2: Disk, t0: seq<Write>, t1: seq<Write>, t2: seq<Write>)
    requires Effect(d0, d1, t0, t1) && Effect(d1, d2, t1, t2)
    requires TookSome(d0.bitmap, d1.bitmap, t1) || TookSome(d1.bitmap, d2.bitmap, t2)
    ensures TookSome(d0.bitmap, d2.bitmap, t2)
  {
    hide Holds, OnDisk, Last;
    if TookSome(d0.bitmap, d1.bitmap, t1) {
      var a :| Took(d0.bitmap, d1.bitmap, t1, a);
      TookMore(d0.bitmap, d1.bitmap, t1, t2, a);
      assert Took(d0.bitmap, d2.bitmap, t2, a);
    } else {
      var a :| Took(d1.bitmap, d2.bitmap, t2, a);
      assert Took(d0.bitmap, d2.bitmap, t2, a);
    }
  }

  /** A block taken, then one more block written. */
  lemma TookThenBlock(d: Disk, d1: Disk, t: seq<Write>, t1: seq<Write>, a: nat, b: nat, x: Block)
    requires Effect(d, d1, t, t1) && Took(d.bitmap, d1.bitmap, t1, a) && d1.nmeta <= b < |d1.blocks|
    ensures (var d2, t2 := d1.(blocks := d1.blocks[b := x]), t1 + [Write(HomeBlock(b), HeldData(x))];
      Effect(d, d2, t, t2) && Took(d.bitmap, d2.bitmap, t2, a) && Blocks(t2) == Blocks(t1) + {HomeBlock(b)})
  {
    hide Effect, Took, Blocks;
    var d2, t2 := d1.(blocks := d1.blocks[b := x]), t1 + [Write(HomeBlock(b), HeldData(x))];
    EffectBlock(d1, b, x, t1);
    EffectTwice(d, d1, d2, t, t1, t2);
    TookMore(d.bitmap, d1.bitmap, t1, t2, a);
    BlocksAdd(t1, Write(HomeBlock(b), HeldData(x)));
  }
}
