/** The buffer cache of bio.c over the disk of memide.c. */
module BioModel {
  type Block = seq<nat>

  // ---------------------------------------------------------------- the doubly linked list

  /** The circular list as one walk, from the head (numbered n) back to the head. */
  ghost function Ring(order: seq<nat>, n: nat): seq<nat> { [n] + order + [n] }

  ghost predicate NoDup(order: seq<nat>) { forall i, j :: 0 <= i < j < |order| ==> order[i] != order[j] }

  ghost predicate Step(next: seq<nat>, prev: seq<nat>, ring: seq<nat>, i: nat)
    requires i + 1 < |ring|
  {
    ring[i] < |next| && ring[i + 1] < |prev| && next[ring[i]] == ring[i + 1] && prev[ring[i + 1]] == ring[i]
  }

  /** next and prev link the head and the buffers of `order`, most recently used first. */
  ghost predicate Linked(next: seq<nat>, prev: seq<nat>, order: seq<nat>, n: nat) {
    && |next| == |prev| == n + 1 && NoDup(order) && (forall b :: b in order ==> b < n)
    && forall i: nat {:trigger Step(next, prev, Ring(order, n), i)} :: i <= |order| ==>
        Step(next, prev, Ring(order, n), i)
  }

  /** The list has every buffer. */
  ghost predicate Everyone(order: seq<nat>, n: nat) { |order| == n && forall b :: 0 <= b < n ==> b in order }

  /** The list without place k. */
  ghost function Drop(order: seq<nat>, k: nat): (r: seq<nat>)
    requires k < |order|
    ensures |r| == |order| - 1 && forall i :: 0 <= i < |r| ==> r[i] == if i < k then order[i] else order[i + 1]
  {
    order[..k] + order[k + 1..]
  }

  lemma Ends(next: seq<nat>, prev: seq<nat>, order: seq<nat>, n: nat, k: nat)
    requires Linked(next, prev, order, n) && k <= |order|
    ensures Ring(order, n)[k] <= n && Ring(order, n)[k + 1] <= n
    ensures next[Ring(order, n)[k]] == Ring(order, n)[k + 1] && prev[Ring(order, n)[k + 1]] == Ring(order, n)[k]
    ensures k > 0 ==> Ring(order, n)[k] == order[k - 1] < n
    ensures k < |order| ==> Ring(order, n)[k + 1] == order[k] < n
  {
    assert Step(next, prev, Ring(order, n), k);
    if k > 0 { assert order[k - 1] in order; }
    if k < |order| { assert order[k] in order; }
  }

  lemma Unlink(next: seq<nat>, prev: seq<nat>, order: seq<nat>, n: nat, k: nat)
    requires Linked(next, prev, order, n) && k < |order|
    ensures order[k] < n && next[order[k]] <= n && prev[order[k]] <= n
    ensures Linked(next[prev[order[k]] := next[order[k]]], prev[next[order[k]] := prev[order[k]]], Drop(order, k), n)
    ensures order[k] !in Drop(order, k) && next[order[k]] != order[k]
  {
    var b := order[k];
    Ends(next, prev, order, n, k);
    Ends(next, prev, order, n, k + 1);
    var next', prev' := next[prev[b] := next[b]], prev[next[b] := prev[b]];
    var o := Drop(order, k);
    DropOne(order, k);
    forall i: nat | i <= |o| ensures Step(next', prev', Ring(o, n), i) { UnlinkStep(next, prev, order, n, k, i); }
    assert order[k] in order;
    hide Ring, Step, NoDup;
  }

  lemma DropOne(order: seq<nat>, k: nat)
    requires NoDup(order) && k < |order|
    ensures NoDup(Drop(order, k)) && order[k] !in Drop(order, k) && forall x :: x in Drop(order, k) ==> x in order
  {
  }

  lemma UnlinkStep(next: seq<nat>, prev: seq<nat>, order: seq<nat>, n: nat, k: nat, i: nat)
    requires Linked(next, prev, order, n) && k < |order| && i < |order|
    ensures order[k] < n && next[order[k]] <= n && prev[order[k]] <= n
    ensures (var b := order[k];
      Step(next[prev[b] := next[b]], prev[next[b] := prev[b]], Ring(Drop(order, k), n), i))
  {
    Ends(next, prev, order, n, k);
    Ends(next, prev, order, n, k + 1);
    Ends(next, prev, order, n, if i < k then i else i + 1);
  }

  lemma PushFront(next: seq<nat>, prev: seq<nat>, order: seq<nat>, n: nat, b: nat)
    requires Linked(next, prev, order, n) && b < n && b !in order
    ensures next[n] <= n
    ensures Linked(next[b := next[n]][n := b], prev[b := n][next[n] := b], [b] + order, n)
  {
    Ends(next, prev, order, n, 0);
    var next', prev' := next[b := next[n]][n := b], prev[b := n][next[n] := b];
    var o := [b] + order;
    var r, r' := Ring(order, n), Ring(o, n);
    forall i: nat | i <= |o| ensures Step(next', prev', r', i) {
      if i >= 2 {
        Ends(next, prev, order, n, i - 1);
        assert order[i - 2] in order && r'[i] == r[i - 1] && r'[i + 1] == r[i];
      }
    }
  }

  // ---------------------------------------------------------------- the buffers

  datatype Buf = Buf(dev: nat, blockno: nat, valid: bool, dirty: bool, refcnt: nat, data: Block)

  /** A use of a buffer, from bget on until brelse: the buffer and the block it was asked for. */
  datatype Use = Use(b: nat, dev: nat, blockno: nat)

  const DISK: nat := 1

  /** No two buffers are bound to the same block of a device other than 0. */
  ghost predicate Unique(bufs: seq<Buf>) {
    forall a, b :: 0 <= a < b < |bufs| && bufs[a].dev != 0 ==>
        bufs[a].dev != bufs[b].dev || bufs[a].blockno != bufs[b].blockno
  }

  ghost function Users(uses: map<nat, Use>, b: nat): set<nat> { set h | h in uses && uses[h].b == b }

  /** refcnt counts the uses, and a buffer in use stays bound to the block it was asked for. */
  ghost predicate Counted(bufs: seq<Buf>, uses: map<nat, Use>) {
    && (forall b {:trigger bufs[b]} :: 0 <= b < |bufs| ==> bufs[b].refcnt == |Users(uses, b)|)
    && (forall h :: h in uses ==>
        uses[h].b < |bufs| && bufs[uses[h].b].dev == uses[h].dev && bufs[uses[h].b].blockno == uses[h].blockno)
  }

  /** The holder of a buffer's lock uses that buffer; only the holder has changed data it has not logged. */
  ghost predicate Locked(uses: map<nat, Use>, locked: map<nat, nat>, touched: set<nat>) {
    && (forall b :: b in locked ==> locked[b] in uses && uses[locked[b]].b == b)
    && touched <= locked.Keys
  }

  /** A valid buffer that is neither dirty nor being changed has what is on the disk. */
  ghost predicate Synced(bufs: seq<Buf>, disk: seq<Block>, touched: set<nat>) {
    forall b {:trigger bufs[b]} :: 0 <= b < |bufs| ==>
      && (bufs[b].dirty || b in touched ==> bufs[b].valid)
      && (bufs[b].valid ==> bufs[b].dev == DISK && bufs[b].blockno < |disk|)
      && (bufs[b].valid && !bufs[b].dirty && b !in touched ==> bufs[b].data == disk[bufs[b].blockno])
  }

  /** Every buffer used less recently than b is in use or dirty. */
  ghost predicate LeastRecent(order: seq<nat>, bufs: seq<Buf>, b: nat) {
    exists k :: 0 <= k < |order| && order[k] == b &&
      forall i :: k < i < |order| ==> order[i] < |bufs| && (bufs[order[i]].refcnt != 0 || bufs[order[i]].dirty)
  }

  ghost predicate Has(bufs: seq<Buf>, b: nat, blockno: nat) {
    b < |bufs| && bufs[b].valid && bufs[b].dev == DISK && bufs[b].blockno == blockno
  }

  /** The latest contents of a block: its buffer's, if it has a valid one, else the disk's. */
  ghost function Latest(bufs: seq<Buf>, disk: seq<Block>, blockno: nat): Block
    requires blockno < |disk|
  {
    if b: nat :| Has(bufs, b, blockno) then bufs[b].data else disk[blockno]
  }

  ghost predicate SameLatest(bufs: seq<Buf>, disk: seq<Block>, bufs': seq<Buf>, disk': seq<Block>) {
    |disk'| == |disk| && forall k :: 0 <= k < |disk| ==> Latest(bufs', disk', k) == Latest(bufs, disk, k)
  }

  lemma LatestOf(bufs: seq<Buf>, disk: seq<Block>, b: nat, k: nat)
    requires Unique(bufs) && Has(bufs, b, k) && k < |disk|
    ensures Latest(bufs, disk, k) == bufs[b].data
  {
    forall c: nat | Has(bufs, c, k) ensures c == b {}
  }

  /** One buffer changes, but not what its block and any other block hold. */
  lemma OneChanged(bufs: seq<Buf>, disk: seq<Block>, b: nat, x: Buf, disk': seq<Block>)
    requires b < |bufs| && Unique(bufs) && Unique(bufs[b := x]) && |disk'| == |disk|
    requires forall k :: 0 <= k < |disk| && !Has(bufs, b, k) ==> disk'[k] == disk[k]
    requires x.valid && x.dev == DISK && x.blockno < |disk| ==>
      x.data == if Has(bufs, b, x.blockno) then bufs[b].data else disk[x.blockno]
    requires (var k := bufs[b].blockno;
      bufs[b].valid && bufs[b].dev == DISK && k < |disk| && !Has(bufs[b := x], b, k) ==> disk'[k] == bufs[b].data)
    requires x.valid && x.dev == DISK && !Has(bufs, b, x.blockno) ==> forall c: nat :: !Has(bufs, c, x.blockno)
    ensures SameLatest(bufs, disk, bufs[b := x], disk')
  {
    var bufs' := bufs[b := x];
    forall k | 0 <= k < |disk| ensures Latest(bufs', disk', k) == Latest(bufs, disk, k) {
      forall c: nat | c != b ensures Has(bufs', c, k) <==> Has(bufs, c, k) {}
      if c: nat :| Has(bufs, c, k) {
        LatestOf(bufs, disk, c, k);
        if Has(bufs', c, k) { LatestOf(bufs', disk', c, k); }
      } else if c: nat :| Has(bufs', c, k) {
        LatestOf(bufs', disk', c, k);
      }
    }
  }

  lemma SameSelf(bufs: seq<Buf>, disk: seq<Block>)
    ensures SameLatest(bufs, disk, bufs, disk)
  {
  }

  // ---------------------------------------------------------------- bget and brelse

  lemma UsesAdded(uses: map<nat, Use>, h: nat, u: Use)
    requires h !in uses
    ensures Users(uses[h := u], u.b) == Users(uses, u.b) + {h} && |Users(uses[h := u], u.b)| == |Users(uses, u.b)| + 1
    ensures forall b :: b != u.b ==> Users(uses[h := u], b) == Users(uses, b)
  {
    forall b | b != u.b ensures Users(uses[h := u], b) == Users(uses, b) {}
  }

  lemma HitKeeps(bufs: seq<Buf>, disk: seq<Block>, touched: set<nat>, uses: map<nat, Use>, b: nat, h: nat)
    requires b < |bufs| && h !in uses && Unique(bufs) && Counted(bufs, uses) && Synced(bufs, disk, touched)
    ensures (var bufs' := bufs[b := bufs[b].(refcnt := bufs[b].refcnt + 1)]; var u := Use(b, bufs[b].dev,
      bufs[b].blockno);
      Unique(bufs') && Counted(bufs', uses[h := u]) && Synced(bufs', disk, touched)
          && SameLatest(bufs, disk, bufs', disk))
  {
    var x := bufs[b].(refcnt := bufs[b].refcnt + 1);
    UsesAdded(uses, h, Use(b, bufs[b].dev, bufs[b].blockno));
    OneChanged(bufs, disk, b, x, disk);
  }

  lemma RecycleKeeps(bufs: seq<Buf>, disk: seq<Block>, touched: set<nat>, uses: map<nat, Use>, b: nat, h: nat,
          dev: nat, blockno: nat)
    requires b < |bufs| && h !in uses && Unique(bufs) && Counted(bufs, uses) && Synced(bufs, disk, touched)
    requires bufs[b].refcnt == 0 && !bufs[b].dirty && b !in touched
    requires forall c :: 0 <= c < |bufs| ==> !(bufs[c].dev == dev && bufs[c].blockno == blockno)
    ensures (var bufs' := bufs[b := Buf(dev, blockno, false, false, 1, bufs[b].data)]; var u := Use(b, dev, blockno);
      Unique(bufs') && Counted(bufs', uses[h := u]) && Synced(bufs', disk, touched)
          && SameLatest(bufs, disk, bufs', disk))
  {
    var x := Buf(dev, blockno, false, false, 1, bufs[b].data);
    UsesAdded(uses, h, Use(b, dev, blockno));
    assert Users(uses, b) == {};
    forall g | g in uses ensures uses[g].b != b { assert g !in Users(uses, b); }
    assert Unique(bufs[b := x]);
    OneChanged(bufs, disk, b, x, disk);
  }

  lemma UsesRemoved(uses: map<nat, Use>, h: nat)
    requires h in uses
    ensures |Users(uses - {h}, uses[h].b)| == |Users(uses, uses[h].b)| - 1
    ensures forall b :: b != uses[h].b ==> Users(uses - {h}, b) == Users(uses, b)
  {
    assert Users(uses, uses[h].b) == Users(uses - {h}, uses[h].b) + {h};
    forall b | b != uses[h].b ensures Users(uses - {h}, b) == Users(uses, b) {}
  }

  lemma ReleaseKeeps(bufs: seq<Buf>, disk: seq<Block>, touched: set<nat>, uses: map<nat, Use>, h: nat)
    requires h in uses && Unique(bufs) && Counted(bufs, uses) && Synced(bufs, disk, touched)
    ensures uses[h].b < |bufs| && bufs[uses[h].b].refcnt > 0
    ensures (var b := uses[h].b; var bufs' := bufs[b := bufs[b].(refcnt := bufs[b].refcnt - 1)];
      Unique(bufs') && Counted(bufs', uses - {h}) && Synced(bufs', disk, touched)
          && SameLatest(bufs, disk, bufs', disk))
  {
    var b := uses[h].b;
    UsesRemoved(uses, h);
    OneChanged(bufs, disk, b, bufs[b].(refcnt := bufs[b].refcnt - 1), disk);
  }

  /** `o'` is `o` with b moved to its front. */
  ghost predicate ToTheFront(o: seq<nat>, o': seq<nat>, b: nat) {
    exists k :: 0 <= k < |o| && o[k] == b && o' == [b] + Drop(o, k)
  }

  lemma LockedDrops(uses: map<nat, Use>, locked: map<nat, nat>, touched: set<nat>, h: nat)
    requires Locked(uses, locked, touched) && h in uses && (uses[h].b in locked ==> locked[uses[h].b] != h)
    ensures Locked(uses - {h}, locked, touched)
  {
  }

  lemma FrontHasAll(order: seq<nat>, n: nat, k: nat)
    requires Everyone(order, n) && k < n
    ensures Everyone([order[k]] + Drop(order, k), n)
  {
    var o := [order[k]] + Drop(order, k);
    forall b | 0 <= b < n ensures b in o {
      assert b in order;
      var i :| 0 <= i < n && order[i] == b;
      assert i == k ==> o[0] == b;
      assert i < k ==> o[i + 1] == b;
      assert i > k ==> o[i] == b;
    }
  }

  // ---------------------------------------------------------------- the holder of a buffer

  /** iderw fills a buffer that is not valid. */
  lemma FillKeeps(bufs: seq<Buf>, disk: seq<Block>, touched: set<nat>, uses: map<nat, Use>, b: nat)
    requires b < |bufs| && Unique(bufs) && Counted(bufs, uses) && Synced(bufs, disk, touched)
    requires !bufs[b].valid && bufs[b].dev == DISK && bufs[b].blockno < |disk|
    ensures (var bufs' := bufs[b := bufs[b].(data := disk[bufs[b].blockno], valid := true)];
      Unique(bufs') && Counted(bufs', uses) && Synced(bufs', disk, touched) && SameLatest(bufs, disk, bufs', disk))
  {
    OneChanged(bufs, disk, b, bufs[b].(data := disk[bufs[b].blockno], valid := true), disk);
  }

  lemma ChangeKeeps(bufs: seq<Buf>, disk: seq<Block>, touched: set<nat>, uses: map<nat, Use>, b: nat, d: Block)
    requires b < |bufs| && Unique(bufs) && Counted(bufs, uses) && Synced(bufs, disk, touched) && bufs[b].valid
    ensures (var bufs' := bufs[b := bufs[b].(data := d)];
      && Unique(bufs') && Counted(bufs', uses) && Synced(bufs', disk, touched + {b})
      && forall k :: 0 <= k < |disk| ==> Latest(bufs', disk, k) == if k == bufs[b].blockno then d
          else Latest(bufs, disk, k))
  {
    var bufs' := bufs[b := bufs[b].(data := d)];
    forall k | 0 <= k < |disk| ensures Latest(bufs', disk, k) == if k == bufs[b].blockno then d
        else Latest(bufs, disk, k) {
      forall c: nat ensures Has(bufs', c, k) <==> Has(bufs, c, k) {}
      if k == bufs[b].blockno {
        LatestOf(bufs', disk, b, k);
      } else if c: nat :| Has(bufs, c, k) {
        LatestOf(bufs, disk, c, k);
        LatestOf(bufs', disk, c, k);
      }
    }
  }

  lemma DirtyKeeps(bufs: seq<Buf>, disk: seq<Block>, touched: set<nat>, uses: map<nat, Use>, b: nat)
    requires b < |bufs| && Unique(bufs) && Counted(bufs, uses) && Synced(bufs, disk, touched) && bufs[b].valid
    ensures (var bufs' := bufs[b := bufs[b].(dirty := true)];
      Unique(bufs') && Counted(bufs', uses) && Synced(bufs', disk, touched - {b})
          && SameLatest(bufs, disk, bufs', disk))
  {
    OneChanged(bufs, disk, b, bufs[b].(dirty := true), disk);
  }

  /** bwrite puts the buffer on the disk, where it has been the latest contents already if it was valid. */
  lemma WriteKeeps(bufs: seq<Buf>, disk: seq<Block>, touched: set<nat>, uses: map<nat, Use>, b: nat)
    requires b < |bufs| && Unique(bufs) && Counted(bufs, uses) && Synced(bufs, disk, touched)
    requires bufs[b].dev == DISK && bufs[b].blockno < |disk|
    ensures (var bufs' := bufs[b := bufs[b].(dirty := false,
      valid := true)]; var disk' := disk[bufs[b].blockno := bufs[b].data];
      && Unique(bufs') && Counted(bufs', uses) && Synced(bufs', disk', touched - {b})
      && (bufs[b].valid ==> SameLatest(bufs, disk, bufs', disk')))
  {
    if bufs[b].valid {
      OneChanged(bufs, disk, b, bufs[b].(dirty := false, valid := true), disk[bufs[b].blockno := bufs[b].data]);
    }
  }
}
