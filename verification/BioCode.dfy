/** bio.c as a class.  Each method is what one process does while it holds bcache.lock, or the lock of
    the buffer it works on; calls of different processes may come in any order.  A use of a buffer, from
    bget to brelse, is named by a handle. */
module BioCode {
  import opened BioModel

  class Cache {
    const n: nat                      // NBUF; buffer n is the list head
    var next: seq<nat>
    var prev: seq<nat>
    var bufs: seq<Buf>
    var disk: seq<Block>
    var locked: map<nat, nat>         // the use that holds each buffer's sleep lock
    ghost var order: seq<nat>         // the list, most recently used first
    ghost var uses: map<nat, Use>
    ghost var touched: set<nat>       // buffers whose holder has changed their data since reading or logging it

    ghost predicate Valid() reads this {
      && |bufs| == n && Everyone(order, n) && Linked(next, prev, order, n)
      && Unique(bufs) && Counted(bufs, uses) && Locked(uses, locked, touched) && Synced(bufs, disk, touched)
    }

    /** binit: all buffers on the list, all labelled block 0 of device 0. */
    constructor (n: nat, disk: seq<Block>)
      ensures Valid() && this.n == n && this.disk == disk && uses == map[] && locked == map[] && touched == {}
      ensures forall k :: 0 <= k < |disk| ==> Latest(bufs, disk, k) == disk[k]
    {
      this.n := n;
      this.disk := disk;
      next, prev := seq(n + 1, i => n), seq(n + 1, i => n);
      bufs := seq(n, i => Buf(0, 0, false, false, 0, []));
      locked, order, uses, touched := map[], [], map[], {};
      new;
      assert Step(next, prev, Ring(order, n), 0);
      var b := 0;
      while b < n
        invariant b <= n && |order| == b && Linked(next, prev, order, n) && forall x :: x in order <==> 0 <= x < b
        invariant this.disk == disk && uses == map[] && locked == map[] && touched == {}
        invariant bufs == seq(n, i => Buf(0, 0, false, false, 0, []))
      {
        PushFront(next, prev, order, n, b);
        next := next[b := next[n]];
        prev := prev[b := n];
        prev := prev[next[n] := b];
        next := next[n := b];
        order := [b] + order;
        b := b + 1;
      }
      forall k: nat ensures Users(uses, k) == {} {}
    }

    /** The first loop of bget. */
    method Find(dev: nat, blockno: nat) returns (b: nat)
      requires Valid()
      ensures b <= n
      ensures b < n ==> bufs[b].dev == dev && bufs[b].blockno == blockno
      ensures b == n ==> forall c :: 0 <= c < n ==> !(bufs[c].dev == dev && bufs[c].blockno == blockno)
    {
      hide Unique, Counted, Locked, Synced;
      b := next[n];
      ghost var k := 0;
      Ends(next, prev, order, n, 0);
      while b != n
        invariant 0 <= k <= n && b == Ring(order, n)[k + 1] <= n
        invariant forall i :: 0 <= i < k ==>
          order[i] < n && !(bufs[order[i]].dev == dev && bufs[order[i]].blockno == blockno)
        decreases n - k
      {
        if bufs[b].dev == dev && bufs[b].blockno == blockno { return; }
        Ends(next, prev, order, n, k);
        Ends(next, prev, order, n, k + 1);
        b, k := next[b], k + 1;
      }
      Ends(next, prev, order, n, k);
      forall c | 0 <= c < n ensures !(bufs[c].dev == dev && bufs[c].blockno == blockno) {
        assert c in order;
      }
    }

    /** The second loop of bget, from the least recently used end. */
    method Idle() returns (b: nat)
      requires Valid()
      ensures b <= n
      ensures b < n ==> bufs[b].refcnt == 0 && !bufs[b].dirty && LeastRecent(order, bufs, b)
      ensures b == n ==> forall c :: 0 <= c < n ==> bufs[c].refcnt != 0 || bufs[c].dirty
    {
      hide Unique, Counted, Locked, Synced;
      b := prev[n];
      ghost var k := n;
      Ends(next, prev, order, n, n);
      while b != n
        invariant 0 <= k <= n && b == Ring(order, n)[k] <= n && (b == n ==> k == 0)
        invariant forall i :: k <= i < n ==> order[i] < n && (bufs[order[i]].refcnt != 0 || bufs[order[i]].dirty)
        decreases k
      {
        if bufs[b].refcnt == 0 && !bufs[b].dirty {
          Ends(next, prev, order, n, k - 1);
          return;
        }
        Ends(next, prev, order, n, k - 1);
        b, k := prev[b], k - 1;
        if k > 0 { Ends(next, prev, order, n, k); }
      }
      assert k == 0;
      forall c | 0 <= c < n ensures bufs[c].refcnt != 0 || bufs[c].dirty {
        assert c in order;
      }
    }

    /** bget: the block's buffer, or a recycled one; never a dirty one, nor one in use. */
    method Bget(dev: nat, blockno: nat, ghost h: nat) returns (b: nat, ok: bool)
      requires Valid() && h !in uses
      modifies this`bufs, this`uses
      ensures Valid() && |bufs| == |old(bufs)|
      ensures !ok ==> bufs == old(bufs) && uses == old(uses) && forall c :: 0 <= c < n ==>
        !(bufs[c].dev == dev && bufs[c].blockno == blockno) && (bufs[c].refcnt != 0 || bufs[c].dirty)
      ensures ok ==> b < n && uses == old(uses)[h := Use(b, dev, blockno)]
      ensures ok ==> bufs == old(bufs)[b :=
        if old(bufs[b]).dev == dev && old(bufs[b]).blockno == blockno
            then old(bufs[b]).(refcnt := old(bufs[b]).refcnt + 1)
        else Buf(dev, blockno, false, false, 1, old(bufs[b]).data)]
      ensures ok && !(old(bufs[b]).dev == dev && old(bufs[b]).blockno == blockno) ==>
        old(bufs[b]).refcnt == 0 && !old(bufs[b]).dirty && LeastRecent(order, old(bufs), b)
      ensures SameLatest(old(bufs), disk, bufs, disk)
    {
      hide Linked, Everyone, Unique, Counted, Synced, SameLatest;
      b := Find(dev, blockno);
      if b < n {
        HitKeeps(bufs, disk, touched, uses, b, h);
        bufs := bufs[b := bufs[b].(refcnt := bufs[b].refcnt + 1)];
        uses := uses[h := Use(b, dev, blockno)];
        return b, true;
      }
      b := Idle();
      if b < n {
        assert b !in touched by { NotTouched(b); }
        RecycleKeeps(bufs, disk, touched, uses, b, h, dev, blockno);
        bufs := bufs[b := Buf(dev, blockno, false, false, 1, bufs[b].data)];
        uses := uses[h := Use(b, dev, blockno)];
        return b, true;
      }
      SameSelf(bufs, disk);
      return n, false;
    }

    lemma NotTouched(b: nat)
      requires Valid() && b < n && bufs[b].refcnt == 0
      ensures b !in touched && b !in locked
    {
      assert Users(uses, b) == {};
      forall h | h in uses ensures uses[h].b != b { assert h !in Users(uses, b); }
    }

    /** acquiresleep on the buffer succeeds: whoever waited meanwhile, it is still the block asked for. */
    method Acquire(b: nat, h: nat)
      requires Valid() && h in uses && uses[h].b == b && b !in locked
      modifies this`locked
      ensures Valid() && locked == old(locked)[b := h]
      ensures b < n && bufs[b].dev == uses[h].dev && bufs[b].blockno == uses[h].blockno
    {
      hide Linked, Everyone, Unique, Synced;
      locked := locked[b := h];
    }

    /** iderw of memide.c. */
    method Iderw(b: nat)
      requires b < |bufs| && !(bufs[b].valid && !bufs[b].dirty) && bufs[b].dev == DISK && bufs[b].blockno < |disk|
      modifies this`bufs, this`disk
      ensures bufs == old(bufs)[b := old(bufs[b]).(dirty := false, valid := true,
        data := if old(bufs[b]).dirty then old(bufs[b]).data else old(disk)[old(bufs[b]).blockno])]
      ensures disk == if old(bufs[b]).dirty then old(disk)[old(bufs[b]).blockno := old(bufs[b]).data] else old(disk)
    {
      if bufs[b].dirty {
        bufs := bufs[b := bufs[b].(dirty := false)];
        disk := disk[bufs[b].blockno := bufs[b].data];
      } else {
        bufs := bufs[b := bufs[b].(data := disk[bufs[b].blockno])];
      }
      bufs := bufs[b := bufs[b].(valid := true)];
    }

    /** The rest of bread, under the buffer's lock: the latest contents of the block. */
    method Bread(b: nat, h: nat)
      requires Valid() && b in locked && locked[b] == h && uses[h].dev == DISK && uses[h].blockno < |disk|
      modifies this`bufs, this`disk
      ensures Valid() && disk == old(disk) && |bufs| == |old(bufs)| && bufs[b].valid
      ensures bufs[b].data == Latest(old(bufs), disk, uses[h].blockno) && SameLatest(old(bufs), disk, bufs, disk)
      ensures forall c :: 0 <= c < n && c != b ==> bufs[c] == old(bufs[c])
    {
      hide Linked, Everyone, Unique, Counted, SameLatest, Latest;
      ghost var k := uses[h].blockno;
      assert b < n && bufs[b].dev == DISK && bufs[b].blockno == k by { Bound(b); }
      if !bufs[b].valid {
        FillKeeps(bufs, disk, touched, uses, b);
        Iderw(b);
      } else {
        SameSelf(bufs, disk);
      }
      LatestOf(bufs, disk, b, k);
      LatestKept(old(bufs), bufs, k);
    }

    lemma LatestKept(was: seq<Buf>, now: seq<Buf>, k: nat)
      requires SameLatest(was, disk, now, disk) && k < |disk|
      ensures Latest(now, disk, k) == Latest(was, disk, k)
    {
    }

    lemma Bound(b: nat)
      requires Valid() && b in locked
      ensures locked[b] in uses && uses[locked[b]].b == b < n
      ensures bufs[b].dev == uses[locked[b]].dev && bufs[b].blockno == uses[locked[b]].blockno && bufs[b].refcnt > 0
    {
      assert locked[b] in Users(uses, b);
    }

    /** The holder changes the data. */
    method Change(b: nat, h: nat, d: Block)
      requires Valid() && b in locked && locked[b] == h && b < n && bufs[b].valid
      modifies this`bufs, this`touched
      ensures Valid() && bufs == old(bufs)[b := old(bufs[b]).(data := d)] && touched == old(touched) + {b}
      ensures forall k :: 0 <= k < |disk| ==>
        Latest(bufs, disk, k) == if k == old(bufs[b]).blockno then d else Latest(old(bufs), disk, k)
    {
      hide Linked, Everyone, Unique, Counted, Latest, Synced;
      ChangeKeeps(bufs, disk, touched, uses, b, d);
      bufs := bufs[b := bufs[b].(data := d)];
      touched := touched + {b};
    }

    /** log_write marks the buffer, which keeps it in the cache until bwrite. */
    method MarkDirty(b: nat, h: nat)
      requires Valid() && b in locked && locked[b] == h && b < n && bufs[b].valid
      modifies this`bufs, this`touched
      ensures Valid() && bufs == old(bufs)[b := old(bufs[b]).(dirty := true)] && touched == old(touched) - {b}
      ensures SameLatest(old(bufs), disk, bufs, disk)
    {
      hide Linked, Everyone, Unique, Counted, SameLatest, Synced;
      DirtyKeeps(bufs, disk, touched, uses, b);
      bufs := bufs[b := bufs[b].(dirty := true)];
      touched := touched - {b};
    }

    /** bwrite: the only step that changes the disk. */
    method Bwrite(b: nat, h: nat)
      requires Valid() && b in locked && locked[b] == h && uses[h].dev == DISK && uses[h].blockno < |disk|
      modifies this`bufs, this`disk, this`touched
      ensures Valid() && b < n && disk == old(disk)[uses[h].blockno := old(bufs[b]).data]
        && touched == old(touched) - {b}
      ensures bufs == old(bufs)[b := old(bufs[b]).(dirty := false, valid := true)]
      ensures old(bufs[b]).valid ==> SameLatest(old(bufs), old(disk), bufs, disk)
    {
      hide Linked, Everyone, Unique, Counted, SameLatest, Synced;
      Bound(b);
      WriteKeeps(bufs, disk, touched, uses, b);
      bufs := bufs[b := bufs[b].(dirty := true)];
      Iderw(b);
      assert bufs == old(bufs)[b := old(bufs[b]).(dirty := false, valid := true)];
      assert disk == old(disk)[old(bufs[b]).blockno := old(bufs[b]).data];
      touched := touched - {b};
    }

    /** The releasesleep of brelse.  From here on another process may lock the buffer. */
    method Unlock(b: nat, h: nat)
      requires Valid() && b in locked && locked[b] == h && b !in touched
      modifies this`locked
      ensures Valid() && locked == old(locked) - {b} && h in uses && uses[h].b == b
    {
      hide Linked, Unique, Counted, Synced;
      locked := locked - {b};
    }

    /** The section of brelse under bcache.lock: the use ends; the buffer moves to the front of the list if it was
        the last one.  By now another process may hold the buffer's lock. */
    method DropRef(b: nat, h: nat)
      requires Valid() && h in uses && uses[h].b == b && (b in locked ==> locked[b] != h)
      modifies this`bufs, this`next, this`prev, this`order, this`uses
      ensures Valid() && b < n && uses == old(uses) - {h}
      ensures bufs == old(bufs)[b := old(bufs[b]).(refcnt := bufs[b].refcnt)]
        && bufs[b].refcnt == old(bufs[b]).refcnt - 1
      ensures SameLatest(old(bufs), disk, bufs, disk)
      ensures bufs[b].refcnt != 0 ==> order == old(order)
      ensures bufs[b].refcnt == 0 ==> ToTheFront(old(order), order, b)
      ensures b in locked ==> bufs[b].refcnt > 0
    {
      InUse(h);
      assert |bufs| == n;
      hide Valid, SameLatest, ToTheFront;
      Decrement(b, h);
      if bufs[b].refcnt == 0 { ToFront(b); }
    }

    method Decrement(b: nat, h: nat)
      requires Valid() && h in uses && uses[h].b == b && (b in locked ==> locked[b] != h)
      modifies this`bufs, this`uses
      ensures Valid() && b < n == |bufs| && uses == old(uses) - {h}
      ensures bufs == old(bufs)[b := old(bufs[b]).(refcnt := bufs[b].refcnt)]
        && bufs[b].refcnt == old(bufs[b]).refcnt - 1
      ensures SameLatest(old(bufs), disk, bufs, disk)
      ensures b in locked ==> bufs[b].refcnt > 0
    {
      InUse(h);
      hide Linked, Unique, Counted, SameLatest, Synced, Locked, Everyone;
      LockedDrops(uses, locked, touched, h);
      ReleaseKeeps(bufs, disk, touched, uses, h);
      uses := uses - {h};
      bufs := bufs[b := bufs[b].(refcnt := bufs[b].refcnt - 1)];
      if b in locked { HolderCounts(b); }
    }

    lemma InUse(h: nat)
      requires Valid() && h in uses
      ensures uses[h].b < n && bufs[uses[h].b].refcnt > 0
    {
      assert h in Users(uses, uses[h].b);
    }

    lemma HolderCounts(b: nat)
      requires Counted(bufs, uses) && Locked(uses, locked, touched) && b < |bufs| && b in locked
      ensures bufs[b].refcnt > 0
    {
      assert locked[b] in Users(uses, b);
    }

    /** brelse, when nobody else comes in between. */
    method Brelse(b: nat, h: nat)
      requires Valid() && b in locked && locked[b] == h && b !in touched
      modifies this`bufs, this`next, this`prev, this`order, this`uses, this`locked
      ensures Valid() && b < n && uses == old(uses) - {h} && locked == old(locked) - {b}
      ensures bufs == old(bufs)[b := old(bufs[b]).(refcnt := bufs[b].refcnt)]
        && bufs[b].refcnt == old(bufs[b]).refcnt - 1
      ensures SameLatest(old(bufs), disk, bufs, disk)
      ensures bufs[b].refcnt != 0 ==> order == old(order)
      ensures bufs[b].refcnt == 0 ==> ToTheFront(old(order), order, b)
    {
      hide Valid, SameLatest;
      Unlock(b, h);
      DropRef(b, h);
    }

    method ToFront(b: nat)
      requires Valid() && b < n
      modifies this`next, this`prev, this`order
      ensures Valid()
      ensures ToTheFront(old(order), order, b)
    {
      hide Unique, Counted, Locked, Synced;
      assert b in order;
      ghost var k :| 0 <= k < n && order[k] == b;
      Unlink(next, prev, order, n, k);
      FrontHasAll(order, n, k);
      ghost var rest := Drop(order, k);
      prev := prev[next[b] := prev[b]];
      next := next[prev[b] := next[b]];
      PushFront(next, prev, rest, n, b);
      next := next[b := next[n]];
      prev := prev[b := n];
      prev := prev[next[n] := b];
      next := next[n := b];
      order := [b] + rest;
      assert old(order)[k] == b && order == [b] + Drop(old(order), k);
    }
  }
}
