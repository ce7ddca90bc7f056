/** malloc, free and morecore of umalloc.c as a class over the headers in memory. */
module UmallocCode {
  import opened Umalloc

  class Allocator {
    var mem: map<nat, Header>     // headers, by address
    var freep: nat
    var ready: bool               // freep is not the null pointer
    var brk: nat                  // end of the process, in units
    var gone: bool                // all pages of the process are unmapped
    const limit: nat              // sbrk fails beyond this
    ghost var order: seq<nat>
    ghost var blocks: map<nat, nat>
    ghost var heap: set<nat>      // units obtained from sbrk by morecore

    constructor (start: nat, limit: nat)
      requires start > BASE
      ensures Valid() && !ready && brk == start && this.limit == limit && heap == {} && Allocated() == {}
    {
      mem, freep, ready, brk, gone := map[], 0, false, start, false;
      this.limit := limit;
      order, blocks, heap := [], map[], {};
    }

    ghost function H(): Heap reads this { Heap(mem, order, blocks) }

    /** Headers of the blocks handed out and not freed yet. */
    ghost function Allocated(): set<nat> reads this { Used(H()) }

    /** The free list is a circle in address order with one wrap, at base; no two free blocks touch;
        free and allocated blocks are disjoint and make up exactly the units obtained. */
    ghost predicate Valid() reads this { ValidBelow(brk) }

    ghost predicate ValidBelow(end: nat) reads this {
      && end > BASE && !gone
      && (forall u :: u in heap <==> Covers(blocks, u))
      && (forall u :: u in heap ==> u < end)
      && (if ready then HeapOk(H(), end) && Gaps(order, blocks, {}) && freep in order
          else order == [] && blocks == map[])
    }

    /** The sizes of all blocks, free and allocated, add up to what morecore obtained. */
    lemma Conserved()
      requires Valid()
      ensures Total(blocks) == |heap|
    {
      hide ListOk, Gaps, Covers, Total;
      TotalIsHeap(blocks, brk, heap);
    }

    lemma Standing(bp: nat)
      requires Valid() && bp in Allocated()
      ensures ready && bp !in order && bp in mem && bp > BASE && order != [] && order[0] == BASE && freep in order
      ensures Ascending(order) && Linked(mem, order)
    {
    }

    /** Where the loop of free stops: at the last listed header below bp. */
    method Search(bp: nat) returns (p: nat)
      requires Valid() && bp in Allocated()
      ensures p in order && p < bp && forall a :: a in order && a < bp ==> a <= p
    {
      hide Valid, Allocated;
      Standing(bp);
      ghost var goal := PlaceBelow(order, bp);
      p := freep;
      ghost var k :| 0 <= k < |order| && order[k] == freep;
      assert mem[order[k]].ptr == Next(order, k) && Next(order, k) in order;
      while !(bp > p && bp < mem[p].ptr)
        invariant 0 <= k < |order| && order[k] == p && p in mem && mem[p].ptr == Next(order, k)
          && Next(order, k) in order
        decreases if k <= goal then goal - k else goal - k + |order|
      {
        if p >= mem[p].ptr && (bp > p || bp < mem[p].ptr) { break; }
        p, k := mem[p].ptr, if k + 1 < |order| then k + 1 else 0;
        assert mem[order[k]].ptr == Next(order, k) && Next(order, k) in order;
      }
    }

    /** What the stores of free will make of the list, with p the header found. */
    lemma Prepare(bp: nat, p: nat) returns (t: nat)
      requires Valid() && bp in Allocated() && p in order && p < bp && forall a :: a in order && a < bp ==> a <= p
      ensures t < |order| && order[t] == p && p in mem && bp in mem && p != bp && mem[p].ptr in mem && mem[p].ptr != bp
      ensures bp in blocks && Freed(H(), t, bp).mem == FreeStores(mem, p, bp)
      ensures HeapOk(Freed(H(), t, bp), brk) && Gaps(Freed(H(), t, bp).order, Freed(H(), t, bp).blocks, {})
        && p in Freed(H(), t, bp).order
      ensures Reshaped(H(), Freed(H(), t, bp), Allocated() - {bp})
      ensures Room(Freed(H(), t, bp).mem, Freed(H(), t, bp).order, blocks[bp])
    {
      Standing(bp);
      t := PlaceOf(order, p, bp);
      hide ListOk, BlocksOk, Gaps, Covers, Freed, Room, Ascending, Linked, FreeStores;
      Around(H(), brk, t, bp);
      FreeMem(H(), brk, t, bp);
      FreeKeeps(H(), brk, t, bp);
      FreedRoom(H(), brk, t, bp);
    }

    /** Hand a block back: it alone leaves the allocated blocks, and no unit is gained or lost. */
    method Free(bp: nat)
      requires Valid() && bp in Allocated()
      modifies this`mem, this`freep, this`order, this`blocks
      ensures Valid() && ready && Allocated() == old(Allocated()) - {bp}
      ensures forall a :: a in Allocated() ==> blocks[a] == old(blocks[a])
      ensures Room(mem, order, old(blocks[bp]))
    {
      hide HeapOk, Gaps, Covers, Freed, Room;
      var p := Search(bp);
      ghost var t := Prepare(bp, p);
      ghost var h := H();
      if bp + mem[bp].size == mem[p].ptr {
        mem := mem[bp := Header(mem[mem[p].ptr].ptr, mem[bp].size + mem[mem[p].ptr].size)];
      } else {
        mem := mem[bp := Header(mem[p].ptr, mem[bp].size)];
      }
      if p + mem[p].size == bp {
        mem := mem[p := Header(mem[bp].ptr, mem[p].size + mem[bp].size)];
      } else {
        mem := mem[p := Header(bp, mem[p].size)];
      }
      freep := p;
      order, blocks := Freed(h, t, bp).order, Freed(h, t, bp).blocks;
      assert H() == Freed(h, t, bp);
    }

    /** sbrk over growproc, for morecore and for any other caller, with a signed amount in units: the old break,
        or failure.  A negative amount shrinks the process; one that exceeds it wraps around and changes
        nothing; one that takes all of it unmaps every page and then fails. */
    method Sbrk(k: int) returns (r: nat, ok: bool)
      requires Valid()
      modifies this`brk, this`gone
      ensures r == old(brk)
      ensures ok <==> if k > 0 then old(brk) + k <= limit else old(brk) + k != 0
      ensures brk == if ok && old(brk) + k > 0 then old(brk) + k else old(brk)
      ensures gone <==> old(brk) + k == 0
      ensures k >= 0 || old(brk) + k < 0 ==> Valid()
      ensures !gone ==> ValidBelow(old(brk))
    {
      hide Covers, Gaps, ListOk;
      r, ok := brk, true;
      if k > 0 {
        if brk + k > limit { return brk, false; }
        brk := brk + k;
      } else if k < 0 && brk + k >= 0 {
        if brk + k == 0 {
          gone := true;
          return brk, false;
        }
        brk := brk + k;
      }
    }

    /** The program writes into a block it owns, behind the header. */
    method Store(a: nat, u: nat, x: Header)
      requires Valid() && a in Allocated() && a < u < a + blocks[a]
      modifies this`mem
      ensures Valid() && mem == old(mem)[u := x]
    {
      hide Covers, Gaps;
      assert u !in blocks && u != BASE;
      assert u !in order;
      GrowLinked(mem, order, u, x);
      mem := mem[u := x];
      hide Linked, BlocksOk, Ascending;
    }

    /** The end of morecore: a header for the region from p up to the break, which is then freed. */
    method Adopt(p: nat, nu: nat)
      requires ValidBelow(p) && ready && nu > 0 && brk == p + nu
      modifies this`mem, this`freep, this`order, this`blocks, this`heap
      ensures Valid() && ready && Allocated() == old(Allocated())
      ensures forall a :: a in Allocated() ==> blocks[a] == old(blocks[a])
      ensures heap == old(heap) + Range(p, nu) && Room(mem, order, nu)
    {
      hide HeapOk, Gaps, Covers, Room, Range;
      GrowKeeps(H(), p, nu, 0);
      RangeUnits(p, nu);
      mem := mem[p := Header(0, nu)];
      blocks, heap := blocks[p := nu], heap + Range(p, nu);
      Free(p);
    }

    /** A new region joins the free list.  The size in bytes is passed to sbrk as a signed int: unless that is
        positive, morecore takes what lies past the end of the process for its new region, and `safe` is false. */
    method Morecore(nunits: nat) returns (ok: bool, safe: bool)
      requires Valid() && ready && 0 < nunits <= UINT / UNIT
      modifies this`mem, this`freep, this`order, this`blocks, this`brk, this`gone, this`heap
      ensures safe <==> Delta(Request(nunits)) > 0
      ensures Valid() <==> safe
      ensures safe ==> ready && Allocated() == old(Allocated())
      ensures safe ==> forall a :: a in Allocated() ==> blocks[a] == old(blocks[a])
      ensures safe ==> ok == (old(brk) + Request(nunits) <= limit)
      ensures safe ==> brk == old(brk) + if ok then Request(nunits) else 0
      ensures safe && ok ==> brk == old(brk) + if nunits < 4096 then 4096 else nunits
      ensures safe ==> heap == old(heap) + Range(old(brk), brk - old(brk))
      ensures safe ==> if ok then Room(mem, order, nunits) else H() == old(H()) && freep == old(freep)
    {
      hide HeapOk, Gaps, Covers, Room, Range, Delta;
      var nu := nunits;
      if nu < 4096 { nu := 4096; }
      DeltaOf(nu);
      var p;
      safe := Delta(nu) > 0;
      p, ok := Sbrk(Delta(nu));
      if !ok { return; }
      if safe {
        Adopt(p, nu);
        RoomForLess(nu, nunits);
      } else {
        mem := mem[p := Header(0, nu)];
        blocks, heap := blocks[p := nu], heap + Range(p, nu);
        RangeStarts(p, nu);
        assert p in heap;
      }
    }

    lemma RoomForLess(more: nat, n: nat)
      requires Room(mem, order, more) && n <= more
      ensures Room(mem, order, n)
    {
    }

    /** The first call makes a list of base alone. */
    method Start()
      requires Valid()
      modifies this`mem, this`freep, this`ready, this`order
      ensures Valid() && ready && Allocated() == old(Allocated()) && blocks == old(blocks)
      ensures old(ready) ==> mem == old(mem) && order == old(order)
      ensures !old(ready) ==> mem == old(mem)[BASE := Header(BASE, 0)] && order == [BASE]
      ensures forall n :: n > 0 ==> (Room(mem, order, n) <==> Room(old(mem), old(order), n))
    {
      hide Covers;
      if !ready {
        mem, freep, ready, order := mem[BASE := Header(BASE, 0)], BASE, true, [BASE];
        assert Next(order, 0) == BASE;
      }
    }

    /** p is d steps past freep's successor on the circle, prevp is before it, and the headers passed are too small. */
    ghost predicate Walking(f: nat, d: nat, prevp: nat, p: nat, n: nat) reads this {
      && f < |order| && order[f] == freep && d < |order| && p == Ring(order, f)[d] && p in mem
      && prevp in order && prevp in mem && mem[prevp].ptr == p
      && forall e :: 0 <= e < d ==> Ring(order, f)[e] in mem && mem[Ring(order, f)[e]].size < n
    }

    lemma Begin() returns (f: nat)
      requires Valid() && ready
      ensures freep in mem && mem[freep].ptr in mem && f < |order| && order[f] == freep
      ensures forall n :: Walking(f, 0, freep, mem[freep].ptr, n)
    {
      hide BlocksOk, Gaps, Covers, Ring;
      f :| 0 <= f < |order| && order[f] == freep;
      RingLinks(mem, order, f, |order| - 1);
      RingLinks(mem, order, f, 0);
    }

    lemma Onward(f: nat, d: nat, prevp: nat, p: nat, n: nat)
      requires Valid() && ready && Walking(f, d, prevp, p, n) && mem[p].size < n && p != freep
      ensures mem[p].ptr in mem && d + 1 < |order| && Walking(f, d + 1, p, mem[p].ptr, n)
    {
      hide BlocksOk, Gaps, Covers, Ring;
      RingLinks(mem, order, f, d);
      RingLinks(mem, order, f, d + 1);
    }

    /** Back at freep without a fit, no listed block fits. */
    lemma FullCircle(f: nat, d: nat, prevp: nat, p: nat, n: nat)
      requires Valid() && ready && Walking(f, d, prevp, p, n) && mem[p].size < n && p == freep
      ensures !Room(mem, order, n)
    {
      hide BlocksOk, Gaps, Covers, Ring;
      RingLinks(mem, order, f, d);
      if Room(mem, order, n) {
        var a :| a in order && a in mem && mem[a].size >= n;
        RingCovers(order, f, a);
      }
    }

    /** The fit at p, which prevp leads to: its place in the list. */
    lemma Found(f: nat, d: nat, prevp: nat, p: nat, n: nat) returns (j: nat)
      requires Valid() && ready && Walking(f, d, prevp, p, n) && mem[p].size >= n > 0
      ensures j + 1 < |order| && order[j] == prevp && order[j + 1] == p && p in blocks && blocks[p] == mem[p].size
      ensures Ascending(order) && Room(mem, order, n)
    {
      hide BlocksOk, Gaps, Covers, Ring;
      j := Follows(mem, order, prevp);
      assert order[j + 1] in order;
    }

    /** A block of exactly n units leaves the list. */
    method TakeWhole(ghost j: nat, prevp: nat, p: nat, n: nat)
      requires Valid() && ready && j + 1 < |order| && order[j] == prevp && order[j + 1] == p && Ascending(order)
      requires p in mem && prevp in mem && p in blocks && blocks[p] == mem[p].size == n > 0
      modifies this`mem, this`freep, this`order
      ensures Valid() && freep == prevp && p !in old(Allocated()) && Allocated() == old(Allocated()) + {p}
    {
      hide HeapOk, Gaps, Covers;
      UnlinkKeeps(H(), brk, j);
      assert p in order;
      mem := mem[prevp := Header(mem[p].ptr, mem[prevp].size)];
      order := Del(order, j);
      freep := prevp;
    }

    /** The last n units of a larger block become a block of their own. */
    method TakeTail(ghost j: nat, prevp: nat, p: nat, n: nat) returns (r: nat)
      requires Valid() && ready && j + 1 < |order| && order[j] == prevp && order[j + 1] == p
      requires p in mem && p in blocks && blocks[p] == mem[p].size > n > 0
      modifies this`mem, this`freep, this`blocks
      ensures Valid() && freep == prevp && r == p + old(mem)[p].size - n
      ensures r !in old(Allocated()) && Allocated() == old(Allocated()) + {r} && blocks[r] == n
      ensures forall a :: a in old(Allocated()) ==> a in blocks && blocks[a] == old(blocks[a])
    {
      hide HeapOk, Gaps, Covers;
      r := p + (mem[p].size - n);
      var x := if r in mem then mem[r].ptr else 0;
      CutKeeps(H(), brk, j + 1, n, x);
      assert p in order && p !in Allocated();
      mem := mem[p := Header(mem[p].ptr, mem[p].size - n)][r := Header(x, n)];
      blocks := Split(blocks, p, n);
      freep := prevp;
    }

    /** Take a fitting block: all of it, or its tail. */
    method Take(ghost f: nat, ghost d: nat, prevp: nat, p: nat, n: nat) returns (r: nat)
      requires Valid() && ready && Walking(f, d, prevp, p, n) && mem[p].size >= n > 0
      modifies this`mem, this`freep, this`order, this`blocks
      ensures Valid() && ready && r !in old(Allocated()) && Allocated() == old(Allocated()) + {r} && blocks[r] == n
      ensures r == p + old(mem)[p].size - n && freep == prevp
      ensures forall a :: a in old(Allocated()) ==> a in blocks && blocks[a] == old(blocks[a])
    {
      ghost var j := Found(f, d, prevp, p, n);
      hide Valid;
      r := p;
      if mem[p].size == n {
        TakeWhole(j, prevp, p, n);
      } else {
        r := TakeTail(j, prevp, p, n);
      }
    }

    /** A block of Units(nbytes) units, disjoint from every other, or 0 when neither the free list
        nor sbrk has room.  The address is the one behind the header.  The heap stays in order unless the list has
        no room and the size asked of sbrk is not a positive int. */
    method Malloc(nbytes: nat) returns (r: nat, safe: bool)
      requires Valid() && nbytes < UINT
      modifies this
      ensures safe <==> Room(old(mem), old(order), Units(nbytes)) || Signed(Request(Units(nbytes)) * UNIT) > 0
      ensures Valid() <==> safe
      ensures safe ==> ready
      ensures safe && r != 0 ==>
        r - 1 !in old(Allocated()) && Allocated() == old(Allocated()) + {r - 1} && blocks[r - 1] == Units(nbytes)
      ensures safe ==> forall a :: a in old(Allocated()) ==> a in blocks && blocks[a] == old(blocks[a])
      ensures safe && r == 0 ==> Allocated() == old(Allocated())
      ensures safe ==> (r == 0 <==>
        !Room(old(mem), old(order), Units(nbytes)) && old(brk) + Request(Units(nbytes)) > limit)
      ensures safe ==> brk >= old(brk) && heap == old(heap) + Range(old(brk), brk - old(brk))
      ensures safe && brk > old(brk) ==>
        brk == old(brk) + Request(Units(nbytes)) && !Room(old(mem), old(order), Units(nbytes))
    {
      hide Gaps, Covers, HeapOk, Range, Valid, Walking, Room, Signed, Delta;
      var n := Units(nbytes);
      UnitsBound(nbytes);
      DeltaSign(Request(n));
      ghost var room := Room(mem, order, n);
      safe := true;
      Start();
      ghost var f := Begin();
      ghost var d := 0;
      var prevp := freep;
      var p := mem[prevp].ptr;
      while true
        invariant Valid() && ready && Walking(f, d, prevp, p, n) && p in mem && safe
        invariant d < |order|
        invariant Allocated() == old(Allocated())
        invariant forall a :: a in old(Allocated()) ==> a in blocks && blocks[a] == old(blocks[a])
        invariant brk >= old(brk) && (brk > old(brk) ==> brk <= limit && Delta(Request(n)) > 0)
        invariant heap == old(heap) + Range(old(brk), brk - old(brk))
        invariant if brk == old(brk) then Room(mem, order, n) <==>
          room else brk == old(brk) + Request(n) && !room && Room(mem, order, n)
        decreases if Room(mem, order, n) then 0 else 1, |order| - d
      {
        if mem[p].size >= n {
          ghost var j := Found(f, d, prevp, p, n);
          r := Take(f, d, prevp, p, n);
          r := r + 1;
          return;
        }
        if p == freep {
          FullCircle(f, d, prevp, p, n);
          var ok;
          ok, safe := Morecore(n);
          if !ok || !safe { return 0, safe; }
          p := freep;
          f := Begin();
          prevp, p, d := p, mem[p].ptr, 0;
        } else {
          Onward(f, d, prevp, p, n);
          prevp, p, d := p, mem[p].ptr, d + 1;
        }
      }
    }
  }

  /** malloc(0xFFFFFFFF) returns a block of one unit, which is all header ... */
  method HugeButEmpty() returns (a: Allocator, r: nat)
    ensures a.Valid() && r != 0 && r - 1 in a.Allocated() && r - 1 in a.blocks && a.blocks[r - 1] == 1
  {
    a := new Allocator(BASE + 1, 0x1000_0000);
    var safe;
    UnitsAt();
    r, safe := a.Malloc(0xFFFF_FFFF);
  }

  /** ... and malloc(0x80000000), the first call of all, spoils the heap. */
  method HugeSpoils() returns (a: Allocator, r: nat)
    ensures !a.Valid()
  {
    a := new Allocator(BASE + 1, 0x1000_0000);
    var safe;
    UnitsAt();
    r, safe := a.Malloc(0x8000_0000);
  }
}
