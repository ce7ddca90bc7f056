/** kalloc.c and the page-table code of vm.c as a class over physical memory. */
module VmCode {
  import opened VmModel

  /** The n pages from `first` on. */
  ghost function Pages(first: nat, n: nat): (s: set<nat>)
    ensures forall x :: x in s <==> first <= x < first + n
  {
    if n == 0 then {} else Pages(first, n - 1) + {first + n - 1}
  }

  /** PGROUNDUP, as a page number. */
  function Ceil(sz: nat): nat { (sz + PGSIZE - 1) / PGSIZE }

  /** The first page of the next table: PGADDR(PDX(a) + 1, 0, 0). */
  function NextTable(v: nat): (r: nat)
    ensures r > v
  {
    (v / NENTRIES + 1) * NENTRIES
  }

  lemma CeilAt(newsz: nat, oldsz: nat)
    requires newsz < oldsz <= UPAGES * PGSIZE
    ensures Ceil(newsz) <= Ceil(oldsz) <= UPAGES && Ceil(newsz) * PGSIZE / PGSIZE == Ceil(newsz)
      && Ceil(newsz) * PGSIZE % PGSIZE == 0
    ensures Ceil(newsz) * PGSIZE >= oldsz ==> Ceil(newsz) == Ceil(oldsz)
  {
  }

  lemma PageStep(a: nat, v: nat, sz: nat)
    requires a % PGSIZE == 0 && v == a / PGSIZE && a < sz <= UPAGES * PGSIZE
    ensures v < Ceil(sz) <= UPAGES && (a + PGSIZE) % PGSIZE == 0 && (a + PGSIZE) / PGSIZE == v + 1
    ensures a + PGSIZE >= sz ==> Ceil(sz) == v + 1
  {
  }

  lemma TableStep(a: nat, v: nat, sz: nat)
    requires a % PGSIZE == 0 && v == a / PGSIZE && a < sz <= UPAGES * PGSIZE
    ensures v < NextTable(v) == (v / NENTRIES + 1) * NENTRIES && NextTable(v) * PGSIZE >= a + PGSIZE
    ensures NextTable(v) * PGSIZE % PGSIZE == 0 && NextTable(v) * PGSIZE / PGSIZE == NextTable(v)
    ensures if NextTable(v) * PGSIZE < sz then NextTable(v) <= Ceil(sz) else Ceil(sz) <= NextTable(v)
  {
  }

  class Kernel {
    var freelist: seq<nat>
    var mem: Mem
    ghost var owner: Owner
    ghost const all: set<nat>     // the pages handed to kfree at boot
    const data: nat               // physical page of the kernel's data segment

    ghost predicate Valid() reads this {
      Pool(freelist, owner, all) && Consistent(mem, owner) && all <= mem.Keys && 0x100 < data < 0xE000
    }

    /** freerange: the pages first .. last - 1 are freed one by one. */
    constructor (first: nat, last: nat, data: nat)
      requires 0 < first <= last && 0x100 < data < 0xE000
      ensures Valid() && owner == map[] && all == Pages(first, last - first) && this.data == data
      ensures |freelist| == last - first
    {
      this.data := data;
      freelist, mem, owner, all := [], map[], map[], Pages(first, last - first);
      new;
      var p := first;
      while p < last
        invariant first <= p <= last && |freelist| == p - first && Pool(freelist, owner, Pages(first, p - first))
          && owner == map[] && Pages(first, p - first) <= mem.Keys
      {
        mem := mem[p := Junk];
        freelist := [p] + freelist;
        p := p + 1;
      }
    }

    method Kalloc() returns (x: nat)
      requires Valid()
      modifies this`freelist, this`owner
      ensures Valid()
      ensures old(freelist) == [] ==> x == 0 && freelist == [] && owner == old(owner)
      ensures old(freelist) != [] ==> x == old(freelist)[0] != 0 && freelist == old(freelist)[1..]
      ensures old(freelist) != [] ==> x !in old(owner) && owner == old(owner)[x := Held]
    {
      hide Consistent;
      if freelist == [] { return 0; }
      x := freelist[0];
      assert x in freelist;
      assert x !in freelist[1..] && forall y :: y in freelist ==> y == x || y in freelist[1..];
      HeldChange(mem, owner, owner[x := Held], x, mem[x]);
      assert mem[x := mem[x]] == mem;
      freelist := freelist[1..];
      owner := owner[x := Held];
    }

    method Kfree(x: nat)
      requires Pool(freelist, owner, all) && x in owner
      modifies this`freelist, this`owner, this`mem
      ensures Pool(freelist, owner, all) && freelist == [x] + old(freelist) && owner == old(owner) - {x}
        && mem == old(mem)[x := Junk]
    {
      mem := mem[x := Junk];
      freelist := [x] + freelist;
      owner := owner - {x};
    }

    /** walkpgdir: the table that holds the entry of virtual page v, or 0. */
    method Walk(d: nat, v: nat, alloc: bool) returns (t: nat)
      requires Valid() && IsDir(owner, d) && v < VPAGES
      modifies this`freelist, this`owner, this`mem
      ensures Valid() && TabsAdded(old(owner), owner, d)
      ensures !alloc ==> freelist == old(freelist) && owner == old(owner) && mem == old(mem)
      ensures t == 0 ==> !Entry(mem, d, v / NENTRIES).p && (alloc ==> freelist == []) && owner == old(owner)
      ensures t != 0 ==> Entry(mem, d, v / NENTRIES).p && t == Entry(mem, d, v / NENTRIES).pa
      ensures t != 0 ==> HasTable(mem, d, v) && t in owner
      ensures SameViews(old(mem), mem, old(owner)) && SameData(old(mem), mem, old(owner), owner)
      ensures t != 0 ==> TablesOver(old(mem), mem, d, v / NENTRIES, v / NENTRIES + 1)
      ensures t != 0 ==> |freelist| == |old(freelist)| - if Entry(old(mem), d, v / NENTRIES).p then 0 else 1
      ensures t == 0 ==> mem == old(mem) && freelist == old(freelist)
    {
      hide Pool, UsersOk, Lookup;
      var q := mem[d].e[v / NENTRIES];
      if q.p {
        t := q.pa;
        TableThere(mem, owner, d, v);
        AllPositive(t);
      } else {
        if !alloc { return 0; }
        t := Kalloc();
        if t == 0 { return; }
        NewTabKeeps(mem, owner, d, v / NENTRIES, t);
        mem := mem[t := Blank()];
        mem := Put(mem, d, v / NENTRIES, Pte(t, true, true, true));
        PoolRetag(freelist, owner, all, t, Tab(d, v / NENTRIES));
        owner := owner[t := Tab(d, v / NENTRIES)];
        TableThere(mem, owner, d, v);
      }
    }

    lemma AllPositive(x: nat)
      requires Pool(freelist, owner, all) && x in owner
      ensures x in all && x > 0
    {
    }

    /** The step of mappages for one page. */
    method MapOne(d: nat, v: nat, q: Pte) returns (ok: bool)
      requires Valid() && IsDir(owner, d) && v < VPAGES && !Lookup(mem, d, v).p && q.p
      requires v < UPAGES ==> Owns(owner, q.pa, Held) && q.pa in mem && mem[q.pa].Data?
      modifies this`freelist, this`owner, this`mem
      ensures Valid() && SameData(old(mem), mem, old(owner), owner)
      ensures ok ==> OneView(old(mem), mem, old(owner), d, v, q)
      ensures ok ==> TabsAdded(if v < UPAGES then old(owner)[q.pa := User(d, v)] else old(owner), owner, d)
      ensures !ok ==> SameViews(old(mem), mem, old(owner)) && owner == old(owner) && freelist == []
      ensures ok ==> TablesOver(old(mem), mem, d, v / NENTRIES, v / NENTRIES + 1)
      ensures ok ==> |freelist| == |old(freelist)| - if Entry(old(mem), d, v / NENTRIES).p then 0 else 1
      ensures !ok ==> !Entry(old(mem), d, v / NENTRIES).p && freelist == old(freelist)
    {
      hide Pool, UsersOk, Lookup, TabsOk, DirsOk;
      var t := Walk(d, v, true);
      if t == 0 { return false; }
      ghost var m := mem;
      if v < UPAGES {
        MapUserKeeps(mem, owner, d, v, q);
        PoolRetag(freelist, owner, all, q.pa, User(d, v));
        owner := owner[q.pa := User(d, v)];
      } else {
        MapKernelKeeps(mem, owner, d, v, q);
      }
      mem := Put(mem, t, v % NENTRIES, q);
      assert forall k: nat :: Entry(mem, d, k) == Entry(m, d, k);
      return true;
    }

    /** mappages: pages are mapped one after the other until memory runs out. */
    method Mappages(d: nat, va: nat, size: nat, pa: nat, w: bool, u: bool) returns (ok: bool, ghost m: nat)
      requires Valid() && IsDir(owner, d) && size > 0 && va + size <= VPAGES * PGSIZE && pa % PGSIZE == 0
      requires forall k :: va / PGSIZE <= k <= (va + size - 1) / PGSIZE ==> !Lookup(mem, d, k).p
      requires va / PGSIZE >= UPAGES || (va + size - 1) / PGSIZE == va / PGSIZE
      requires va / PGSIZE < UPAGES ==> Owns(owner, pa / PGSIZE, Held) && pa / PGSIZE in mem && mem[pa / PGSIZE].Data?
      modifies this`freelist, this`owner, this`mem
      ensures Valid() && SameData(old(mem), mem, old(owner), owner)
      ensures RangeView(old(mem), mem, old(owner), d, va / PGSIZE, va / PGSIZE + m, pa / PGSIZE, w, u)
      ensures m <= (va + size - 1) / PGSIZE + 1 - va / PGSIZE
        && (ok <==> m == (va + size - 1) / PGSIZE + 1 - va / PGSIZE)
      ensures !ok ==> freelist == []
      ensures va / PGSIZE >= UPAGES ==> TabsAdded(old(owner), owner, d)
      ensures va / PGSIZE < UPAGES ==>
        if ok then TabsAdded(old(owner)[pa / PGSIZE := User(d, va / PGSIZE)], owner, d) else owner == old(owner)
      ensures (var lo, hi := va / PGSIZE / NENTRIES, (va + size - 1) / PGSIZE / NENTRIES + 1;
        && (ok <==> Missing(old(mem), d, lo, hi) <= |old(freelist)|)
        && (ok ==>
            TablesOver(old(mem), mem, d, lo, hi) && |freelist| == |old(freelist)| - Missing(old(mem), d, lo, hi)))
    {
      hide Pool, Consistent, Lookup, Entry, TablesOver, Missing, Reached;
      var a, last, p := va / PGSIZE, (va + size - 1) / PGSIZE, pa / PGSIZE;
      ghost var lo, p0 := a, p;
      TablesSelf(mem, d, lo / NENTRIES);
      assert Reached(lo, lo) == lo / NENTRIES by { ReachedNone(lo); }
      while true
        invariant TablesOver(old(mem), mem, d, lo / NENTRIES, Reached(lo, a))
        invariant |freelist| + Missing(old(mem), d, lo / NENTRIES, Reached(lo, a)) == |old(freelist)|
        invariant lo <= a <= last && p == p0 + (a - lo)
        invariant Valid() && SameData(old(mem), mem, old(owner), owner) && TabsAdded(old(owner), owner, d)
        invariant RangeView(old(mem), mem, old(owner), d, lo, a, p0, w, u)
        invariant lo < UPAGES ==> a == lo && owner == old(owner) && mem == old(mem)
        decreases last - a
      {
        ghost var mid, midOwner := mem, owner;
        var done := MapOne(d, a, Pte(p, true, w, u));
        SameDataTwice(old(mem), mid, mem, old(owner), midOwner, owner);
        TablesEnd(old(mem), mid, d, lo, a, last);
        if !done {
          RangeSame(old(mem), mid, mem, old(owner), midOwner, d, lo, a, p0, w, u);
          return false, a - lo;
        }
        RangeMore(old(mem), mid, mem, old(owner), midOwner, d, lo, a, p0, w, u);
        TablesMore(old(mem), mid, mem, d, lo, a);
        if a == last { break; }
        a, p := a + 1, p + 1;
      }
      return true, last + 1 - lo;
    }

    /** deallocuvm: exactly the user pages of d from newsz up to oldsz are freed. */
    method Deallocuvm(d: nat, oldsz: nat, newsz: nat) returns (sz: nat)
      requires Valid() && IsDir(owner, d) && oldsz <= UPAGES * PGSIZE
      modifies this`freelist, this`owner, this`mem
      ensures Valid() && SameData(old(mem), mem, old(owner), owner)
      ensures newsz >= oldsz ==> sz == oldsz && freelist == old(freelist) && owner == old(owner) && mem == old(mem)
      ensures newsz < oldsz ==> sz == newsz && CutView(old(mem), mem, old(owner), d, Ceil(newsz), Ceil(oldsz))
      ensures newsz < oldsz ==> owner == CutOwner(old(owner), d, Ceil(newsz), Ceil(oldsz))
    {
      hide Pool, Lookup, Consistent, CutView, CutOwner, OneView, Entry, IsDir, HasTable, SameData, Ceil, NextTable;
      if newsz >= oldsz {
        SameDataSelf(mem, owner);
        return oldsz;
      }
      var a := Ceil(newsz) * PGSIZE;
      ghost var lo, hi := Ceil(newsz), Ceil(oldsz);
      CeilAt(newsz, oldsz);
      CutStart(mem, owner, d, lo);
      SameDataSelf(mem, owner);
      ghost var done := lo;
      while a < oldsz
        invariant a % PGSIZE == 0 && lo <= done <= hi && done == (if a < oldsz then a / PGSIZE else hi)
        invariant Valid() && SameData(old(mem), mem, old(owner), owner) && IsDir(owner, d)
        invariant CutView(old(mem), mem, old(owner), d, lo, done) && owner == CutOwner(old(owner), d, lo, done)
        decreases oldsz - a
      {
        var v := a / PGSIZE;
        PageStep(a, v, oldsz);
        TableStep(a, v, oldsz);
        var t := Walk(d, v, false);
        if t == 0 {
          forall k | v <= k < NextTable(v) ensures Lookup(mem, d, k) == NONE { GapEmpty(mem, d, v, k); }
          a := NextTable(v) * PGSIZE - PGSIZE;
          done := if NextTable(v) * PGSIZE < oldsz then NextTable(v) else hi;
          CutNothing(old(mem), mem, old(owner), owner, d, lo, v, done);
        } else {
          ghost var mid, midOwner := mem, owner;
          done := v + 1;
          FreePage(d, v, t);
          SameDataTwice(old(mem), mid, mem, old(owner), midOwner, owner);
          if Lookup(mid, d, v).p {
            CutOne(old(mem), mid, mem, old(owner), midOwner, d, lo, v);
          } else {
            CutNothing(old(mem), mem, old(owner), owner, d, lo, v, v + 1);
          }
        }
        a := a + PGSIZE;
        CutKeepsDir(old(owner), d, lo, done);
      }
      return newsz;
    }

    /** The step of deallocuvm for one page whose table is t. */
    method FreePage(d: nat, v: nat, t: nat)
      requires Valid() && IsDir(owner, d) && v < UPAGES && HasTable(mem, d, v) && t == Entry(mem, d, v / NENTRIES).pa
      modifies this`freelist, this`owner, this`mem
      ensures Valid() && SameData(old(mem), mem, old(owner), owner)
      ensures !Lookup(old(mem), d, v).p ==>
        Lookup(old(mem), d, v) == NONE && owner == old(owner) && mem == old(mem) && freelist == old(freelist)
      ensures Lookup(old(mem), d, v).p ==>
        OneView(old(mem), mem, old(owner), d, v, NONE) && owner == old(owner) - {Lookup(old(mem), d, v).pa}
    {
      hide Pool, Consistent;
      var q := mem[t].e[v % NENTRIES];
      if q.p {
        UnmapKeeps(mem, owner, d, v);
        assert q == Lookup(mem, d, v);
        assert Owns(owner, q.pa, User(d, v)) && Owns(owner, t, Tab(d, v / NENTRIES)) by { Mapped(d, v); }
        Kfree(q.pa);
        mem := Put(mem, t, v % NENTRIES, NONE);
      }
    }

    lemma Mapped(d: nat, v: nat)
      requires Consistent(mem, owner) && IsDir(owner, d) && v < UPAGES && Lookup(mem, d, v).p
      ensures Owns(owner, Lookup(mem, d, v).pa, User(d, v))
        && Owns(owner, Entry(mem, d, v / NENTRIES).pa, Tab(d, v / NENTRIES))
    {
    }

    lemma UserPages()
      requires Consistent(mem, owner)
      ensures forall x :: x in owner && owner[x].User? ==> owner[x].v < UPAGES
    {
      forall x | x in owner && owner[x].User? ensures owner[x].v < UPAGES {
        assert UserBack(mem, owner, x, owner[x].d, owner[x].v);
      }
    }

    lemma DirPage(d: nat)
      requires Consistent(mem, owner) && IsDir(owner, d)
      ensures IsTable(mem, d)
    {
    }

    /** The second loop of freevm: the table pages are freed.  The directory still points to them,
        but it is one no longer. */
    method FreeTables(d: nat)
      requires Valid() && IsDir(owner, d) && IsTable(mem, d)
      requires forall x :: x in owner && owner[x].User? ==> owner[x].d != d
      modifies this`freelist, this`owner, this`mem
      ensures Valid() && Owns(owner, d, Held)
      ensures owner == Retired(old(owner), d) - Tables(old(mem)[d].e, NENTRIES)
      ensures forall c: nat :: IsDir(old(owner), c) && c != d ==> IsDir(owner, c)
      ensures OtherViews(old(mem), mem, old(owner), d) && SameData(old(mem), mem, old(owner), owner)
    {
      hide Pool, Consistent, Tables, Lookup;
      RetireKeeps(mem, owner, d);
      PoolRetired(freelist, owner, all, d);
      owner := Retired(owner, d);
      ghost var o1 := owner;
      assert owner == o1 - Tables(mem[d].e, 0) by { NoTables(mem[d].e); }
      var i := 0;
      while i < NENTRIES
        invariant i <= NENTRIES && Valid() && d in mem && mem[d] == old(mem)[d] && Owns(owner, d, Held)
        invariant owner == o1 - Tables(mem[d].e, i)
        invariant forall c: nat :: IsDir(old(owner), c) && c != d ==> IsDir(owner, c)
        invariant OtherViews(old(mem), mem, old(owner), d) && SameData(old(mem), mem, old(owner), owner)
      {
        if mem[d].e[i].p {
          var x := mem[d].e[i].pa;
          FreshTable(old(mem), old(owner), d, i);
          ghost var m, o := mem, owner;
          Kfree(x);
          HeldChange(m, o, owner, x, Junk);
          HeldOthers(old(mem), m, mem, old(owner), o, d);
        } else {
          NotATable(mem[d].e, i);
        }
        i := i + 1;
      }
    }

    /** freevm: every page of d goes back to the free list, and nothing else does. */
    method Freevm(d: nat)
      requires Valid() && IsDir(owner, d)
      modifies this`freelist, this`owner, this`mem
      ensures Valid() && owner == Without(old(owner), d)
      ensures OtherViews(old(mem), mem, old(owner), d) && SameData(old(mem), mem, old(owner), owner)
    {
      hide Pool, Lookup, Entry, Tables, Consistent, OtherViews, Without;
      UserPages();
      var sz := Deallocuvm(d, UPAGES * PGSIZE, 0);
      CutOthers(old(mem), mem, old(owner), d, 0, UPAGES);
      ghost var m1, o1 := mem, owner;
      DirPage(d);
      AllReturned(mem, old(owner), owner, d);
      FreeTables(d);
      OthersTwice(old(mem), m1, mem, old(owner), o1, d);
      SameDataTwice(old(mem), m1, mem, old(owner), o1, owner);
      ghost var m2, o2 := mem, owner;
      Kfree(d);
      HeldChange(m2, o2, owner, d, Junk);
      HeldOthers(old(mem), m2, mem, old(owner), o2, d);
      SameDataTwice(old(mem), m2, mem, old(owner), o2, owner);
    }

    /** A fresh page with these contents is mapped at user page v of d, or is left in hand when there is
        no room for its table, or there is none. */
    method AddPage(d: nat, v: nat, page: Page, w: bool, u: bool) returns (ok: bool, x: nat)
      requires Valid() && IsDir(owner, d) && v < UPAGES && !Lookup(mem, d, v).p && page.Data?
      modifies this`freelist, this`owner, this`mem
      ensures Valid()
      ensures ok ==> x !in old(owner) && Grew(old(mem), mem, old(owner), owner, d, v, x, page, w, u)
      ensures !ok ==> x !in old(owner) && owner == if x == 0 then old(owner) else old(owner)[x := Held]
      ensures !ok ==> SameViews(old(mem), mem, old(owner)) && SameData(old(mem), mem, old(owner), owner)
      ensures 0 !in old(owner)
      ensures ok <==> |old(freelist)| >= 1 + if Entry(old(mem), d, v / NENTRIES).p then 0 else 1
      ensures ok ==> |freelist| == |old(freelist)| - 1 - if Entry(old(mem), d, v / NENTRIES).p then 0 else 1
      ensures ok ==> TablesOver(old(mem), mem, d, v / NENTRIES, v / NENTRIES + 1)
    {
      hide Consistent, Lookup, TablesOver, Missing;
      x := Kalloc();
      if x == 0 { return false, 0; }
      HeldChange(mem, owner, owner, x, page) by { assert owner == owner[x := Held]; }
      SameViewsLess(old(mem), mem[x := page], old(owner), owner);
      mem := mem[x := page];
      ghost var m1, o1 := mem, owner;
      ghost var m: nat;
      assert v * PGSIZE / PGSIZE == v && (v * PGSIZE + PGSIZE - 1) / PGSIZE == v;
      SameTables(old(mem), mem, d, x, page);
      MissingOne(mem, d, v / NENTRIES, v / NENTRIES);
      ok, m := Mappages(d, v * PGSIZE, PGSIZE, x * PGSIZE, w, u);
      if ok { TablesFrom(old(mem), m1, mem, d, v / NENTRIES, v / NENTRIES + 1); }
      if ok {
        GrewBy(old(mem), m1, mem, old(owner), owner, d, v, x, page, w, u);
      } else {
        NoneMapped(m1, mem, o1, d, v, x, w, u);
        SameViewsTwice(old(mem), m1, mem, old(owner), o1);
      }
    }

    /** allocuvm: zeroed fresh pages from oldsz up to newsz, or no page at all. */
    method Allocuvm(d: nat, oldsz: nat, newsz: nat) returns (sz: nat)
      requires Valid() && IsDir(owner, d)
      requires oldsz <= newsz < UPAGES * PGSIZE ==> forall k :: Ceil(oldsz) <= k < Ceil(newsz) ==> !Lookup(mem, d, k).p
      modifies this`freelist, this`owner, this`mem
      ensures Valid() && SameData(old(mem), mem, old(owner), owner)
      ensures newsz >= UPAGES * PGSIZE ==>
        sz == 0 && freelist == old(freelist) && owner == old(owner) && mem == old(mem)
      ensures newsz < oldsz && newsz < UPAGES * PGSIZE ==>
        sz == oldsz && freelist == old(freelist) && owner == old(owner) && mem == old(mem)
      ensures oldsz <= newsz < UPAGES * PGSIZE ==> sz == newsz || sz == 0
      ensures oldsz <= newsz < UPAGES * PGSIZE && sz == newsz ==>
        Grown(old(mem), mem, old(owner), owner, d, Ceil(oldsz), Ceil(newsz))
      ensures oldsz <= newsz < UPAGES * PGSIZE && sz != newsz ==>
        SameViews(old(mem), mem, old(owner)) && TabsAdded(old(owner), owner, d)
      ensures oldsz <= newsz < UPAGES * PGSIZE ==>
        (sz == newsz <==> Cost(old(mem), d, Ceil(oldsz), Ceil(newsz)) <= |old(freelist)|)
    {
      hide Pool, Consistent, Lookup, Grown, Grew, SameViews, CutView, TablesOver, Cost, Reached, Entry;
      if newsz >= UPAGES * PGSIZE { return 0; }
      if newsz < oldsz { return oldsz; }
      var a := Ceil(oldsz) * PGSIZE;
      ghost var lo := Ceil(oldsz);
      GrownStart(mem, owner, d, lo);
      NotOwned(mem, owner, d, lo, Ceil(newsz));
      CostStart(mem, d, lo);
      while a < newsz
        invariant TablesOver(old(mem), mem, d, lo / NENTRIES, Reached(lo, a / PGSIZE))
        invariant |freelist| + Cost(old(mem), d, lo, a / PGSIZE) == |old(freelist)|
        invariant a % PGSIZE == 0 && lo <= a / PGSIZE && (a / PGSIZE <= Ceil(newsz) || a / PGSIZE == lo)
        invariant Valid() && IsDir(owner, d) && Grown(old(mem), mem, old(owner), owner, d, lo, a / PGSIZE)
      {
        var v := a / PGSIZE;
        ghost var m1, o1 := mem, owner;
        GrownOutside(old(mem), mem, old(owner), owner, d, lo, v, v);
        CostMore(old(mem), mem, d, lo, v);
        CostGrows(old(mem), d, lo, v + 1, Ceil(newsz));
        var ok, x := AddPage(d, v, Zeros(), true, true);
        if !ok {
          ghost var m2, o2 := mem, owner;
          GrownData(old(mem), m1, m2, old(owner), o1, o2, d, lo, v);
          var r := Deallocuvm(d, newsz, oldsz);
          BackViews(old(mem), m1, m2, mem, old(owner), o1, o2, d, lo, v, Ceil(newsz));
          BackOwner(old(mem), m1, old(owner), o1, o2, d, lo, v, Ceil(newsz), x);
          SameDataTwice(old(mem), m2, mem, old(owner), o2, owner);
          if x != 0 {
            ghost var m3, o3 := mem, owner;
            Kfree(x);
            HeldChange(m3, o3, owner, x, Junk);
            SameViewsTwice(old(mem), m3, mem, old(owner), o3);
            Junked(m3, o3, x);
            SameDataTwice(old(mem), m3, mem, old(owner), o3, owner);
          }
          return 0;
        }
        GrownMore(old(mem), m1, mem, old(owner), o1, owner, d, lo, v, x);
        TablesNext(old(mem), m1, mem, d, lo, v);
        a := a + PGSIZE;
      }
      GrownData(old(mem), mem, mem, old(owner), owner, owner, d, lo, a / PGSIZE);
      CostGrows(old(mem), d, lo, Ceil(newsz), a / PGSIZE);
      return newsz;
    }

    /** An empty directory. */
    method NewDirectory() returns (d: nat)
      requires Valid()
      modifies this`freelist, this`owner, this`mem
      ensures Valid() && SameViews(old(mem), mem, old(owner)) && SameData(old(mem), mem, old(owner), owner)
      ensures d == 0 ==> owner == old(owner)
      ensures d != 0 ==> Added(old(owner), owner, d) && NoPages(mem, d)
      ensures d == 0 <==> old(freelist) == []
      ensures d != 0 ==> |freelist| == |old(freelist)| - 1 && forall k: nat :: !Entry(mem, d, k).p
    {
      hide Consistent, Lookup;
      d := Kalloc();
      if d == 0 { return; }
      NewDir(mem, owner, d);
      SameViewsLess(mem, mem[d := Blank()], old(owner), owner);
      mem := mem[d := Blank()];
      PoolRetag(freelist, owner, all, d, Dir);
      owner := owner[d := Dir];
    }

    /** setupkvm: a directory with exactly the kernel's mappings, or everything as it was. */
    method Setupkvm() returns (d: nat)
      requires Valid()
      modifies this`freelist, this`owner, this`mem
      ensures Valid() && SameViews(old(mem), mem, old(owner)) && SameData(old(mem), mem, old(owner), owner)
      ensures d == 0 ==> owner == old(owner)
      ensures d != 0 ==> Added(old(owner), owner, d) && KernelBelow(mem, data, d, VPAGES)
      ensures d != 0 <==> |old(freelist)| >= 65
      ensures d != 0 ==> |freelist| == |old(freelist)| - 65 && forall k: nat :: Entry(mem, d, k).p <==> KernelTable(k)
    {
      hide Pool, Consistent, Lookup, SameViews, KmapRows, Bound, Kmap, Without, Entry, TablesOver, Missing, TablesOf,
          RowTables;
      d := NewDirectory();
      if d == 0 { return; }
      assert KernelBelow(mem, data, d, Bound(data, 0)) by { NoRows(d); }
      NoRowTables(mem, d, data);
      var i := 0;
      while i < 4
        invariant i <= 4 && Valid() && Added(old(owner), owner, d) && KernelBelow(mem, data, d, Bound(data, i))
        invariant TablesOf(mem, d, data, i) && |freelist| + 1 + RowTables(data, i) == |old(freelist)|
        invariant SameViews(old(mem), mem, old(owner)) && SameData(old(mem), mem, old(owner), owner)
      {
        var r := KmapRow(i);
        RowBounds(data, i);
        RowTableBounds(data, i);
        ghost var m1, o1 := mem, owner;
        ghost var lo, hi := r.virt / PGSIZE / NENTRIES, (r.virt + (r.end - r.start) % WORD - 1) / PGSIZE / NENTRIES + 1;
        RowMissing(mem, d, data, i, lo, hi);
        ghost var m: nat;
        var ok;
        ok, m := Mappages(d, r.virt, (r.end - r.start) % WORD, r.start, r.w, false);
        AddedTabs(old(owner), o1, owner, d);
        RowOthers(m1, mem, old(owner), o1, d, r.virt / PGSIZE, r.virt / PGSIZE + m, r.start / PGSIZE, r.w, false);
        SameViewsTwice(old(mem), m1, mem, old(owner), old(owner));
        SameDataTwice(old(mem), m1, mem, old(owner), o1, owner);
        if !ok {
          ghost var m2, o2 := mem, owner;
          Freevm(d);
          AddedWithout(old(mem), old(owner), o2, d);
          OthersAll(old(mem), m2, mem, old(owner), o2, d);
          SameDataTwice(old(mem), m2, mem, old(owner), o2, owner);
          return 0;
        }
        RowMapped(m1, mem, o1, data, d, i);
        RowTablesMapped(m1, mem, d, data, i, lo, hi);
        i := i + 1;
      }
      LastBound(data);
      LastTables(mem, d, data);
    }

    function KmapRow(i: nat): (r: KRow)
      requires i < 4
      ensures r == KmapRows(data)[i]
    {
      KmapRows(data)[i]
    }

    lemma NoRows(d: nat)
      requires NoPages(mem, d)
      ensures KernelBelow(mem, data, d, Bound(data, 0))
    {
      hide Lookup;
      forall k: nat ensures Lookup(mem, d, k) == if k < Bound(data, 0) then Kmap(data, k) else NONE {}
    }

    /** walkpgdir and a read of the entry, which must be present. */
    method ReadPte(d: nat, v: nat) returns (q: Pte)
      requires Valid() && IsDir(owner, d) && v < VPAGES && Lookup(mem, d, v).p
      modifies this`freelist, this`owner, this`mem
      ensures Valid() && q == Lookup(mem, d, v) && freelist == old(freelist) && owner == old(owner) && mem == old(mem)
    {
      hide Pool, Consistent;
      var t := Walk(d, v, false);
      q := mem[t].e[v % NENTRIES];
    }

    /** copyuvm: a new address space with equal contents and flags on fresh pages, or everything as it was. */
    method Copyuvm(d: nat, sz: nat) returns (c: nat)
      requires Valid() && IsDir(owner, d) && sz <= KERNBASE && forall k :: 0 <= k < Ceil(sz) ==> Lookup(mem, d, k).p
      modifies this`freelist, this`owner, this`mem
      ensures Valid()
      ensures c != 0 ==> Copied(old(mem), mem, old(owner), owner, d, c, data, Ceil(sz))
      ensures c == 0 ==>
        owner == old(owner) && SameViews(old(mem), mem, old(owner)) && SameData(old(mem), mem, old(owner), owner)
      ensures c != 0 <==> |old(freelist)| >= 65 + Ceil(sz) + TabCount(Ceil(sz))
    {
      hide Pool, Consistent, Lookup, SameViews, SameData, KernelBelow, Copied, Grew, Without, Added;
      hide Entry, TablesOver, CopyTables, TabCount, KernelTable;
      c := Setupkvm();
      if c == 0 { return; }
      CopyTablesStart(mem, c);
      CopiedStart(old(mem), mem, old(owner), owner, d, c, data);
      var i := 0;
      while i < sz
        invariant i % PGSIZE == 0 && (i < sz || i / PGSIZE == Ceil(sz))
        invariant Valid() && Copied(old(mem), mem, old(owner), owner, d, c, data, i / PGSIZE)
        invariant CopyTables(mem, c, i / PGSIZE)
        invariant |freelist| + 65 + i / PGSIZE + TabCount(i / PGSIZE) == |old(freelist)|
      {
        var v := i / PGSIZE;
        CopyTablesMore(mem, c, v);
        TabCountGrows(v + 1, Ceil(sz));
        CopiedNext(old(mem), mem, old(owner), owner, d, c, data, v);
        var q := ReadPte(d, v);
        ghost var m1, o1 := mem, owner;
        var ok, x := AddPage(c, v, mem[q.pa], q.w, q.u);
        if !ok {
          if x != 0 {
            ghost var m2, o2 := mem, owner;
            Kfree(x);
            HeldChange(m2, o2, owner, x, Junk);
            KeptBack(m1, m2, mem, o1, o2, owner, x);
          }
          CopyFailed(old(mem), m1, mem, old(owner), o1, owner, d, c, data, v);
          ghost var m3, o3 := mem, owner;
          AddedWithout(old(mem), old(owner), o3, c);
          AddedDir(old(owner), o3, c);
          Freevm(c);
          OthersAll(old(mem), m3, mem, old(owner), o3, c);
          SameDataTwice(old(mem), m3, mem, old(owner), o3, owner);
          return 0;
        }
        CopiedMore(old(mem), m1, mem, old(owner), o1, owner, d, c, data, v, x);
        CopyTablesNext(m1, mem, c, v);
        i := i + PGSIZE;
      }
    }

    /** uva2ka: the page behind a user page of d, 0 where there is none open to user code.  Where walkpgdir
        finds no table the source reads through its null answer: `found` is false there. */
    method Uva2ka(d: nat, v: nat) returns (found: bool, pa: nat)
      requires Valid() && IsDir(owner, d) && v < VPAGES && (v >= UPAGES ==> !Lookup(mem, d, v).u)
      modifies this`freelist, this`owner, this`mem
      ensures Valid() && freelist == old(freelist) && owner == old(owner) && mem == old(mem)
      ensures found <==> Entry(mem, d, v / NENTRIES).p
      ensures pa == if Lookup(mem, d, v).p && Lookup(mem, d, v).u then Lookup(mem, d, v).pa else 0
      ensures pa != 0 <==> Lookup(mem, d, v).p && Lookup(mem, d, v).u
    {
      hide Pool, Consistent;
      var t := Walk(d, v, false);
      if t == 0 { return false, 0; }
      var q := mem[t].e[v % NENTRIES];
      if q.p && q.u {
        assert q == Lookup(mem, d, v);
        Mapped(d, v);
        AllPositive(q.pa);
        return true, q.pa;
      }
      return true, 0;
    }

    /** copyout, called with any user address: the bytes arrive in the user memory of d up to the first that is
        not open to user code, and no other byte of any address space changes.  That byte makes it return -1,
        or, if it has no table, read through a null pointer. */
    method Copyout(d: nat, va0: nat, p: seq<nat>) returns (r: CopyResult, ghost w: nat)
      requires Valid() && IsDir(owner, d) && va0 < WORD && Closed(mem, d)
      modifies this`freelist, this`owner, this`mem
      ensures Valid() && freelist == old(freelist) && owner == old(owner) && SameViews(old(mem), mem, owner)
      ensures w <= |p| && Wrote(old(mem), mem, owner, d, va0, p[..w])
      ensures forall a: nat :: va0 <= a < va0 + w ==> UserByte(old(mem), d, a) >= 0
      ensures w < |p| ==> UserByte(old(mem), d, va0 + w) == -1
      ensures r.Done? <==> w == |p|
      ensures r.NullRead? <==> exists b: nat :: va0 <= b < va0 + |p| && Bare(old(mem), d, va0, b)
    {
      hide Pool, Consistent, Lookup, Entry, SameViews, Wrote, Splice, Bare, Closed;
      var va, i := va0, 0;
      DirPage(d);
      WroteNone(mem, owner, d, va0);
      SameViewsSelf(mem, owner);
      while i < |p|
        invariant i <= |p| && (i < |p| ==> va == va0 + i < WORD) && d in mem && mem[d] == old(mem)[d]
        invariant Valid() && freelist == old(freelist) && owner == old(owner) && SameViews(old(mem), mem, owner)
        invariant Wrote(old(mem), mem, owner, d, va0, p[..i])
        invariant forall a: nat :: va0 <= a < va0 + i ==> UserByte(old(mem), d, a) >= 0
        decreases |p| - i
      {
        var v := va / PGSIZE;
        StillReachable(old(mem), mem, owner, d, v);
        SeenSame(old(mem), mem, owner, d, va0, p[..i]);
        ClosedAt(old(mem), d, v);
        var found, pa := Uva2ka(d, v);
        NotOpen(mem, d, va);
        if pa == 0 {
          BareExactly(old(mem), d, va0, |p|, i);
          return if found then Denied else NullRead, i;
        }
        var n := PGSIZE - va % PGSIZE;
        if n > |p| - i { n := |p| - i; }
        ghost var m := mem;
        PokeKeeps(mem, owner, d, va, p[i..i + n]);
        mem := mem[pa := Data(Splice(mem[pa].bytes, va % PGSIZE, p[i..i + n]))];
        WroteMore(old(mem), m, mem, owner, d, va0, p[..i], p[i..i + n]);
        assert p[..i] + p[i..i + n] == p[..i + n];
        SameViewsTwice(old(mem), m, mem, owner, owner);
        i, va := i + n, v * PGSIZE + PGSIZE;
      }
      BareExactly(old(mem), d, va0, |p|, |p|);
      return Done, |p|;
    }
  }

  /** copyout's 0 and -1, and the read through the null answer of walkpgdir. */
  datatype CopyResult = Done | Denied | NullRead

  /** A one-byte copyout to address 0x40000000 of a fresh address space: there is no table there. */
  method CopyoutToNowhere() returns (r: CopyResult)
    ensures r == NullRead
  {
    var k := new Kernel(0x400, 0x500, 0x200);
    var d := k.Setupkvm();
    KernelClosed(k.mem, k.data, d);
    ghost var w;
    assert DirIndex(0x4000_0000) == 256 && !KernelTable(256);
    assert Bare(k.mem, d, 0x4000_0000, 0x4000_0000);
    r, w := k.Copyout(d, 0x4000_0000, [7]);
  }
}
