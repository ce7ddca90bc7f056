/** Page tables and physical pages, as kept by vm.c and kalloc.c.  Pages are numbered by physical
    page number, virtual pages by virtual page number. */
module VmModel {
  const NENTRIES: nat := 1024
  const PGSIZE: nat := 4096
  const UPAGES: nat := 0x80000      // KERNBASE / PGSIZE
  const VPAGES: nat := 0x100000

  datatype Pte = Pte(pa: nat, p: bool, w: bool, u: bool)
  const NONE := Pte(0, false, false, false)

  type Frame = s: seq<nat> | |s| == PGSIZE witness seq(PGSIZE, i => 0)

  /** What a physical page holds.  Kfree fills a page with junk. */
  datatype Page = Table(e: seq<Pte>) | Data(bytes: Frame) | Junk

  /** Why a page is not on the free list: it is a page directory, the table behind entry i of
      directory d, the page mapped at virtual page v of d, or in some other kernel hand. */
  datatype Slot = Dir | Tab(d: nat, i: nat) | User(d: nat, v: nat) | Held

  type Mem = map<nat, Page>
  type Owner = map<nat, Slot>

  // ---------------------------------------------------------------- reading tables

  /** Entry i of table page t, if present. */
  function Entry(mem: Mem, t: nat, i: nat): Pte {
    if t in mem && mem[t].Table? && i < |mem[t].e| && mem[t].e[i].p then mem[t].e[i] else NONE
  }

  /** The two-level walk, seen as a flat map from virtual pages. */
  function Lookup(mem: Mem, d: nat, v: nat): Pte {
    var q := Entry(mem, d, v / NENTRIES);
    if q.p then Entry(mem, q.pa, v % NENTRIES) else NONE
  }

  ghost predicate IsTable(mem: Mem, t: nat) { t in mem && mem[t].Table? && |mem[t].e| == NENTRIES }
  ghost predicate IsDir(owner: Owner, d: nat) { d in owner && owner[d] == Dir }
  ghost predicate Owns(owner: Owner, x: nat, s: Slot) { x in owner && owner[x] == s }

  /** Table t with entry i replaced. */
  function Put(mem: Mem, t: nat, i: nat, q: Pte): Mem
    requires t in mem && mem[t].Table? && i < |mem[t].e|
  {
    mem[t := Table(mem[t].e[i := q])]
  }

  function Blank(): Page { Table(seq(NENTRIES, i => NONE)) }

  // ---------------------------------------------------------------- the invariant

  /** Each page is on the free list, once, or owned, not both. */
  ghost predicate Pool(free: seq<nat>, owner: Owner, all: set<nat>) {
    && (forall i, j :: 0 <= i < j < |free| ==> free[i] != free[j])
    && (forall x :: x in all <==> x in free || x in owner)
    && (forall x :: x in free ==> x !in owner)
    && 0 !in all
  }

  lemma PoolRetag(free: seq<nat>, owner: Owner, all: set<nat>, x: nat, s: Slot)
    requires Pool(free, owner, all) && x in owner
    ensures Pool(free, owner[x := s], all)
  {
  }

  ghost predicate DirsOk(mem: Mem, owner: Owner) { forall d :: IsDir(owner, d) ==> IsTable(mem, d) }

  /** A present directory entry leads to a table owned through that very entry, and conversely. */
  ghost predicate TabsOk(mem: Mem, owner: Owner) {
    && (forall d: nat, i: nat {:trigger Entry(mem, d, i)} :: IsDir(owner, d) && Entry(mem, d, i).p ==>
          Owns(owner, Entry(mem, d, i).pa, Tab(d, i)) && IsTable(mem, Entry(mem, d, i).pa))
    && (forall x :: x in owner && owner[x].Tab? ==> TabBack(mem, owner, x, owner[x].d, owner[x].i))
  }

  ghost predicate TabBack(mem: Mem, owner: Owner, x: nat, d: nat, i: nat) {
    IsDir(owner, d) && i < NENTRIES && Entry(mem, d, i).p && Entry(mem, d, i).pa == x
  }

  /** A present user entry leads to a page owned through that very entry, and conversely. */
  ghost predicate UsersOk(mem: Mem, owner: Owner) {
    && (forall d: nat, v: nat {:trigger Lookup(mem, d, v)} :: IsDir(owner, d) && v < UPAGES && Lookup(mem, d, v).p ==>
          Owns(owner, Lookup(mem, d, v).pa, User(d, v)))
    && (forall x :: x in owner && owner[x].User? ==> UserBack(mem, owner, x, owner[x].d, owner[x].v))
  }

  ghost predicate UserBack(mem: Mem, owner: Owner, x: nat, d: nat, v: nat) {
    IsDir(owner, d) && v < UPAGES && Lookup(mem, d, v).p && Lookup(mem, d, v).pa == x && x in mem && mem[x].Data?
  }

  ghost predicate Consistent(mem: Mem, owner: Owner) { DirsOk(mem, owner) && TabsOk(mem, owner) && UsersOk(mem, owner) }

  // ---------------------------------------------------------------- what the updates do to lookups

  /** Every directory of `owner` looks the same in both memories. */
  ghost predicate SameViews(mem: Mem, mem': Mem, owner: Owner) {
    forall d: nat, v: nat {:trigger Lookup(mem', d, v)} :: IsDir(owner, d) ==> Lookup(mem', d, v) == Lookup(mem, d, v)
  }

  ghost predicate NoPages(mem: Mem, d: nat) { forall v: nat :: Lookup(mem, d, v) == NONE }

  /** Writing a page that is neither a directory nor a table changes no view. */
  lemma PlainWrite(mem: Mem, owner: Owner, x: nat, page: Page)
    requires DirsOk(mem, owner) && TabsOk(mem, owner) && (x in owner ==> !owner[x].Dir? && !owner[x].Tab?)
    ensures DirsOk(mem[x := page], owner) && TabsOk(mem[x := page], owner) && SameViews(mem, mem[x := page], owner)
  {
    var mem' := mem[x := page];
    forall d: nat, i: nat | IsDir(owner, d) ensures Entry(mem', d, i) == Entry(mem, d, i) {}
    forall d: nat, v: nat | IsDir(owner, d) ensures Lookup(mem', d, v) == Lookup(mem, d, v) {
      assert Entry(mem', d, v / NENTRIES) == Entry(mem, d, v / NENTRIES);
    }
  }

  lemma HeldUsers(mem: Mem, owner: Owner, owner': Owner, x: nat, page: Page)
    requires UsersOk(mem, owner) && SameViews(mem, mem[x := page], owner) && (x in owner ==> owner[x] == Held)
    requires owner' == owner[x := Held] || owner' == owner - {x}
    ensures UsersOk(mem[x := page], owner')
  {
    var mem' := mem[x := page];
    hide Lookup;
    forall d: nat, v: nat | IsDir(owner', d) && v < UPAGES && Lookup(mem', d, v).p
      ensures Owns(owner', Lookup(mem', d, v).pa, User(d, v))
    {
      assert IsDir(owner, d) && Lookup(mem', d, v) == Lookup(mem, d, v);
    }
    forall y | y in owner' && owner'[y].User? ensures UserBack(mem', owner', y, owner'[y].d, owner'[y].v) {
      assert UserBack(mem, owner, y, owner[y].d, owner[y].v);
    }
  }

  lemma HeldTabs(mem: Mem, owner: Owner, owner': Owner, x: nat)
    requires TabsOk(mem, owner) && (x in owner ==> owner[x] == Held)
    requires owner' == owner[x := Held] || owner' == owner - {x}
    ensures TabsOk(mem, owner')
  {
    hide Entry;
    forall d: nat, i: nat | IsDir(owner', d) && Entry(mem, d, i).p
      ensures Owns(owner', Entry(mem, d, i).pa, Tab(d, i)) && IsTable(mem, Entry(mem, d, i).pa)
    {
      assert IsDir(owner, d);
    }
    forall y | y in owner' && owner'[y].Tab? ensures TabBack(mem, owner', y, owner'[y].d, owner'[y].i) {
      assert TabBack(mem, owner, y, owner[y].d, owner[y].i);
    }
  }

  /** A held page changes hands or leaves: nothing the tables say depends on it. */
  lemma HeldChange(mem: Mem, owner: Owner, owner': Owner, x: nat, page: Page)
    requires Consistent(mem, owner) && (x in owner ==> owner[x] == Held)
    requires owner' == owner[x := Held] || owner' == owner - {x}
    ensures Consistent(mem[x := page], owner') && SameViews(mem, mem[x := page], owner)
  {
    hide TabsOk, UsersOk, SameViews;
    PlainWrite(mem, owner, x, page);
    HeldTabs(mem[x := page], owner, owner', x);
    HeldUsers(mem, owner, owner', x, page);
  }

  // A held page becomes an empty page directory.

  lemma NewDir(mem: Mem, owner: Owner, x: nat)
    requires Consistent(mem, owner) && Owns(owner, x, Held)
    ensures Consistent(mem[x := Blank()], owner[x := Dir]) && SameViews(mem, mem[x := Blank()], owner)
    ensures NoPages(mem[x := Blank()], x)
  {
    var mem', owner' := mem[x := Blank()], owner[x := Dir];
    HeldChange(mem, owner, owner[x := Held], x, Blank());
    assert owner[x := Held] == owner;
    forall i: nat ensures Entry(mem', x, i) == NONE {}
    NewDirTabs(mem', owner, x);
    NewDirUsers(mem', owner, x);
  }

  lemma NewDirTabs(mem: Mem, owner: Owner, x: nat)
    requires TabsOk(mem, owner) && Owns(owner, x, Held) && forall i: nat :: Entry(mem, x, i) == NONE
    ensures TabsOk(mem, owner[x := Dir])
  {
    hide Entry;
    var owner' := owner[x := Dir];
    forall d: nat, i: nat | IsDir(owner', d) && Entry(mem, d, i).p
      ensures Owns(owner', Entry(mem, d, i).pa, Tab(d, i)) && IsTable(mem, Entry(mem, d, i).pa)
    {
      assert IsDir(owner, d);
    }
    forall y | y in owner' && owner'[y].Tab? ensures TabBack(mem, owner', y, owner'[y].d, owner'[y].i) {
      assert TabBack(mem, owner, y, owner[y].d, owner[y].i);
    }
  }

  lemma NewDirUsers(mem: Mem, owner: Owner, x: nat)
    requires UsersOk(mem, owner) && Owns(owner, x, Held) && forall i: nat :: Entry(mem, x, i) == NONE
    ensures UsersOk(mem, owner[x := Dir]) && NoPages(mem, x)
  {
    var owner' := owner[x := Dir];
    forall v: nat ensures Lookup(mem, x, v) == NONE {}
    hide Lookup;
    forall d: nat, v: nat | IsDir(owner', d) && v < UPAGES && Lookup(mem, d, v).p
      ensures Owns(owner', Lookup(mem, d, v).pa, User(d, v))
    {
      assert IsDir(owner, d);
    }
    forall y | y in owner' && owner'[y].User? ensures UserBack(mem, owner', y, owner'[y].d, owner'[y].v) {
      assert UserBack(mem, owner, y, owner[y].d, owner[y].v);
    }
  }

  // A held page becomes an empty table behind an absent directory entry.

  ghost function NewTab(mem: Mem, d: nat, i: nat, x: nat): Mem
    requires IsTable(mem, d) && i < NENTRIES && x != d
  {
    Put(mem[x := Blank()], d, i, Pte(x, true, true, true))
  }

  ghost function NewTabEntry(mem: Mem, d: nat, i: nat, x: nat, t: nat, k: nat): Pte {
    if t == d && k == i then Pte(x, true, true, true) else if t == x then NONE else Entry(mem, t, k)
  }

  lemma NewTabEntries(mem: Mem, d: nat, i: nat, x: nat)
    requires IsTable(mem, d) && i < NENTRIES && x != d
    ensures forall t: nat, k: nat :: Entry(NewTab(mem, d, i, x), t, k) == NewTabEntry(mem, d, i, x, t, k)
    ensures IsTable(NewTab(mem, d, i, x), x) && forall t :: IsTable(mem, t) ==> IsTable(NewTab(mem, d, i, x), t)
  {
  }

  lemma NewTabTabs(mem: Mem, owner: Owner, d: nat, i: nat, x: nat)
    requires DirsOk(mem, owner) && TabsOk(mem, owner) && IsDir(owner, d) && i < NENTRIES && !Entry(mem, d, i).p
      && Owns(owner, x, Held)
    ensures DirsOk(NewTab(mem, d, i, x), owner[x := Tab(d, i)]) && TabsOk(NewTab(mem, d, i, x), owner[x := Tab(d, i)])
  {
    var mem', owner' := NewTab(mem, d, i, x), owner[x := Tab(d, i)];
    NewTabEntries(mem, d, i, x);
    hide Entry, NewTab, IsTable;
    forall c: nat ensures IsDir(owner', c) <==> IsDir(owner, c) {}
    forall c: nat, k: nat | IsDir(owner', c) && Entry(mem', c, k).p
      ensures Owns(owner', Entry(mem', c, k).pa, Tab(c, k)) && IsTable(mem', Entry(mem', c, k).pa)
    {
      if c != d || k != i { assert Entry(mem, c, k) == Entry(mem', c, k); }
    }
    forall y | y in owner' && owner'[y].Tab? ensures TabBack(mem', owner', y, owner'[y].d, owner'[y].i) {
      if y != x { assert TabBack(mem, owner, y, owner[y].d, owner[y].i); }
    }
  }

  lemma NewTabViews(mem: Mem, owner: Owner, d: nat, i: nat, x: nat)
    requires DirsOk(mem, owner) && TabsOk(mem, owner) && IsDir(owner, d) && i < NENTRIES && !Entry(mem, d, i).p
      && Owns(owner, x, Held)
    ensures SameViews(mem, NewTab(mem, d, i, x), owner)
  {
    var mem' := NewTab(mem, d, i, x);
    NewTabEntries(mem, d, i, x);
    hide Entry, NewTab;
    forall c: nat, v: nat | IsDir(owner, c) ensures Lookup(mem', c, v) == Lookup(mem, c, v) {
      var q := Entry(mem, c, v / NENTRIES);
      if c != d || v / NENTRIES != i {
        assert q.p ==> Owns(owner, q.pa, Tab(c, v / NENTRIES));
        assert q.p ==> q.pa != d && q.pa != x;
      }
    }
  }

  lemma NewTabKeeps(mem: Mem, owner: Owner, d: nat, i: nat, x: nat)
    requires Consistent(mem, owner) && IsDir(owner, d) && i < NENTRIES && !Entry(mem, d, i).p && Owns(owner, x, Held)
    ensures Consistent(NewTab(mem, d, i, x), owner[x := Tab(d, i)]) && SameViews(mem, NewTab(mem, d, i, x), owner)
  {
    var mem', owner' := NewTab(mem, d, i, x), owner[x := Tab(d, i)];
    NewTabTabs(mem, owner, d, i, x);
    NewTabViews(mem, owner, d, i, x);
    hide Entry, Lookup, TabsOk;
    forall c: nat ensures IsDir(owner', c) <==> IsDir(owner, c) {}
    forall c: nat, v: nat | IsDir(owner', c) && v < UPAGES && Lookup(mem', c, v).p
      ensures Owns(owner', Lookup(mem', c, v).pa, User(c, v))
    {
      assert Lookup(mem', c, v) == Lookup(mem, c, v);
    }
    forall y | y in owner' && owner'[y].User? ensures UserBack(mem', owner', y, owner'[y].d, owner'[y].v) {
      assert UserBack(mem, owner, y, owner[y].d, owner[y].v);
    }
  }

  // Writing the entry of one virtual page whose table exists.

  ghost predicate HasTable(mem: Mem, d: nat, v: nat) {
    && Entry(mem, d, v / NENTRIES).p && Entry(mem, d, v / NENTRIES).pa != d
    && IsTable(mem, Entry(mem, d, v / NENTRIES).pa)
  }

  /** *pte = q, for the entry of virtual page v. */
  ghost function SetPte(mem: Mem, d: nat, v: nat, q: Pte): Mem
    requires HasTable(mem, d, v)
  {
    Put(mem, Entry(mem, d, v / NENTRIES).pa, v % NENTRIES, q)
  }

  /** Only the view of v in d changes. */
  ghost predicate OneView(mem: Mem, mem': Mem, owner: Owner, d: nat, v: nat, q: Pte) {
    forall c: nat, k: nat {:trigger Lookup(mem', c, k)} :: IsDir(owner, c) ==>
      Lookup(mem', c, k) == if c == d && k == v then q else Lookup(mem, c, k)
  }

  lemma TableThere(mem: Mem, owner: Owner, d: nat, v: nat)
    requires TabsOk(mem, owner) && IsDir(owner, d) && Entry(mem, d, v / NENTRIES).p
    ensures HasTable(mem, d, v) && Owns(owner, Entry(mem, d, v / NENTRIES).pa, Tab(d, v / NENTRIES))
  {
  }

  lemma SetEntries(mem: Mem, owner: Owner, d: nat, v: nat, q: Pte)
    requires DirsOk(mem, owner) && TabsOk(mem, owner) && IsDir(owner, d) && HasTable(mem, d, v)
    ensures forall c: nat, i: nat :: IsDir(owner, c) ==> Entry(SetPte(mem, d, v, q), c, i) == Entry(mem, c, i)
    ensures DirsOk(SetPte(mem, d, v, q), owner) && TabsOk(SetPte(mem, d, v, q), owner)
  {
    var t := Entry(mem, d, v / NENTRIES).pa;
    assert Owns(owner, t, Tab(d, v / NENTRIES));
    var mem' := SetPte(mem, d, v, q);
    forall c: nat, i: nat | IsDir(owner, c) ensures Entry(mem', c, i) == Entry(mem, c, i) {
      assert c != t;
    }
    hide Entry;
    forall y | y in owner && owner[y].Tab? ensures TabBack(mem', owner, y, owner[y].d, owner[y].i) {
      assert TabBack(mem, owner, y, owner[y].d, owner[y].i);
    }
  }

  lemma SetViews(mem: Mem, owner: Owner, d: nat, v: nat, q: Pte)
    requires DirsOk(mem, owner) && TabsOk(mem, owner) && IsDir(owner, d) && HasTable(mem, d, v) && (q.p || q == NONE)
    ensures OneView(mem, SetPte(mem, d, v, q), owner, d, v, q)
  {
    var t := Entry(mem, d, v / NENTRIES).pa;
    var mem' := SetPte(mem, d, v, q);
    assert Owns(owner, t, Tab(d, v / NENTRIES));
    SetEntries(mem, owner, d, v, q);
    forall c: nat, k: nat | IsDir(owner, c)
      ensures Lookup(mem', c, k) == if c == d && k == v then q else Lookup(mem, c, k)
    {
      var e := Entry(mem, c, k / NENTRIES);
      assert Entry(mem', c, k / NENTRIES) == e;
      if e.p {
        assert Owns(owner, e.pa, Tab(c, k / NENTRIES));
        if e.pa == t { assert c == d && k / NENTRIES == v / NENTRIES; }
      }
    }
  }

  /** A held data page is mapped at user page v of d. */
  lemma MapUserKeeps(mem: Mem, owner: Owner, d: nat, v: nat, q: Pte)
    requires Consistent(mem, owner) && IsDir(owner, d) && HasTable(mem, d, v) && v < UPAGES && !Lookup(mem, d, v).p
    requires q.p && Owns(owner, q.pa, Held) && q.pa in mem && mem[q.pa].Data?
    ensures Consistent(SetPte(mem, d, v, q), owner[q.pa := User(d, v)])
      && OneView(mem, SetPte(mem, d, v, q), owner, d, v, q)
  {
    var mem', owner' := SetPte(mem, d, v, q), owner[q.pa := User(d, v)];
    SetEntries(mem, owner, d, v, q);
    SetViews(mem, owner, d, v, q);
    assert Owns(owner, Entry(mem, d, v / NENTRIES).pa, Tab(d, v / NENTRIES)) by { TableThere(mem, owner, d, v); }
    assert forall y :: y in mem && mem[y].Data? ==> y in mem' && mem'[y].Data?;
    Retagged(mem', owner, q.pa, User(d, v));
    MapUserUsers(mem, mem', owner, d, v, q);
  }

  lemma Retagged(mem: Mem, owner: Owner, x: nat, s: Slot)
    requires DirsOk(mem, owner) && TabsOk(mem, owner) && Owns(owner, x, Held) && !s.Dir? && !s.Tab?
    ensures DirsOk(mem, owner[x := s]) && TabsOk(mem, owner[x := s])
  {
    hide Entry;
    var owner' := owner[x := s];
    forall c: nat ensures IsDir(owner', c) <==> IsDir(owner, c) {}
    forall y | y in owner' && owner'[y].Tab? ensures TabBack(mem, owner', y, owner'[y].d, owner'[y].i) {
      assert TabBack(mem, owner, y, owner[y].d, owner[y].i);
    }
  }

  lemma MapUserUsers(mem: Mem, mem': Mem, owner: Owner, d: nat, v: nat, q: Pte)
    requires UsersOk(mem, owner) && IsDir(owner, d) && v < UPAGES && !Lookup(mem, d, v).p
    requires q.p && Owns(owner, q.pa, Held) && q.pa in mem && mem[q.pa].Data?
    requires OneView(mem, mem', owner, d, v, q) && forall y :: y in mem && mem[y].Data? ==> y in mem' && mem'[y].Data?
    ensures UsersOk(mem', owner[q.pa := User(d, v)])
  {
    hide Lookup;
    var owner' := owner[q.pa := User(d, v)];
    forall c: nat ensures IsDir(owner', c) <==> IsDir(owner, c) {}
    forall c: nat, k: nat | IsDir(owner', c) && k < UPAGES && Lookup(mem', c, k).p
      ensures Owns(owner', Lookup(mem', c, k).pa, User(c, k))
    {
      if c != d || k != v { assert Lookup(mem', c, k) == Lookup(mem, c, k); }
    }
    forall y | y in owner' && owner'[y].User? ensures UserBack(mem', owner', y, owner'[y].d, owner'[y].v) {
      if y != q.pa { assert UserBack(mem, owner, y, owner[y].d, owner[y].v); }
    }
  }

  /** An entry of the kernel half is written. */
  lemma MapKernelKeeps(mem: Mem, owner: Owner, d: nat, v: nat, q: Pte)
    requires Consistent(mem, owner) && IsDir(owner, d) && HasTable(mem, d, v) && v >= UPAGES && q.p
    ensures Consistent(SetPte(mem, d, v, q), owner) && OneView(mem, SetPte(mem, d, v, q), owner, d, v, q)
  {
    var mem' := SetPte(mem, d, v, q);
    SetEntries(mem, owner, d, v, q);
    SetViews(mem, owner, d, v, q);
    assert forall y :: y in mem && mem[y].Data? ==> y in mem' && mem'[y].Data?;
    hide Lookup, Entry, TabsOk, SetPte;
    forall y | y in owner && owner[y].User? ensures UserBack(mem', owner, y, owner[y].d, owner[y].v) {
      assert UserBack(mem, owner, y, owner[y].d, owner[y].v);
    }
  }

  /** The page at user page v is freed, junk is written over it, and its entry is cleared. */
  lemma UnmapKeeps(mem: Mem, owner: Owner, d: nat, v: nat)
    requires Consistent(mem, owner) && IsDir(owner, d) && HasTable(mem, d, v) && v < UPAGES && Lookup(mem, d, v).p
    ensures (var x := Lookup(mem, d, v).pa; var mem' := mem[x := Junk];
      && HasTable(mem', d, v) && Consistent(SetPte(mem', d, v, NONE), owner - {x})
      && OneView(mem, SetPte(mem', d, v, NONE), owner, d, v, NONE))
  {
    var x := Lookup(mem, d, v).pa;
    assert Owns(owner, x, User(d, v));
    var held := owner[x := Held];
    PlainWrite(mem, owner, x, Junk);
    var mem' := mem[x := Junk];
    TableThere(mem', owner, d, v) by { assert Entry(mem', d, v / NENTRIES) == Entry(mem, d, v / NENTRIES); }
    SetEntries(mem', owner, d, v, NONE);
    SetViews(mem', owner, d, v, NONE);
    var mem'' := SetPte(mem', d, v, NONE);
    assert forall y :: y in mem && y != x && mem[y].Data? ==> y in mem'' && mem''[y].Data?;
    UnmapTabs(mem'', owner, x);
    UnmapUsers(mem, mem', mem'', owner, d, v);
  }

  lemma UnmapTabs(mem: Mem, owner: Owner, x: nat)
    requires DirsOk(mem, owner) && TabsOk(mem, owner) && x in owner && owner[x].User?
    ensures DirsOk(mem, owner - {x}) && TabsOk(mem, owner - {x})
  {
    hide Entry;
    var owner' := owner - {x};
    forall c: nat ensures IsDir(owner', c) <==> IsDir(owner, c) {}
    forall y | y in owner' && owner'[y].Tab? ensures TabBack(mem, owner', y, owner'[y].d, owner'[y].i) {
      assert TabBack(mem, owner, y, owner[y].d, owner[y].i);
    }
  }

  lemma UnmapUsers(mem: Mem, mem': Mem, mem'': Mem, owner: Owner, d: nat, v: nat)
    requires UsersOk(mem, owner) && IsDir(owner, d) && v < UPAGES && Lookup(mem, d, v).p
    requires SameViews(mem, mem', owner) && OneView(mem', mem'', owner, d, v, NONE)
    requires forall y :: y in mem && y != Lookup(mem, d, v).pa && mem[y].Data? ==> y in mem'' && mem''[y].Data?
    ensures UsersOk(mem'', owner - {Lookup(mem, d, v).pa}) && OneView(mem, mem'', owner, d, v, NONE)
  {
    hide Lookup;
    var x := Lookup(mem, d, v).pa;
    assert Owns(owner, x, User(d, v));
    var owner' := owner - {x};
    forall c: nat ensures IsDir(owner', c) <==> IsDir(owner, c) {}
    forall c: nat, k: nat | IsDir(owner, c)
      ensures Lookup(mem'', c, k) == if c == d && k == v then NONE else Lookup(mem, c, k)
    {
      assert Lookup(mem', c, k) == Lookup(mem, c, k);
    }
    forall c: nat, k: nat | IsDir(owner', c) && k < UPAGES && Lookup(mem'', c, k).p
      ensures Owns(owner', Lookup(mem'', c, k).pa, User(c, k))
    {
      assert Owns(owner, Lookup(mem, c, k).pa, User(c, k));
    }
    forall y | y in owner' && owner'[y].User? ensures UserBack(mem'', owner', y, owner'[y].d, owner'[y].v) {
      assert UserBack(mem, owner, y, owner[y].d, owner[y].v);
    }
  }

  // A directory without user pages is given up: it and its tables are merely held.

  ghost function OfDir(s: Slot, d: nat): bool { (s.Tab? || s.User?) && s.d == d }

  ghost function Retired(owner: Owner, d: nat): Owner {
    map x | x in owner :: if x == d || OfDir(owner[x], d) then Held else owner[x]
  }

  lemma RetireKeeps(mem: Mem, owner: Owner, d: nat)
    requires Consistent(mem, owner) && IsDir(owner, d) && forall x :: x in owner && owner[x].User? ==> owner[x].d != d
    ensures Consistent(mem, Retired(owner, d))
  {
    hide Lookup, Entry;
    var owner' := Retired(owner, d);
    forall c: nat ensures IsDir(owner', c) <==> IsDir(owner, c) && c != d {}
    forall y | y in owner' && owner'[y].Tab? ensures TabBack(mem, owner', y, owner'[y].d, owner'[y].i) {
      assert TabBack(mem, owner, y, owner[y].d, owner[y].i);
    }
    forall y | y in owner' && owner'[y].User? ensures UserBack(mem, owner', y, owner'[y].d, owner'[y].v) {
      assert UserBack(mem, owner, y, owner[y].d, owner[y].v);
    }
  }

  // ---------------------------------------------------------------- relations between states

  /** Only tables of d were added. */
  ghost predicate TabsAdded(owner: Owner, owner': Owner, d: nat) {
    && (forall x :: x in owner ==> x in owner' && owner'[x] == owner[x])
    && (forall x :: x in owner' && x !in owner ==> owner'[x].Tab? && owner'[x].d == d)
  }

  /** Data pages owned before and after are untouched. */
  ghost predicate SameData(mem: Mem, mem': Mem, owner: Owner, owner': Owner) {
    forall x :: x in owner && x in owner' && x in mem && mem[x].Data? ==> x in mem' && mem'[x] == mem[x]
  }

  /** In d, pages lo .. hi - 1 are seen as `f` says; every other view is the same. */
  ghost predicate RangeView(mem: Mem, mem': Mem, owner: Owner, d: nat, lo: nat, hi: nat, pa: nat, w: bool, u: bool) {
    forall c: nat, k: nat {:trigger Lookup(mem', c, k)} :: IsDir(owner, c) ==>
      Lookup(mem', c, k) == if c == d && lo <= k < hi then Pte(pa + (k - lo), true, w, u) else Lookup(mem, c, k)
  }

  /** In d, pages lo .. hi - 1 are gone; every other view is the same. */
  ghost predicate CutView(mem: Mem, mem': Mem, owner: Owner, d: nat, lo: nat, hi: nat) {
    forall c: nat, k: nat {:trigger Lookup(mem', c, k)} :: IsDir(owner, c) ==>
      Lookup(mem', c, k) == if c == d && lo <= k < hi then NONE else Lookup(mem, c, k)
  }

  /** The owners without the pages of d mapped at lo .. hi - 1. */
  ghost function CutOwner(owner: Owner, d: nat, lo: nat, hi: nat): Owner {
    map x | x in owner && !(owner[x].User? && owner[x].d == d && lo <= owner[x].v < hi) :: owner[x]
  }

  /** The owners without directory d, its tables and its user pages. */
  ghost function Without(owner: Owner, d: nat): Owner {
    map x | x in owner && x != d && !OfDir(owner[x], d) :: owner[x]
  }

  /** The kernel half of every page directory (the table `kmap`), with the kernel's data at physical page `data`. */
  ghost function Kmap(data: nat, k: nat): Pte {
    if UPAGES <= k < UPAGES + 0x100 then Pte(k - UPAGES, true, true, false)
    else if UPAGES + 0x100 <= k < UPAGES + data then Pte(k - UPAGES, true, false, false)
    else if UPAGES + data <= k < UPAGES + 0xE000 then Pte(k - UPAGES, true, true, false)
    else if 0xFE000 <= k < VPAGES then Pte(k, true, true, false)
    else NONE
  }

  // ---------------------------------------------------------------- ranges of pages

  lemma RangeMore(m0: Mem, m1: Mem, m2: Mem, o0: Owner, o1: Owner, d: nat, lo: nat, hi: nat, pa: nat, w: bool, u: bool)
    requires RangeView(m0, m1, o0, d, lo, hi, pa, w, u) && lo <= hi && TabsAdded(o0, o1, d)
    requires OneView(m1, m2, o1, d, hi, Pte(pa + (hi - lo), true, w, u))
    ensures RangeView(m0, m2, o0, d, lo, hi + 1, pa, w, u)
  {
    hide Lookup;
    forall c: nat, k: nat | IsDir(o0, c)
      ensures Lookup(m2, c, k) == if c == d && lo <= k < hi + 1 then Pte(pa + (k - lo), true, w, u)
        else Lookup(m0, c, k)
    {
      assert IsDir(o1, c);
      assert Lookup(m1, c, k) == if c == d && lo <= k < hi then Pte(pa + (k - lo), true, w, u) else Lookup(m0, c, k);
    }
  }

  lemma RangeSame(m0: Mem, m1: Mem, m2: Mem, o0: Owner, o1: Owner, d: nat, lo: nat, hi: nat, pa: nat, w: bool, u: bool)
    requires RangeView(m0, m1, o0, d, lo, hi, pa, w, u) && TabsAdded(o0, o1, d) && SameViews(m1, m2, o1)
    ensures RangeView(m0, m2, o0, d, lo, hi, pa, w, u)
  {
    hide Lookup;
    forall c: nat, k: nat | IsDir(o0, c)
      ensures Lookup(m2, c, k) == if c == d && lo <= k < hi then Pte(pa + (k - lo), true, w, u) else Lookup(m0, c, k)
    {
      assert IsDir(o1, c) && Lookup(m2, c, k) == Lookup(m1, c, k);
    }
  }

  lemma SameDataTwice(m0: Mem, m1: Mem, m2: Mem, o0: Owner, o1: Owner, o2: Owner)
    requires SameData(m0, m1, o0, o1) && SameData(m1, m2, o1, o2) && forall x :: x in o0 && x in o2 ==> x in o1
    ensures SameData(m0, m2, o0, o2)
  {
  }

  lemma SameDataSelf(mem: Mem, owner: Owner)
    ensures SameData(mem, mem, owner, owner)
  {
  }

  lemma GapEmpty(mem: Mem, d: nat, v: nat, k: nat)
    requires !Entry(mem, d, v / NENTRIES).p && v <= k < (v / NENTRIES + 1) * NENTRIES
    ensures Lookup(mem, d, k) == NONE
  {
    assert k / NENTRIES == v / NENTRIES;
  }

  lemma CutStart(mem: Mem, owner: Owner, d: nat, lo: nat)
    ensures CutView(mem, mem, owner, d, lo, lo) && owner == CutOwner(owner, d, lo, lo)
  {
  }

  lemma CutKeepsDir(owner: Owner, d: nat, lo: nat, hi: nat)
    requires IsDir(owner, d)
    ensures IsDir(CutOwner(owner, d, lo, hi), d)
  {
  }

  /** Unmapped pages may be counted among the ones already cut. */
  lemma CutNothing(m0: Mem, m: Mem, o0: Owner, o: Owner, d: nat, lo: nat, hi: nat, next: nat)
    requires CutView(m0, m, o0, d, lo, hi) && o == CutOwner(o0, d, lo, hi) && Consistent(m, o) && IsDir(o0, d)
    requires lo <= hi <= next <= UPAGES && forall k :: hi <= k < next ==> Lookup(m, d, k) == NONE
    ensures CutView(m0, m, o0, d, lo, next) && o == CutOwner(o0, d, lo, next)
  {
    hide Lookup;
    forall c: nat, k: nat | IsDir(o0, c)
      ensures Lookup(m, c, k) == if c == d && lo <= k < next then NONE else Lookup(m0, c, k)
    {
    }
    forall x | x in o0 ensures x in o <==> x in CutOwner(o0, d, lo, next) {
      if x in o && o[x].User? { assert UserBack(m, o, x, o[x].d, o[x].v); }
    }
  }

  /** Unmapping one page more. */
  lemma CutOne(m0: Mem, m: Mem, m': Mem, o0: Owner, o: Owner, d: nat, lo: nat, hi: nat)
    requires CutView(m0, m, o0, d, lo, hi) && o == CutOwner(o0, d, lo, hi) && Consistent(m, o) && IsDir(o0, d)
    requires lo <= hi < UPAGES && Lookup(m, d, hi).p && OneView(m, m', o, d, hi, NONE)
    ensures CutView(m0, m', o0, d, lo, hi + 1) && o - {Lookup(m, d, hi).pa} == CutOwner(o0, d, lo, hi + 1)
  {
    hide Lookup;
    var x := Lookup(m, d, hi).pa;
    assert IsDir(o, d);
    assert Owns(o, x, User(d, hi));
    forall c: nat, k: nat | IsDir(o0, c)
      ensures Lookup(m', c, k) == if c == d && lo <= k < hi + 1 then NONE else Lookup(m0, c, k)
    {
      assert IsDir(o, c);
      assert Lookup(m, c, k) == if c == d && lo <= k < hi then NONE else Lookup(m0, c, k);
    }
    forall y | y in o0 ensures y in o - {x} <==> y in CutOwner(o0, d, lo, hi + 1) {
      if y in o && o[y].User? { assert UserBack(m, o, y, o[y].d, o[y].v); }
    }
  }

  // ---------------------------------------------------------------- giving up a directory

  ghost predicate OtherViews(mem: Mem, mem': Mem, owner: Owner, d: nat) {
    forall c: nat, v: nat {:trigger Lookup(mem', c, v)} :: IsDir(owner, c) && c != d ==>
        Lookup(mem', c, v) == Lookup(mem, c, v)
  }

  /** The tables behind the first i entries of a directory. */
  ghost function Tables(e: seq<Pte>, i: nat): set<nat>
    requires i <= |e|
  {
    set k | 0 <= k < i && e[k].p :: e[k].pa
  }

  lemma FreshTable(mem: Mem, owner: Owner, d: nat, i: nat)
    requires Consistent(mem, owner) && IsDir(owner, d) && IsTable(mem, d) && i < NENTRIES && mem[d].e[i].p
    ensures mem[d].e[i].pa !in Tables(mem[d].e, i) && Owns(owner, mem[d].e[i].pa, Tab(d, i)) && mem[d].e[i].pa != d
    ensures Tables(mem[d].e, i + 1) == Tables(mem[d].e, i) + {mem[d].e[i].pa}
  {
    assert Entry(mem, d, i) == mem[d].e[i];
    forall k | 0 <= k < i && mem[d].e[k].p ensures mem[d].e[k].pa != mem[d].e[i].pa {
      assert Entry(mem, d, k) == mem[d].e[k];
    }
  }

  lemma NotATable(e: seq<Pte>, i: nat)
    requires i < |e| && !e[i].p
    ensures Tables(e, i + 1) == Tables(e, i)
  {
  }

  lemma NoTables(e: seq<Pte>)
    ensures Tables(e, 0) == {}
  {
  }

  lemma PoolRetired(free: seq<nat>, owner: Owner, all: set<nat>, d: nat)
    requires Pool(free, owner, all)
    ensures Pool(free, Retired(owner, d), all)
  {
  }

  /** What is left of the owners once the user pages, the tables and the directory are gone. */
  lemma AllReturned(mem: Mem, owner: Owner, o1: Owner, d: nat)
    requires Consistent(mem, o1) && IsDir(owner, d) && o1 == CutOwner(owner, d, 0, UPAGES) && IsTable(mem, d)
    requires forall x :: x in owner && owner[x].User? ==> owner[x].v < UPAGES
    ensures Retired(o1, d) - Tables(mem[d].e, NENTRIES) - {d} == Without(owner, d)
  {
    var e := mem[d].e;
    var left := Retired(o1, d) - Tables(e, NENTRIES) - {d};
    forall x | x in owner ensures x in left <==> x in Without(owner, d) {
      if x in o1 && o1[x].Tab? && o1[x].d == d {
        assert TabBack(mem, o1, x, d, o1[x].i);
        assert e[o1[x].i].p && e[o1[x].i].pa == x;
      }
      if x in Tables(e, NENTRIES) {
        var k :| 0 <= k < NENTRIES && e[k].p && e[k].pa == x;
        assert Entry(mem, d, k) == e[k];
      }
    }
  }

  lemma HeldOthers(m0: Mem, m: Mem, m': Mem, o0: Owner, o: Owner, d: nat)
    requires OtherViews(m0, m, o0, d) && SameViews(m, m', o) && forall c: nat :: IsDir(o0, c) && c != d ==> IsDir(o, c)
    ensures OtherViews(m0, m', o0, d)
  {
    hide Lookup;
    forall c: nat, v: nat | IsDir(o0, c) && c != d ensures Lookup(m', c, v) == Lookup(m0, c, v) {
      assert IsDir(o, c) && Lookup(m', c, v) == Lookup(m, c, v);
    }
  }

  lemma OthersTwice(m0: Mem, m: Mem, m': Mem, o0: Owner, o: Owner, d: nat)
    requires OtherViews(m0, m, o0, d) && OtherViews(m, m', o, d)
    requires forall c: nat :: IsDir(o0, c) && c != d ==> IsDir(o, c)
    ensures OtherViews(m0, m', o0, d)
  {
    hide Lookup;
    forall c: nat, v: nat | IsDir(o0, c) && c != d ensures Lookup(m', c, v) == Lookup(m0, c, v) {
      assert IsDir(o, c) && Lookup(m', c, v) == Lookup(m, c, v);
    }
  }

  lemma CutOthers(m0: Mem, m: Mem, o0: Owner, d: nat, lo: nat, hi: nat)
    requires CutView(m0, m, o0, d, lo, hi)
    ensures OtherViews(m0, m, o0, d)
  {
  }

  // ---------------------------------------------------------------- growing a process

  function Zeros(): Page { Data(seq(PGSIZE, i => 0)) }

  /** Page x, with these contents, is now mapped at v; beside it only tables were added. */
  ghost predicate Grew(m0: Mem, m: Mem, o0: Owner, o: Owner, d: nat, v: nat, x: nat, page: Page, w: bool, u: bool) {
    && OneView(m0, m, o0, d, v, Pte(x, true, w, u)) && TabsAdded(o0[x := User(d, v)], o, d)
    && SameData(m0, m, o0, o) && x in m && m[x] == page
  }

  lemma GrewBy(m0: Mem, m1: Mem, m: Mem, o0: Owner, o: Owner, d: nat, v: nat, x: nat, page: Page, w: bool, u: bool)
    requires x !in o0 && m1 == m0[x := page] && page.Data? && SameViews(m0, m1, o0)
    requires RangeView(m1, m, o0[x := Held], d, v, v + 1, x, w, u)
    requires TabsAdded(o0[x := Held][x := User(d, v)], o, d) && SameData(m1, m, o0[x := Held], o)
    ensures Grew(m0, m, o0, o, d, v, x, page, w, u)
  {
    hide Lookup;
    assert o0[x := Held][x := User(d, v)] == o0[x := User(d, v)];
    forall c: nat, k: nat | IsDir(o0, c)
      ensures Lookup(m, c, k) == if c == d && k == v then Pte(x, true, w, u) else Lookup(m0, c, k)
    {
      assert IsDir(o0[x := Held], c) && Lookup(m1, c, k) == Lookup(m0, c, k);
    }
    assert x in o0[x := Held] && x in o0[x := User(d, v)];
  }

  lemma NoneMapped(m1: Mem, m: Mem, o1: Owner, d: nat, v: nat, x: nat, w: bool, u: bool)
    requires RangeView(m1, m, o1, d, v, v, x, w, u)
    ensures SameViews(m1, m, o1)
  {
  }

  lemma SameViewsLess(m: Mem, m': Mem, o0: Owner, o: Owner)
    requires SameViews(m, m', o) && forall c: nat :: IsDir(o0, c) ==> IsDir(o, c)
    ensures SameViews(m, m', o0)
  {
  }

  lemma SameViewsTwice(m0: Mem, m1: Mem, m2: Mem, o0: Owner, o1: Owner)
    requires SameViews(m0, m1, o0) && SameViews(m1, m2, o1) && forall c: nat :: IsDir(o0, c) ==> IsDir(o1, c)
    ensures SameViews(m0, m2, o0)
  {
    hide Lookup;
    forall c: nat, v: nat | IsDir(o0, c) ensures Lookup(m2, c, v) == Lookup(m0, c, v) {
      assert IsDir(o1, c) && Lookup(m2, c, v) == Lookup(m1, c, v);
    }
  }

  /** Since o0, pages lo .. hi - 1 of d were mapped, writable, to zeroed pages not owned before; beside
      them only tables of d were added. */
  ghost predicate Grown(m0: Mem, m: Mem, o0: Owner, o: Owner, d: nat, lo: nat, hi: nat) {
    && (forall c: nat, k: nat :: IsDir(o0, c) ==> GrownAt(m0, m, o0, o, d, lo, hi, c, k))
    && (forall x :: x in o0 ==> x in o && o[x] == o0[x])
    && (forall x :: x in o && x !in o0 ==> OfDir(o[x], d) && (o[x].User? ==> lo <= o[x].v < hi))
    && SameData(m0, m, o0, o)
  }

  ghost predicate GrownAt(m0: Mem, m: Mem, o0: Owner, o: Owner, d: nat, lo: nat, hi: nat, c: nat, k: nat) {
    if c == d && lo <= k < hi then NewPage(m, o0, o, Lookup(m, c, k)) else Lookup(m, c, k) == Lookup(m0, c, k)
  }

  ghost predicate NewPage(m: Mem, o0: Owner, o: Owner, q: Pte) {
    q.p && q.w && q.u && q.pa !in o0 && q.pa in o && q.pa in m && m[q.pa] == Zeros()
  }

  lemma GrownStart(mem: Mem, owner: Owner, d: nat, lo: nat)
    ensures Grown(mem, mem, owner, owner, d, lo, lo)
  {
  }

  lemma GrownOutside(m0: Mem, m: Mem, o0: Owner, o: Owner, d: nat, lo: nat, hi: nat, k: nat)
    requires Grown(m0, m, o0, o, d, lo, hi) && IsDir(o0, d) && k >= hi
    ensures Lookup(m, d, k) == Lookup(m0, d, k)
  {
    assert GrownAt(m0, m, o0, o, d, lo, hi, d, k);
  }

  lemma GrownMore(m0: Mem, m1: Mem, m: Mem, o0: Owner, o1: Owner, o: Owner, d: nat, lo: nat, hi: nat, x: nat)
    requires Grown(m0, m1, o0, o1, d, lo, hi) && x !in o1 && Grew(m1, m, o1, o, d, hi, x, Zeros(), true, true)
      && lo <= hi
    ensures Grown(m0, m, o0, o, d, lo, hi + 1) && forall c: nat :: IsDir(o0, c) ==> IsDir(o, c)
  {
    hide Lookup;
    assert forall y :: y in o1 ==> y in o && o[y] == o1[y];
    assert x in o1[x := User(d, hi)] && x in o && o[x] == User(d, hi);
    var next := hi + 1;
    forall c: nat, k: nat | IsDir(o0, c)
      ensures GrownAt(m0, m, o0, o, d, lo, next, c, k)
    {
      assert IsDir(o1, c);
      assert GrownAt(m0, m1, o0, o1, d, lo, hi, c, k);
    }
    SameDataTwice(m0, m1, m, o0, o1, o);
  }

  // Cutting what was just grown brings every view back.

  lemma GrownData(m0: Mem, m1: Mem, m2: Mem, o0: Owner, o1: Owner, o2: Owner, d: nat, lo: nat, hi: nat)
    requires Grown(m0, m1, o0, o1, d, lo, hi) && SameData(m1, m2, o1, o2)
    ensures SameData(m0, m2, o0, o2)
  {
    hide Lookup;
  }

  lemma BackViews(m0: Mem, m1: Mem, m2: Mem, m3: Mem, o0: Owner, o1: Owner, o2: Owner, d: nat, lo: nat, mid: nat,
          hi: nat)
    requires Grown(m0, m1, o0, o1, d, lo, mid) && SameViews(m1, m2, o1) && CutView(m2, m3, o2, d, lo, hi) && mid <= hi
    requires (forall c: nat :: IsDir(o1, c) ==> IsDir(o2, c)) && forall k :: lo <= k < hi ==> !Lookup(m0, d, k).p
    ensures SameViews(m0, m3, o0)
  {
    forall k | lo <= k < hi ensures Lookup(m0, d, k) == NONE {}
    hide Lookup;
    forall c: nat, k: nat | IsDir(o0, c) ensures Lookup(m3, c, k) == Lookup(m0, c, k) {
      assert IsDir(o1, c) && IsDir(o2, c);
      assert GrownAt(m0, m1, o0, o1, d, lo, mid, c, k);
      assert Lookup(m2, c, k) == Lookup(m1, c, k);
    }
  }

  lemma BackOwner(m0: Mem, m1: Mem, o0: Owner, o1: Owner, o2: Owner, d: nat, lo: nat, mid: nat, hi: nat, x: nat)
    requires Grown(m0, m1, o0, o1, d, lo, mid) && mid <= hi && 0 !in o1
    requires o2 == if x == 0 then o1 else o1[x := Held]
    requires x !in o1 && forall y :: y in o0 && o0[y].User? && o0[y].d == d ==> !(lo <= o0[y].v < hi)
    ensures TabsAdded(o0, CutOwner(o2, d, lo, hi) - {x}, d)
    ensures if x == 0 then 0 !in CutOwner(o2, d, lo, hi) else Owns(CutOwner(o2, d, lo, hi), x, Held)
    ensures forall c: nat :: IsDir(o0, c) ==> IsDir(CutOwner(o2, d, lo, hi), c)
  {
    hide Lookup;
  }

  lemma Junked(m: Mem, o: Owner, x: nat)
    ensures SameData(m, m[x := Junk], o, o - {x})
  {
  }

  lemma NotOwned(m: Mem, o: Owner, d: nat, lo: nat, hi: nat)
    requires Consistent(m, o) && forall k :: lo <= k < hi ==> !Lookup(m, d, k).p
    ensures forall y :: y in o && o[y].User? && o[y].d == d ==> !(lo <= o[y].v < hi)
  {
    hide Lookup;
    forall y | y in o && o[y].User? && o[y].d == d ensures !(lo <= o[y].v < hi) {
      assert UserBack(m, o, y, d, o[y].v);
    }
  }

  // ---------------------------------------------------------------- how many pages it takes

  /** Directory d has the tables it had, and those of entries lo .. hi - 1. */
  ghost predicate TablesOver(m0: Mem, m: Mem, d: nat, lo: nat, hi: nat) {
    forall k: nat {:trigger Entry(m, d, k)} :: Entry(m, d, k).p <==> Entry(m0, d, k).p || lo <= k < hi
  }

  /** How many of the entries lo .. hi - 1 of directory d have no table. */
  ghost function Missing(m: Mem, d: nat, lo: nat, hi: nat): nat {
    if hi <= lo then 0 else Missing(m, d, lo, hi - 1) + if Entry(m, d, hi - 1).p then 0 else 1
  }

  /** Pages needed to map user pages lo .. hi - 1 of d: themselves and their missing tables. */
  ghost function Cost(m: Mem, d: nat, lo: nat, hi: nat): nat {
    if hi <= lo then 0 else hi - lo + Missing(m, d, lo / NENTRIES, (hi - 1) / NENTRIES + 1)
  }

  /** The end of the tables that pages lo .. v - 1 lie in. */
  ghost function Reached(lo: nat, v: nat): nat { if v <= lo then lo / NENTRIES else (v - 1) / NENTRIES + 1 }

  lemma TablesSelf(m: Mem, d: nat, lo: nat)
    ensures TablesOver(m, m, d, lo, lo) && Missing(m, d, lo, lo) == 0
  {
  }

  lemma ReachedNone(lo: nat)
    ensures Reached(lo, lo) == lo / NENTRIES
  {
  }

  /** A table still missing at page v is missing for every range that goes on to `last`. */
  lemma TablesEnd(m0: Mem, m1: Mem, d: nat, lo: nat, v: nat, last: nat)
    requires lo <= v <= last && TablesOver(m0, m1, d, lo / NENTRIES, Reached(lo, v))
    ensures Missing(m0, d, lo / NENTRIES, Reached(lo, v)) + (if Entry(m1, d, v / NENTRIES).p then 0 else 1)
         <= Missing(m0, d, lo / NENTRIES, last / NENTRIES + 1)
  {
    hide Entry;
    assert Entry(m1, d, v / NENTRIES).p <==>
        Entry(m0, d, v / NENTRIES).p || lo / NENTRIES <= v / NENTRIES < Reached(lo, v);
    assert Reached(lo, v) == v / NENTRIES || Reached(lo, v) == v / NENTRIES + 1;
    MissingGrows(m0, d, lo / NENTRIES, v / NENTRIES + 1, last / NENTRIES + 1);
  }

  lemma TablesMore(m0: Mem, m1: Mem, m2: Mem, d: nat, lo: nat, v: nat)
    requires lo <= v && TablesOver(m0, m1, d, lo / NENTRIES, Reached(lo, v))
    requires TablesOver(m1, m2, d, v / NENTRIES, v / NENTRIES + 1)
    ensures TablesOver(m0, m2, d, lo / NENTRIES, Reached(lo, v + 1)) && Reached(lo, v + 1) == v / NENTRIES + 1
    ensures Missing(m0, d, lo / NENTRIES, Reached(lo, v + 1))
         == Missing(m0, d, lo / NENTRIES, Reached(lo, v)) + if Entry(m1, d, v / NENTRIES).p then 0 else 1
  {
    hide Entry;
    assert Entry(m1, d, v / NENTRIES).p <==>
        Entry(m0, d, v / NENTRIES).p || lo / NENTRIES <= v / NENTRIES < Reached(lo, v);
    assert Reached(lo, v) == v / NENTRIES || Reached(lo, v) == v / NENTRIES + 1;
  }

  lemma SameTables(m: Mem, m': Mem, d: nat, x: nat, page: Page)
    requires m' == m[x := page] && x != d
    ensures forall k: nat :: Entry(m', d, k) == Entry(m, d, k)
  {
  }

  lemma TablesFrom(m0: Mem, m1: Mem, m2: Mem, d: nat, lo: nat, hi: nat)
    requires (forall k: nat :: Entry(m1, d, k) == Entry(m0, d, k)) && TablesOver(m1, m2, d, lo, hi)
    ensures TablesOver(m0, m2, d, lo, hi)
  {
    hide Entry;
  }

  lemma TablesNext(m0: Mem, m1: Mem, m2: Mem, d: nat, lo: nat, v: nat)
    requires lo <= v && TablesOver(m0, m1, d, lo / NENTRIES, Reached(lo, v))
    requires TablesOver(m1, m2, d, v / NENTRIES, v / NENTRIES + 1)
    ensures TablesOver(m0, m2, d, lo / NENTRIES, Reached(lo, v + 1))
  {
    TablesMore(m0, m1, m2, d, lo, v);
  }

  lemma CostStart(m: Mem, d: nat, lo: nat)
    ensures TablesOver(m, m, d, lo / NENTRIES, Reached(lo, lo)) && Cost(m, d, lo, lo) == 0
  {
  }

  lemma {:induction false} MissingGrows(m: Mem, d: nat, lo: nat, mid: nat, hi: nat)
    requires mid <= hi
    ensures Missing(m, d, lo, mid) <= Missing(m, d, lo, hi)
    decreases hi
  {
    if mid < hi { MissingGrows(m, d, lo, mid, hi - 1); }
  }

  lemma CostGrows(m: Mem, d: nat, lo: nat, mid: nat, hi: nat)
    requires mid <= hi
    ensures Cost(m, d, lo, mid) <= Cost(m, d, lo, hi)
  {
    if lo < mid { MissingGrows(m, d, lo / NENTRIES, (mid - 1) / NENTRIES + 1, (hi - 1) / NENTRIES + 1); }
  }

  /** One page more. */
  lemma CostMore(m0: Mem, m1: Mem, d: nat, lo: nat, v: nat)
    requires lo <= v && TablesOver(m0, m1, d, lo / NENTRIES, Reached(lo, v))
    ensures Cost(m0, d, lo, v + 1) == Cost(m0, d, lo, v) + 1 + if Entry(m1, d, v / NENTRIES).p then 0 else 1
    ensures Cost(m0, d, lo, lo) == 0
  {
    hide Entry, Missing;
    assert Entry(m1, d, v / NENTRIES).p <==>
        Entry(m0, d, v / NENTRIES).p || lo / NENTRIES <= v / NENTRIES < Reached(lo, v);
    assert Reached(lo, v) == v / NENTRIES || Reached(lo, v) == v / NENTRIES + 1;
    MissingOne(m0, d, lo / NENTRIES, v / NENTRIES);
    assert v + 1 - 1 == v;
  }

  lemma MissingOne(m: Mem, d: nat, lo: nat, k: nat)
    requires lo <= k
    ensures Missing(m, d, lo, k + 1) == Missing(m, d, lo, k) + if Entry(m, d, k).p then 0 else 1
    ensures Missing(m, d, lo, lo) == 0
  {
  }

  lemma {:induction false} MissingTail(m: Mem, d: nat, lo: nat, mid: nat, hi: nat)
    requires lo <= mid <= hi && (forall k :: lo <= k < mid ==> Entry(m, d, k).p)
      && (forall k :: mid <= k < hi ==> !Entry(m, d, k).p)
    ensures Missing(m, d, lo, hi) == hi - mid
    decreases hi
  {
    if lo < hi { MissingTail(m, d, lo, if mid < hi then mid else mid - 1, hi - 1); }
  }

  // ---------------------------------------------------------------- new address spaces

  /** A row of the table kmap, in bytes. */
  datatype KRow = KRow(virt: nat, start: nat, end: nat, w: bool)

  const KERNBASE: nat := 0x8000_0000
  const EXTMEM: nat := 0x10_0000
  const PHYSTOP: nat := 0xE00_0000
  const DEVSPACE: nat := 0xFE00_0000
  const WORD: nat := 0x1_0000_0000

  function KmapRows(data: nat): seq<KRow> {
    [KRow(KERNBASE, 0, EXTMEM, true), KRow(KERNBASE + EXTMEM, EXTMEM, data * PGSIZE, false),
     KRow(KERNBASE + data * PGSIZE, data * PGSIZE, PHYSTOP, true), KRow(DEVSPACE, DEVSPACE, 0, true)]
  }

  /** Where the first i rows end, as a page number. */
  ghost function Bound(data: nat, i: nat): nat {
    if i == 0 then UPAGES else if i == 1 then UPAGES + 0x100 else if i == 2 then UPAGES + data
    else if i == 3 then UPAGES + 0xE000 else VPAGES
  }

  lemma RowBounds(data: nat, i: nat)
    requires 0x100 < data < 0xE000 && i < 4
    ensures (var r := KmapRows(data)[i]; var size := (r.end - r.start) % WORD;
      && size > 0 && r.virt + size <= VPAGES * PGSIZE && r.start % PGSIZE == 0
          && UPAGES <= Bound(data, i) <= r.virt / PGSIZE
      && Bound(data, i + 1) == (r.virt + size - 1) / PGSIZE + 1)
    ensures (var r := KmapRows(data)[i];
      forall k :: Bound(data, i) <= k < Bound(data, i + 1) ==>
        Kmap(data, k) == if r.virt / PGSIZE <= k then Pte(r.start / PGSIZE + (k - r.virt / PGSIZE), true, r.w, false)
            else NONE)
  {
  }

  /** d sees the kernel's mappings below page b, and nothing else. */
  ghost predicate KernelBelow(mem: Mem, data: nat, d: nat, b: nat) {
    forall k: nat {:trigger Lookup(mem, d, k)} :: Lookup(mem, d, k) == if k < b then Kmap(data, k) else NONE
  }

  lemma RowMapped(m: Mem, m': Mem, o: Owner, data: nat, d: nat, i: nat)
    requires 0x100 < data < 0xE000 && i < 4 && IsDir(o, d) && KernelBelow(m, data, d, Bound(data, i))
    requires (var r := KmapRows(data)[i];
      RangeView(m, m', o, d, r.virt / PGSIZE, Bound(data, i + 1), r.start / PGSIZE, r.w, false))
    ensures KernelBelow(m', data, d, Bound(data, i + 1))
  {
    RowBounds(data, i);
    hide Lookup, KmapRows, Bound, Kmap;
    forall k: nat ensures Lookup(m', d, k) == if k < Bound(data, i + 1) then Kmap(data, k) else NONE {
      assert Lookup(m, d, k) == if k < Bound(data, i) then Kmap(data, k) else NONE;
    }
  }

  lemma RowOthers(m: Mem, m': Mem, o0: Owner, o: Owner, d: nat, lo: nat, hi: nat, pa: nat, w: bool, u: bool)
    requires RangeView(m, m', o, d, lo, hi, pa, w, u) && d !in o0 && forall c: nat :: IsDir(o0, c) ==> IsDir(o, c)
    ensures SameViews(m, m', o0)
  {
    hide Lookup;
    forall c: nat, k: nat | IsDir(o0, c) ensures Lookup(m', c, k) == Lookup(m, c, k) {
      assert IsDir(o, c);
    }
  }

  /** Since o0, only directory d with its tables and pages was added. */
  ghost predicate Added(o0: Owner, o: Owner, d: nat) {
    && d !in o0 && IsDir(o, d)
    && (forall x :: x in o0 ==> x in o && o[x] == o0[x])
    && (forall x :: x in o && x !in o0 ==> x == d || OfDir(o[x], d))
  }

  /** Giving that directory up leads back to o0. */
  lemma AddedWithout(m0: Mem, o0: Owner, o: Owner, d: nat)
    requires Consistent(m0, o0) && Added(o0, o, d)
    ensures Without(o, d) == o0
  {
    forall x | x in o0 ensures x in Without(o, d) {
      if o0[x].Tab? { assert TabBack(m0, o0, x, o0[x].d, o0[x].i); }
      if o0[x].User? { assert UserBack(m0, o0, x, o0[x].d, o0[x].v); }
    }
  }

  lemma AddedTabs(o0: Owner, o: Owner, o': Owner, d: nat)
    requires Added(o0, o, d) && TabsAdded(o, o', d)
    ensures Added(o0, o', d)
  {
  }

  lemma OthersAll(m0: Mem, m: Mem, m': Mem, o0: Owner, o: Owner, d: nat)
    requires SameViews(m0, m, o0) && OtherViews(m, m', o, d) && Added(o0, o, d)
    ensures SameViews(m0, m', o0)
  {
    hide Lookup;
    forall c: nat, v: nat | IsDir(o0, c) ensures Lookup(m', c, v) == Lookup(m0, c, v) {
      assert IsDir(o, c) && Lookup(m', c, v) == Lookup(m, c, v);
    }
  }

  /** The tables of the kernel's half: 56 up to PHYSTOP and 8 for devices. */
  ghost predicate KernelTable(k: nat) { 512 <= k < 568 || 1016 <= k < 1024 }

  /** How many tables the first i rows of kmap take. */
  ghost function RowTables(data: nat, i: nat): nat
    requires 0x100 < data < 0xE000
  {
    if i == 0 then 0 else if i == 1 then 1 else if i == 2 then (data - 1) / NENTRIES + 1 else if i == 3 then 56 else 64
  }

  ghost predicate TablesOf(mem: Mem, d: nat, data: nat, i: nat)
    requires 0x100 < data < 0xE000
  {
    forall k: nat {:trigger Entry(mem, d, k)} :: Entry(mem, d, k).p <==>
      if i < 4 then 512 <= k < 512 + RowTables(data, i) else KernelTable(k)
  }

  lemma RowTableBounds(data: nat, i: nat)
    requires 0x100 < data < 0xE000 && i < 4
    ensures RowTables(data, i) <= RowTables(data, i + 1) <= 64
    ensures (var r := KmapRows(data)[i]; var size := (r.end - r.start) % WORD;
      var lo, hi := r.virt / PGSIZE / NENTRIES, (r.virt + size - 1) / PGSIZE / NENTRIES + 1;
      && size > 0
      && if i < 3 then 512 <= lo <= 512 + RowTables(data, i) <= 512 + RowTables(data, i + 1) == hi
         else lo == 1016 && hi == 1024 && RowTables(data, i) == 56)
  {
  }

  /** What mapping row i takes, given the rows before it. */
  lemma RowMissing(mem: Mem, d: nat, data: nat, i: nat, lo: nat, hi: nat)
    requires 0x100 < data < 0xE000 && i < 4 && TablesOf(mem, d, data, i)
    requires if i < 3 then 512 <= lo <= 512 + RowTables(data, i) <= 512 + RowTables(data, i + 1) == hi
             else lo == 1016 && hi == 1024 && RowTables(data, i) == 56
    ensures RowTables(data, i) + Missing(mem, d, lo, hi) == RowTables(data, i + 1)
  {
    hide Entry, Missing;
    MissingTail(mem, d, lo, if i < 3 then 512 + RowTables(data, i) else lo, hi);
  }

  lemma RowTablesMapped(m: Mem, m': Mem, d: nat, data: nat, i: nat, lo: nat, hi: nat)
    requires 0x100 < data < 0xE000 && i < 4 && TablesOf(m, d, data, i) && TablesOver(m, m', d, lo, hi)
    requires if i < 3 then 512 <= lo <= 512 + RowTables(data, i) <= 512 + RowTables(data, i + 1) == hi
             else lo == 1016 && hi == 1024 && RowTables(data, i) == 56
    ensures TablesOf(m', d, data, i + 1)
  {
    hide Entry;
    forall k: nat ensures Entry(m', d, k).p <==> Entry(m, d, k).p || lo <= k < hi {}
  }

  lemma NoRowTables(mem: Mem, d: nat, data: nat)
    requires 0x100 < data < 0xE000 && forall k: nat :: !Entry(mem, d, k).p
    ensures TablesOf(mem, d, data, 0) && RowTables(data, 0) == 0
  {
    hide Entry;
  }

  lemma LastTables(mem: Mem, d: nat, data: nat)
    requires 0x100 < data < 0xE000 && TablesOf(mem, d, data, 4)
    ensures RowTables(data, 4) == 64 && forall k: nat :: Entry(mem, d, k).p <==> KernelTable(k)
  {
    hide Entry;
  }

  /** How many tables n pages from page 0 on take. */
  ghost function TabCount(n: nat): nat { (n + NENTRIES - 1) / NENTRIES }

  /** c has the kernel's tables, and those of its first n user pages. */
  ghost predicate CopyTables(mem: Mem, c: nat, n: nat) {
    forall k: nat {:trigger Entry(mem, c, k)} :: Entry(mem, c, k).p <==> KernelTable(k) || k < TabCount(n)
  }

  lemma CopyTablesStart(mem: Mem, c: nat)
    requires forall k: nat :: Entry(mem, c, k).p <==> KernelTable(k)
    ensures CopyTables(mem, c, 0) && TabCount(0) == 0
  {
    hide Entry;
  }

  lemma TabCountGrows(n: nat, m: nat)
    requires n <= m
    ensures TabCount(n) <= TabCount(m)
  {
  }

  lemma CopyTablesMore(m: Mem, c: nat, n: nat)
    requires CopyTables(m, c, n) && n < UPAGES
    ensures TabCount(n + 1) == TabCount(n) + if Entry(m, c, n / NENTRIES).p then 0 else 1
  {
    hide Entry;
    assert TabCount(n) == n / NENTRIES || TabCount(n) == n / NENTRIES + 1;
    assert TabCount(n + 1) == n / NENTRIES + 1;
    assert Entry(m, c, n / NENTRIES).p <==> KernelTable(n / NENTRIES) || n / NENTRIES < TabCount(n);
  }

  lemma CopyTablesNext(m: Mem, m': Mem, c: nat, n: nat)
    requires CopyTables(m, c, n) && TablesOver(m, m', c, n / NENTRIES, n / NENTRIES + 1)
    ensures CopyTables(m', c, n + 1)
  {
    hide Entry;
    assert TabCount(n) == n / NENTRIES || TabCount(n) == n / NENTRIES + 1;
    forall k: nat ensures Entry(m', c, k).p <==> KernelTable(k) || k < TabCount(n + 1) {
      assert Entry(m', c, k).p <==> Entry(m, c, k).p || n / NENTRIES <= k < n / NENTRIES + 1;
    }
  }

  lemma LastBound(data: nat)
    ensures Bound(data, 4) == VPAGES
  {
  }

  // ---------------------------------------------------------------- copying an address space

  /** A page was taken, written and given back. */
  lemma KeptBack(m1: Mem, m2: Mem, m3: Mem, o1: Owner, o2: Owner, o3: Owner, x: nat)
    requires x !in o1 && o2 == o1[x := Held] && o3 == o2 - {x} && m3 == m2[x := Junk]
    requires SameViews(m1, m2, o1) && SameViews(m2, m3, o2) && SameData(m1, m2, o1, o2)
    ensures o3 == o1 && SameViews(m1, m3, o1) && SameData(m1, m3, o1, o3)
  {
    SameViewsTwice(m1, m2, m3, o1, o2);
  }

  lemma AddedDir(o0: Owner, o: Owner, d: nat)
    requires Added(o0, o, d)
    ensures IsDir(o, d)
  {
  }

  /** q leads to a page that was not owned before, with the same contents and flags as p's. */
  ghost predicate CopyOf(m0: Mem, m: Mem, o0: Owner, o: Owner, p: Pte, q: Pte) {
    && q.p && q.w == p.w && q.u == p.u && q.pa !in o0 && q.pa in o
    && q.pa in m && p.pa in m0 && m0[p.pa].Data? && m[q.pa] == m0[p.pa]
  }

  ghost predicate CopiedAt(m0: Mem, m: Mem, o0: Owner, o: Owner, d: nat, c: nat, data: nat, n: nat, k: nat) {
    if k < n then CopyOf(m0, m, o0, o, Lookup(m0, d, k), Lookup(m, c, k)) else Lookup(m, c, k) == Kmap(data, k)
  }

  /** Directory c is new; its first n pages are copies of those of d, and above it has the kernel's mappings. */
  ghost predicate Copied(m0: Mem, m: Mem, o0: Owner, o: Owner, d: nat, c: nat, data: nat, n: nat) {
    && Added(o0, o, c) && SameViews(m0, m, o0) && SameData(m0, m, o0, o)
    && forall k: nat :: CopiedAt(m0, m, o0, o, d, c, data, n, k)
  }

  lemma CopiedStart(m0: Mem, m: Mem, o0: Owner, o: Owner, d: nat, c: nat, data: nat)
    requires Added(o0, o, c) && SameViews(m0, m, o0) && SameData(m0, m, o0, o) && KernelBelow(m, data, c, VPAGES)
      && 0x100 < data < 0xE000
    ensures Copied(m0, m, o0, o, d, c, data, 0)
  {
    hide Lookup;
    forall k: nat ensures CopiedAt(m0, m, o0, o, d, c, data, 0, k) {
      assert Lookup(m, c, k) == if k < VPAGES then Kmap(data, k) else NONE;
    }
  }

  /** The page to copy next is still there, and its place in the copy is still free. */
  lemma CopiedNext(m0: Mem, m: Mem, o0: Owner, o: Owner, d: nat, c: nat, data: nat, n: nat)
    requires Copied(m0, m, o0, o, d, c, data, n) && Consistent(m0, o0) && IsDir(o0, d) && n < UPAGES
      && Lookup(m0, d, n).p
    ensures IsDir(o, d) && IsDir(o, c) && Lookup(m, d, n) == Lookup(m0, d, n) && !Lookup(m, c, n).p
    ensures (var x := Lookup(m0, d, n).pa; x in m0 && x in m && m[x] == m0[x] && m[x].Data?)
  {
    var x := Lookup(m0, d, n).pa;
    assert Owns(o0, x, User(d, n)) && UserBack(m0, o0, x, d, n);
    assert CopiedAt(m0, m, o0, o, d, c, data, n, n);
  }

  lemma CopiedMore(m0: Mem, m1: Mem, m: Mem, o0: Owner, o1: Owner, o: Owner, d: nat, c: nat, data: nat, n: nat, x: nat)
    requires Copied(m0, m1, o0, o1, d, c, data, n) && x !in o1
    requires (var p := Lookup(m0, d, n);
      p.p && p.pa in m0 && m0[p.pa].Data? && Grew(m1, m, o1, o, c, n, x, m0[p.pa], p.w, p.u))
    ensures Copied(m0, m, o0, o, d, c, data, n + 1)
  {
    hide Lookup;
    assert x in o1[x := User(c, n)];
    assert forall y :: y in o1 ==> y in o && o[y] == o1[y];
    var next := n + 1;
    forall k: nat ensures CopiedAt(m0, m, o0, o, d, c, data, next, k) {
      assert CopiedAt(m0, m1, o0, o1, d, c, data, n, k);
      assert Lookup(m, c, k) == if k == n then Pte(x, true, Lookup(m0, d, n).w, Lookup(m0, d, n).u)
          else Lookup(m1, c, k);
    }
    SameDataTwice(m0, m1, m, o0, o1, o);
    forall b: nat, k: nat | IsDir(o0, b) ensures Lookup(m, b, k) == Lookup(m0, b, k) {
      assert IsDir(o1, b) && b != c && Lookup(m1, b, k) == Lookup(m0, b, k);
    }
  }

  /** A copy that failed half-way with page x in hand. */
  lemma CopyFailed(m0: Mem, m1: Mem, m: Mem, o0: Owner, o1: Owner, o: Owner, d: nat, c: nat, data: nat, n: nat)
    requires Copied(m0, m1, o0, o1, d, c, data, n) && SameViews(m1, m, o1) && SameData(m1, m, o1, o) && o == o1
    ensures Added(o0, o, c) && SameViews(m0, m, o0) && SameData(m0, m, o0, o)
  {
    SameViewsTwice(m0, m1, m, o0, o1);
    SameDataTwice(m0, m1, m, o0, o1, o);
  }

  // ---------------------------------------------------------------- user memory, byte by byte

  /** Byte a of the user memory of d, or -1 where the address is not one user code may use. */
  ghost function UserByte(mem: Mem, d: nat, a: nat): int {
    var q := Lookup(mem, d, a / PGSIZE);
    if a < KERNBASE && q.p && q.u && q.pa in mem && mem[q.pa].Data? then mem[q.pa].bytes[a % PGSIZE] else -1
  }

  /** The bytes src are at lo in the user memory of d; every other byte of every address space is the same. */
  ghost predicate Wrote(mem: Mem, mem': Mem, owner: Owner, d: nat, lo: nat, src: seq<nat>) {
    forall c: nat, a: nat {:trigger UserByte(mem', c, a)} :: IsDir(owner, c) ==>
      UserByte(mem', c, a) == if c == d && lo <= a < lo + |src| then src[a - lo] else UserByte(mem, c, a)
  }

  function Splice(f: Frame, off: nat, src: seq<nat>): Frame
    requires off + |src| <= PGSIZE
  {
    f[..off] + src + f[off + |src|..]
  }

  lemma PokeUsers(mem: Mem, owner: Owner, x: nat, f: Frame)
    requires UsersOk(mem, owner) && x in owner && owner[x].User? && SameViews(mem, mem[x := Data(f)], owner)
    ensures UsersOk(mem[x := Data(f)], owner)
  {
    hide Lookup;
    var mem' := mem[x := Data(f)];
    forall d: nat, v: nat | IsDir(owner, d) && v < UPAGES
        && Lookup(mem', d, v).p ensures Owns(owner, Lookup(mem', d, v).pa, User(d, v)) {
      assert Lookup(mem', d, v) == Lookup(mem, d, v);
    }
    forall y | y in owner && owner[y].User? ensures UserBack(mem', owner, y, owner[y].d, owner[y].v) {
      assert UserBack(mem, owner, y, owner[y].d, owner[y].v);
    }
  }

  /** Writing into a user page is seen at that place of that address space only. */
  lemma PokeSeen(mem: Mem, owner: Owner, d: nat, lo: nat, src: seq<nat>)
    requires UsersOk(mem, owner) && IsDir(owner, d) && lo < KERNBASE && lo % PGSIZE + |src| <= PGSIZE
    requires Lookup(mem, d, lo / PGSIZE).p && Lookup(mem, d, lo / PGSIZE).u
    ensures (var x := Lookup(mem, d, lo / PGSIZE).pa; x in mem && mem[x].Data? && Owns(owner, x, User(d, lo / PGSIZE)))
    ensures (var x := Lookup(mem, d, lo / PGSIZE).pa; var mem' := mem[x := Data(Splice(mem[x].bytes, lo % PGSIZE,
      src))];
      SameViews(mem, mem', owner) ==> Wrote(mem, mem', owner, d, lo, src))
  {
    var v := lo / PGSIZE;
    var x := Lookup(mem, d, v).pa;
    assert Owns(owner, x, User(d, v)) && UserBack(mem, owner, x, d, v);
    var mem' := mem[x := Data(Splice(mem[x].bytes, lo % PGSIZE, src))];
    hide Lookup;
    if SameViews(mem, mem', owner) {
      forall c: nat, a: nat | IsDir(owner, c)
        ensures UserByte(mem', c, a) == if c == d && lo <= a < lo + |src| then src[a - lo] else UserByte(mem, c, a)
      {
        var q := Lookup(mem, c, a / PGSIZE);
        assert Lookup(mem', c, a / PGSIZE) == q;
        if a < KERNBASE && q.p {
          assert Owns(owner, q.pa, User(c, a / PGSIZE));
        }
      }
    }
  }

  lemma PokeKeeps(mem: Mem, owner: Owner, d: nat, lo: nat, src: seq<nat>)
    requires Consistent(mem, owner) && IsDir(owner, d) && lo < KERNBASE && lo % PGSIZE + |src| <= PGSIZE
    requires Lookup(mem, d, lo / PGSIZE).p && Lookup(mem, d, lo / PGSIZE).u
    ensures (var x := Lookup(mem, d, lo / PGSIZE).pa; x in mem && mem[x].Data? && x in owner && x != d)
    ensures forall a: nat :: lo <= a < lo + |src| ==> UserByte(mem, d, a) >= 0
    ensures (var x := Lookup(mem, d, lo / PGSIZE).pa; var mem' := mem[x := Data(Splice(mem[x].bytes, lo % PGSIZE,
      src))];
      Consistent(mem', owner) && SameViews(mem, mem', owner) && Wrote(mem, mem', owner, d, lo, src))
  {
    hide TabsOk, UsersOk, SameViews, Wrote, Lookup;
    PokeSeen(mem, owner, d, lo, src);
    var x := Lookup(mem, d, lo / PGSIZE).pa;
    var f := Splice(mem[x].bytes, lo % PGSIZE, src);
    PlainWrite(mem, owner, x, Data(f));
    PokeUsers(mem, owner, x, f);
    forall a: nat | lo <= a < lo + |src| ensures UserByte(mem, d, a) >= 0 { assert a / PGSIZE == lo / PGSIZE; }
  }

  lemma WroteMore(m0: Mem, m1: Mem, m2: Mem, owner: Owner, d: nat, lo: nat, a: seq<nat>, b: seq<nat>)
    requires Wrote(m0, m1, owner, d, lo, a) && Wrote(m1, m2, owner, d, lo + |a|, b)
    ensures Wrote(m0, m2, owner, d, lo, a + b)
  {
    hide UserByte;
    forall c: nat, k: nat | IsDir(owner, c)
      ensures UserByte(m2, c, k) == if c == d && lo <= k < lo + |a + b| then (a + b)[k - lo] else UserByte(m0, c, k)
    {
      assert UserByte(m1, c, k) == if c == d && lo <= k < lo + |a| then a[k - lo] else UserByte(m0, c, k);
    }
  }

  lemma SameViewsSelf(mem: Mem, owner: Owner)
    ensures SameViews(mem, mem, owner)
  {
  }

  /** What walkpgdir and uva2ka look at is the same for d in both memories. */
  lemma StillReachable(m0: Mem, m: Mem, owner: Owner, d: nat, v: nat)
    requires SameViews(m0, m, owner) && IsDir(owner, d) && d in m0 && d in m && m[d] == m0[d]
    ensures Lookup(m, d, v) == Lookup(m0, d, v) && Entry(m, d, v / NENTRIES) == Entry(m0, d, v / NENTRIES)
  {
  }

  lemma SeenSame(m0: Mem, m: Mem, owner: Owner, d: nat, lo: nat, src: seq<nat>)
    requires Wrote(m0, m, owner, d, lo, src) && IsDir(owner, d)
    ensures forall a: nat :: a >= lo + |src| ==> UserByte(m, d, a) == UserByte(m0, d, a)
  {
  }

  lemma WroteNone(mem: Mem, owner: Owner, d: nat, lo: nat)
    ensures Wrote(mem, mem, owner, d, lo, [])
  {
  }

  /** No page of the kernel's half of d is open to user code. */
  ghost predicate Closed(mem: Mem, d: nat) { forall k: nat :: k >= UPAGES ==> !Lookup(mem, d, k).u }

  lemma KernelClosed(mem: Mem, data: nat, d: nat)
    requires KernelBelow(mem, data, d, VPAGES)
    ensures Closed(mem, d)
  {
    hide Lookup;
  }

  /** The directory entry that leads to address a. */
  function DirIndex(a: nat): nat { a / PGSIZE / NENTRIES }

  /** The bytes from lo up to b are open to user code, and b has not even a table. */
  ghost predicate Bare(mem: Mem, d: nat, lo: nat, b: nat) {
    !Entry(mem, d, DirIndex(b)).p && forall a: nat :: lo <= a < b ==> UserByte(mem, d, a) >= 0
  }

  /** The walk stops after w bytes, and finds no table there, just when the range meets bare memory. */
  lemma BareExactly(mem: Mem, d: nat, lo: nat, n: nat, w: nat)
    requires w <= n && (forall a: nat :: lo <= a < lo + w ==> UserByte(mem, d, a) >= 0)
    requires w < n ==> UserByte(mem, d, lo + w) == -1
    ensures (w < n && !Entry(mem, d, DirIndex(lo + w)).p) <==> exists b: nat :: lo <= b < lo + n && Bare(mem, d, lo, b)
  {
    if w < n && !Entry(mem, d, DirIndex(lo + w)).p { assert Bare(mem, d, lo, lo + w); }
    if b: nat :| lo <= b < lo + n && Bare(mem, d, lo, b) {
      assert UserByte(mem, d, b) == -1;
      assert b == lo + w;
    }
  }

  lemma ClosedAt(mem: Mem, d: nat, v: nat)
    requires Closed(mem, d)
    ensures v >= UPAGES ==> !Lookup(mem, d, v).u
  {
  }

  lemma NotOpen(mem: Mem, d: nat, a: nat)
    ensures !(Lookup(mem, d, a / PGSIZE).p && Lookup(mem, d, a / PGSIZE).u) ==> UserByte(mem, d, a) == -1
    ensures !Entry(mem, d, DirIndex(a)).p ==> !Lookup(mem, d, a / PGSIZE).p
  {
  }
}
