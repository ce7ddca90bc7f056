/** The user-space allocator of umalloc.c: a circular free list in address order, with blocks
    coalesced on free.  Addresses count Header units; the static header `base` is at address 0,
    below the heap. */
module Umalloc {
  const BASE: nat := 0
  const UNIT: nat := 8          // sizeof(Header)
  const UINT: nat := 0x1_0000_0000

  datatype Header = Header(ptr: nat, size: nat)

  // ---------------------------------------------------------------- the free list

  ghost predicate Ascending(order: seq<nat>) { forall i, j :: 0 <= i < j < |order| ==> order[i] < order[j] }

  /** The header after place i of the circular list. */
  ghost function Next(order: seq<nat>, i: nat): nat
    requires i < |order|
  { if i + 1 < |order| then order[i + 1] else order[0] }

  /** Following ptr from each listed header leads to the next, from the last back to the first. */
  ghost predicate Linked(mem: map<nat, Header>, order: seq<nat>) {
    && (forall a :: a in order ==> a in mem)
    && (forall i: nat {:trigger Next(order, i)} :: i < |order| ==>
        order[i] in mem && mem[order[i]].ptr == Next(order, i))
  }

  /** `blocks` maps every block, free or allocated, to its size; `order` lists base and the free ones. */
  ghost predicate ListOk(mem: map<nat, Header>, order: seq<nat>, blocks: map<nat, nat>) {
    && order != [] && order[0] == BASE && Ascending(order) && Linked(mem, order) && mem[BASE].size == 0
    && (forall a :: a in order && a != BASE ==> a in blocks)
    && (forall a :: a in blocks ==> a in mem && mem[a].size == blocks[a])
  }

  /** The free block at place i does not touch the next one. */
  ghost predicate Gap(order: seq<nat>, blocks: map<nat, nat>, i: nat) {
    i + 1 < |order| && order[i] in blocks ==> order[i] + blocks[order[i]] < order[i + 1]
  }

  /** No two free blocks that follow each other touch, except perhaps at the places in `s`. */
  ghost predicate Gaps(order: seq<nat>, blocks: map<nat, nat>, s: set<nat>) {
    forall i: nat {:trigger Gap(order, blocks, i)} :: i in s || Gap(order, blocks, i)
  }

  /** Blocks are non-empty and disjoint and end below the break. */
  ghost predicate BlocksOk(blocks: map<nat, nat>, brk: nat) {
    && (forall a :: a in blocks ==> BASE < a && 0 < blocks[a] && a + blocks[a] <= brk)
    && (forall a, b :: a in blocks && b in blocks && a < b ==> a + blocks[a] <= b)
  }

  ghost predicate Covers(blocks: map<nat, nat>, u: nat) { exists a :: a in blocks && a <= u < a + blocks[a] }

  // ---------------------------------------------------------------- coalescing

  /** Replace blocks a and b, which follows it without a gap, by one block. */
  ghost function Merge(blocks: map<nat, nat>, a: nat, b: nat): map<nat, nat>
    requires a in blocks && b in blocks
  {
    (blocks - {b})[a := blocks[a] + blocks[b]]
  }

  lemma MergeKeeps(blocks: map<nat, nat>, brk: nat, a: nat, b: nat)
    requires BlocksOk(blocks, brk) && a in blocks && b in blocks && a + blocks[a] == b
    ensures BlocksOk(Merge(blocks, a, b), brk)
    ensures forall u: nat :: Covers(Merge(blocks, a, b), u) <==> Covers(blocks, u)
  {
    var m := Merge(blocks, a, b);
    forall u: nat ensures Covers(m, u) <==> Covers(blocks, u) {
      if Covers(m, u) {
        var x :| x in m && x <= u < x + m[x];
        if x == a && u >= b { assert b in blocks; } else { assert x in blocks; }
      }
      if Covers(blocks, u) {
        var x :| x in blocks && x <= u < x + blocks[x];
        if x == b { assert a in m; } else { assert x in m; }
      }
    }
  }

  /** Cut the last n units off block a. */
  ghost function Split(blocks: map<nat, nat>, a: nat, n: nat): map<nat, nat>
    requires a in blocks && 0 < n < blocks[a]
  {
    blocks[a := blocks[a] - n][a + blocks[a] - n := n]
  }

  lemma SplitBlocksOk(blocks: map<nat, nat>, brk: nat, a: nat, n: nat)
    requires BlocksOk(blocks, brk) && a in blocks && 0 < n < blocks[a]
    ensures a + blocks[a] - n !in blocks
    ensures BlocksOk(Split(blocks, a, n), brk)
  {
  }

  lemma SplitCovers(blocks: map<nat, nat>, a: nat, n: nat, u: nat)
    requires a in blocks && 0 < n < blocks[a] && a + blocks[a] - n !in blocks
    ensures Covers(Split(blocks, a, n), u) <==> Covers(blocks, u)
  {
    var m := Split(blocks, a, n);
    var c := a + blocks[a] - n;
    if Covers(m, u) {
      var x :| x in m && x <= u < x + m[x];
      if x == c { assert a in blocks; } else { assert x in blocks; }
    }
    if Covers(blocks, u) {
      var x :| x in blocks && x <= u < x + blocks[x];
      if x == a && u >= c { assert c in m; } else { assert x in m; }
    }
  }

  lemma SplitKeeps(blocks: map<nat, nat>, brk: nat, a: nat, n: nat)
    requires BlocksOk(blocks, brk) && a in blocks && 0 < n < blocks[a]
    ensures a + blocks[a] - n !in blocks
    ensures BlocksOk(Split(blocks, a, n), brk)
    ensures forall u: nat :: Covers(Split(blocks, a, n), u) <==> Covers(blocks, u)
  {
    hide BlocksOk, Covers, Split;
    SplitBlocksOk(blocks, brk, a, n);
    forall u: nat ensures Covers(Split(blocks, a, n), u) <==> Covers(blocks, u) { SplitCovers(blocks, a, n, u); }
  }

  // ---------------------------------------------------------------- free, on values

  datatype Heap = Heap(mem: map<nat, Header>, order: seq<nat>, blocks: map<nat, nat>)

  ghost predicate HeapOk(h: Heap, brk: nat) { ListOk(h.mem, h.order, h.blocks) && BlocksOk(h.blocks, brk) }

  /** Headers of allocated blocks. */
  ghost function Used(h: Heap): set<nat> { set a | a in h.blocks && a !in h.order }

  /** The allocated blocks `keep`, and no others, are allocated in h' too, with the same sizes; and
      the blocks of both heaps cover the same units. */
  ghost predicate Reshaped(h: Heap, h': Heap, keep: set<nat>) {
    && Used(h') == keep <= Used(h)
    && (forall a :: a in keep ==> h'.blocks[a] == h.blocks[a])
    && forall u: nat :: Covers(h'.blocks, u) <==> Covers(h.blocks, u)
  }

  /** t is the place of the last listed header below bp. */
  ghost predicate Place(order: seq<nat>, t: nat, bp: nat) {
    t < |order| && order[t] < bp && (t + 1 < |order| ==> bp < order[t + 1])
  }

  // Inserting a header at place t + 1 of the list.

  ghost function Ins(order: seq<nat>, t: nat, bp: nat): (r: seq<nat>)
    requires t < |order|
    ensures |r| == |order| + 1 && (forall a :: a in r <==> a in order || a == bp)
    ensures forall i :: 0 <= i < |r| ==> r[i] == if i <= t then order[i] else if i == t + 1 then bp else order[i - 1]
  {
    var r := order[..t + 1] + [bp] + order[t + 1..];
    assert forall a :: a in r <==> a in order[..t + 1] || a == bp || a in order[t + 1..];
    assert order == order[..t + 1] + order[t + 1..];
    r
  }

  lemma InsAscending(order: seq<nat>, t: nat, bp: nat)
    requires Ascending(order) && Place(order, t, bp)
    ensures Ascending(Ins(order, t, bp))
  {
    var r := Ins(order, t, bp);
    hide Ins;
    forall i, j | 0 <= i < j < |r| ensures r[i] < r[j] {
      assert order[t] < bp && (j > t + 1 ==> order[t + 1] <= order[j - 1] && bp < order[j - 1])
          && (i <= t ==> order[i] <= order[t]);
    }
  }

  lemma InsLinked(mem: map<nat, Header>, order: seq<nat>, t: nat, bp: nat, size: nat)
    requires Ascending(order) && Linked(mem, order) && Place(order, t, bp) && bp !in order
    ensures Linked(mem[bp := Header(mem[order[t]].ptr, size)][order[t] := Header(bp, mem[order[t]].size)],
      Ins(order, t, bp))
  {
    var mem' := mem[bp := Header(mem[order[t]].ptr, size)][order[t] := Header(bp, mem[order[t]].size)];
    var r := Ins(order, t, bp);
    hide Ins;
    forall i: nat | i < |r| ensures r[i] in mem' && mem'[r[i]].ptr == Next(r, i) {
      assert mem[order[t]].ptr == Next(order, t);
      if i < t { assert mem[order[i]].ptr == Next(order, i); }
      if i > t + 1 { assert mem[order[i - 1]].ptr == Next(order, i - 1); }
    }
  }

  lemma InsGaps(order: seq<nat>, blocks: map<nat, nat>, t: nat, bp: nat)
    requires Gaps(order, blocks, {}) && t < |order|
    ensures Gaps(Ins(order, t, bp), blocks, {t, t + 1})
  {
    var r := Ins(order, t, bp);
    hide Ins;
    forall i: nat | i != t && i != t + 1 ensures Gap(r, blocks, i) {
      if i < t { assert Gap(order, blocks, i); }
      if i > t + 1 { assert Gap(order, blocks, i - 1); }
    }
  }

  ghost function Inserted(h: Heap, t: nat, bp: nat): Heap
    requires t < |h.order| && bp in h.blocks && h.order[t] in h.mem
  {
    Heap(h.mem[bp := Header(h.mem[h.order[t]].ptr, h.blocks[bp])][h.order[t] := Header(bp, h.mem[h.order[t]].size)],
         Ins(h.order, t, bp), h.blocks)
  }

  lemma InsertKeeps(h: Heap, brk: nat, t: nat, bp: nat)
    requires HeapOk(h, brk) && Gaps(h.order, h.blocks, {}) && bp in Used(h) && Place(h.order, t, bp)
    ensures HeapOk(Inserted(h, t, bp), brk) && Gaps(Inserted(h, t, bp).order, h.blocks, {t, t + 1})
    ensures Reshaped(h, Inserted(h, t, bp), Used(h) - {bp})
  {
    assert h.order[t] in h.order && h.order[0] in h.order;
    hide Ins, Ascending, Gaps, Covers;
    InsAscending(h.order, t, bp);
    InsLinked(h.mem, h.order, t, bp, h.blocks[bp]);
    InsGaps(h.order, h.blocks, t, bp);
  }

  // Removing the header at place j + 1 of the list.

  ghost function Del(order: seq<nat>, j: nat): (r: seq<nat>)
    requires j + 1 < |order| && Ascending(order)
    ensures |r| == |order| - 1 && (forall a :: a in r <==> a in order && a != order[j + 1])
    ensures forall i :: 0 <= i < |r| ==> r[i] == if i <= j then order[i] else order[i + 1]
  {
    var r := order[..j + 1] + order[j + 2..];
    assert order == order[..j + 1] + [order[j + 1]] + order[j + 2..];
    assert forall a :: a in r <==> a in order[..j + 1] || a in order[j + 2..];
    r
  }

  lemma DelLinked(mem: map<nat, Header>, order: seq<nat>, j: nat, size: nat)
    requires Ascending(order) && Linked(mem, order) && j + 1 < |order|
    ensures order[j + 1] in mem && Linked(mem[order[j] := Header(mem[order[j + 1]].ptr, size)], Del(order, j))
  {
    var mem' := mem[order[j] := Header(mem[order[j + 1]].ptr, size)];
    var r := Del(order, j);
    hide Del;
    forall i: nat | i < |r| ensures r[i] in mem' && mem'[r[i]].ptr == Next(r, i) {
      if i < j { assert mem[order[i]].ptr == Next(order, i); }
      else { assert mem[order[i + 1]].ptr == Next(order, i + 1); }
    }
  }

  lemma DelGaps(order: seq<nat>, blocks: map<nat, nat>, j: nat, s: set<nat>)
    requires Ascending(order) && j + 1 < |order| && order[j] in blocks && order[j + 1] in blocks
    requires order[j] + blocks[order[j]] == order[j + 1] && Gaps(order, blocks, s + {j}) && forall i :: i in s ==> i < j
    ensures Gaps(Del(order, j), Merge(blocks, order[j], order[j + 1]), s)
  {
    var r, bs := Del(order, j), Merge(blocks, order[j], order[j + 1]);
    hide Del;
    forall i: nat | i !in s ensures Gap(r, bs, i) {
      if i < j { assert Gap(order, blocks, i); }
      else { assert Gap(order, blocks, i + 1); }
    }
  }

  ghost function Joined(h: Heap, j: nat): Heap
    requires j + 1 < |h.order| && h.order[j] in h.blocks && h.order[j + 1] in h.blocks && h.order[j + 1] in h.mem
      && Ascending(h.order)
  {
    var a, b := h.order[j], h.order[j + 1];
    Heap(h.mem[a := Header(h.mem[b].ptr, h.blocks[a] + h.blocks[b])], Del(h.order, j), Merge(h.blocks, a, b))
  }

  lemma JoinKeeps(h: Heap, brk: nat, j: nat, s: set<nat>)
    requires HeapOk(h, brk) && 1 <= j < |h.order| - 1 && h.order[j] + h.blocks[h.order[j]] == h.order[j + 1]
    requires Gaps(h.order, h.blocks, s + {j}) && forall i :: i in s ==> i < j
    ensures HeapOk(Joined(h, j), brk) && Gaps(Joined(h, j).order, Joined(h, j).blocks, s)
    ensures Reshaped(h, Joined(h, j), Used(h))
  {
    var a, b := h.order[j], h.order[j + 1];
    MergeKeeps(h.blocks, brk, a, b);
    DelLinked(h.mem, h.order, j, h.blocks[a] + h.blocks[b]);
    DelGaps(h.order, h.blocks, j, s);
    assert Ascending(Del(h.order, j));
    hide Del, Linked, Gaps, Covers;
  }

  ghost predicate Touches(h: Heap, j: nat) {
    && Ascending(h.order) && 1 <= j && j + 1 < |h.order| && h.order[j] in h.blocks && h.order[j + 1] in h.blocks
        && h.order[j + 1] in h.mem
    && h.order[j] + h.blocks[h.order[j]] == h.order[j + 1]
  }

  ghost function TryJoin(h: Heap, j: nat): Heap { if Touches(h, j) then Joined(h, j) else h }

  lemma TryJoinKeeps(h: Heap, brk: nat, j: nat, s: set<nat>)
    requires HeapOk(h, brk) && j < |h.order| && Gaps(h.order, h.blocks, s + {j}) && forall i :: i in s ==> i < j
    ensures HeapOk(TryJoin(h, j), brk) && Gaps(TryJoin(h, j).order, TryJoin(h, j).blocks, s)
    ensures Reshaped(h, TryJoin(h, j), Used(h)) && j < |TryJoin(h, j).order|
    ensures forall i :: 0 <= i <= j ==> TryJoin(h, j).order[i] == h.order[i]
  {
    if Touches(h, j) {
      JoinKeeps(h, brk, j, s);
    } else {
      assert Gap(h.order, h.blocks, j) by {
        if j + 1 < |h.order| { assert h.order[j] in h.order && h.order[j + 1] in h.order
            && h.order[0] <= h.order[j] < h.order[j + 1]; }
      }
    }
  }

  lemma ReshapedTwice(a: Heap, b: Heap, c: Heap, keep: set<nat>)
    requires Reshaped(a, b, keep) && Reshaped(b, c, keep)
    ensures Reshaped(a, c, keep)
  {
  }

  /** What the four branches of free make of the heap: insert, then join upwards, then downwards. */
  ghost function Freed(h: Heap, t: nat, bp: nat): Heap
    requires t < |h.order| && bp in h.blocks && h.order[t] in h.mem
  {
    TryJoin(TryJoin(Inserted(h, t, bp), t + 1), t)
  }

  lemma FreeKeeps(h: Heap, brk: nat, t: nat, bp: nat)
    requires HeapOk(h, brk) && Gaps(h.order, h.blocks, {}) && bp in Used(h) && Place(h.order, t, bp)
    ensures HeapOk(Freed(h, t, bp), brk) && Gaps(Freed(h, t, bp).order, Freed(h, t, bp).blocks, {})
    ensures Reshaped(h, Freed(h, t, bp), Used(h) - {bp}) && h.order[t] in Freed(h, t, bp).order
  {
    InsertKeeps(h, brk, t, bp);
    var h1 := Inserted(h, t, bp);
    assert |h1.order| == |h.order| + 1 && h1.order[t] == h.order[t] && Used(h1) == Used(h) - {bp};
    hide HeapOk, Gaps, Reshaped, TryJoin, Inserted;
    assert {t} + {t + 1} == {t, t + 1} && {} + {t} == {t};
    TryJoinKeeps(h1, brk, t + 1, {t});
    var h2 := TryJoin(h1, t + 1);
    TryJoinKeeps(h2, brk, t, {});
    ReshapedUsed(h1, h2, Used(h1));
    ReshapedTwice(h, h1, h2, Used(h1));
    ReshapedTwice(h, h2, TryJoin(h2, t), Used(h1));
  }

  lemma ReshapedUsed(a: Heap, b: Heap, keep: set<nat>)
    requires Reshaped(a, b, keep)
    ensures Used(b) == keep
  {
  }

  /** The stores of free, in source order. */
  function FreeStores(mem: map<nat, Header>, p: nat, bp: nat): map<nat, Header>
    requires p in mem && bp in mem && mem[p].ptr in mem && p != bp
  {
    var q := mem[p].ptr;
    var b := FreedHeader(mem, p, bp);
    var l := if p + mem[p].size == bp then Header(b.ptr, mem[p].size + b.size) else Header(bp, mem[p].size);
    mem[bp := b][p := l]
  }

  /** The headers and neighbours around the place where bp goes. */
  lemma Around(h: Heap, brk: nat, t: nat, bp: nat)
    requires HeapOk(h, brk) && bp in Used(h) && Place(h.order, t, bp)
    ensures (var p := h.order[t];
      && p in h.mem && bp in h.mem && p != bp && h.mem[p].ptr in h.mem && h.mem[p].ptr != bp
      && bp in h.blocks && h.mem[bp].size == h.blocks[bp] > 0
      && (t + 1 == |h.order| ==> h.mem[p].ptr == BASE < bp)
      && (t + 1 < |h.order| ==> h.mem[p].ptr == h.order[t + 1] != p)
      && (t + 1 < |h.order| ==> h.order[t + 1] in h.blocks && h.mem[h.order[t + 1]].size == h.blocks[h.order[t + 1]])
      && (t >= 1 ==> p in h.blocks && p > BASE && h.mem[p].size == h.blocks[p])
          && (t == 0 ==> p == BASE && h.mem[p].size == 0))
  {
    var p := h.order[t];
    assert p in h.order && h.mem[p].ptr == Next(h.order, t) && Next(h.order, t) in h.order;
    if t >= 1 { assert h.order[0] < p; }
    if t + 1 < |h.order| { assert h.order[t + 1] in h.order && h.order[0] < h.order[t + 1]; }
  }

  /** A join changes one header and nothing up to place j. */
  lemma JoinShape(h: Heap, j: nat)
    requires Ascending(h.order) && j < |h.order|
    ensures (var h' := TryJoin(h, j);
      && Ascending(h'.order) && j < |h'.order| && (forall i :: 0 <= i <= j ==> h'.order[i] == h.order[i])
      && (!Touches(h, j) ==> h' == h)
      && (Touches(h, j) ==>
            && h'.mem == h.mem[h.order[j] := Header(h.mem[h.order[j + 1]].ptr,
                h.blocks[h.order[j]] + h.blocks[h.order[j + 1]])]
            && h'.blocks ==
              (h.blocks - {h.order[j + 1]})[h.order[j] := h.blocks[h.order[j]] + h.blocks[h.order[j + 1]]]))
  {
  }

  lemma InsertShape(h: Heap, brk: nat, t: nat, bp: nat)
    requires HeapOk(h, brk) && bp in Used(h) && Place(h.order, t, bp)
    ensures h.order[t] in h.mem
    ensures (var h1 := Inserted(h, t, bp);
      && Ascending(h1.order) && |h1.order| == |h.order| + 1 && h1.order[t] == h.order[t] && h1.order[t + 1] == bp
      && (t + 1 < |h.order| ==> h1.order[t + 2] == h.order[t + 1]) && h1.blocks == h.blocks
      && h1.mem == h.mem[bp := Header(h.mem[h.order[t]].ptr, h.blocks[bp])][h.order[t] := Header(bp,
          h.mem[h.order[t]].size)])
  {
    Around(h, brk, t, bp);
    hide Linked, BlocksOk;
    InsAscending(h.order, t, bp);
  }

  function FreedHeader(mem: map<nat, Header>, p: nat, bp: nat): Header
    requires p in mem && bp in mem && mem[p].ptr in mem
  {
    var q := mem[p].ptr;
    if bp + mem[bp].size == q then Header(mem[q].ptr, mem[bp].size + mem[q].size) else Header(q, mem[bp].size)
  }

  lemma UpperMem(h: Heap, brk: nat, t: nat, bp: nat)
    requires HeapOk(h, brk) && bp in Used(h) && Place(h.order, t, bp)
    ensures h.order[t] in h.mem && h.mem[h.order[t]].ptr in h.mem
    ensures (var p := h.order[t]; var h2 := TryJoin(Inserted(h, t, bp), t + 1); var b := FreedHeader(h.mem, p, bp);
      && h2.mem == h.mem[p := Header(bp, h.mem[p].size)][bp := b]
      && t + 1 < |h2.order| && h2.order[t] == p && h2.order[t + 1] == bp && Ascending(h2.order)
      && bp in h2.blocks && h2.blocks[bp] == b.size && (p in h.blocks <==> p in h2.blocks)
      && (p in h.blocks ==> h2.blocks[p] == h.blocks[p]))
  {
    hide ListOk, BlocksOk, Inserted, TryJoin, Ascending;
    Around(h, brk, t, bp);
    InsertShape(h, brk, t, bp);
    JoinShape(Inserted(h, t, bp), t + 1);
  }

  lemma FreeMem(h: Heap, brk: nat, t: nat, bp: nat)
    requires HeapOk(h, brk) && bp in Used(h) && Place(h.order, t, bp)
    ensures h.order[t] in h.mem && h.mem[h.order[t]].ptr in h.mem
    ensures Freed(h, t, bp).mem == FreeStores(h.mem, h.order[t], bp)
  {
    hide ListOk, BlocksOk, Inserted, TryJoin, Ascending;
    Around(h, brk, t, bp);
    UpperMem(h, brk, t, bp);
    var h2 := TryJoin(Inserted(h, t, bp), t + 1);
    JoinShape(h2, t);
    assert Touches(h2, t) <==> h.order[t] + h.mem[h.order[t]].size == bp;
  }

  // ---------------------------------------------------------------- malloc, on values

  lemma UnlinkGaps(order: seq<nat>, blocks: map<nat, nat>, j: nat)
    requires Ascending(order) && Gaps(order, blocks, {}) && j + 1 < |order| && order[j + 1] in blocks
    requires order[j] in blocks ==> order[j] + blocks[order[j]] < order[j + 1]
    ensures Gaps(Del(order, j), blocks, {})
  {
    var r := Del(order, j);
    hide Del;
    forall i: nat ensures Gap(r, blocks, i) {
      assert Gap(order, blocks, i) && Gap(order, blocks, i + 1);
    }
  }

  /** Take the whole free block at place j + 1 off the list. */
  lemma UnlinkKeeps(h: Heap, brk: nat, j: nat)
    requires HeapOk(h, brk) && Gaps(h.order, h.blocks, {}) && j + 1 < |h.order|
    ensures h.order[j] in h.mem && h.order[j + 1] in h.mem && h.order[j + 1] in h.blocks
    ensures (var a := h.order[j + 1];
      var h' := Heap(h.mem[h.order[j] := Header(h.mem[a].ptr, h.mem[h.order[j]].size)], Del(h.order, j), h.blocks);
      HeapOk(h', brk) && Gaps(h'.order, h'.blocks, {}) && Used(h') == Used(h) + {a})
  {
    hide Linked, Gaps, BlocksOk;
    var a := h.order[j + 1];
    assert h.order[j] in h.order && a in h.order && h.order[0] < a;
    assert Gap(h.order, h.blocks, j) by { UnlinkGap(h.order, h.blocks, j); }
    ListedInMem(h.mem, h.order, 0);
    ListedInMem(h.mem, h.order, j);
    DelLinked(h.mem, h.order, j, h.mem[h.order[j]].size);
    UnlinkGaps(h.order, h.blocks, j);
    DelAscending(h.order, j);
    var mem' := h.mem[h.order[j] := Header(h.mem[a].ptr, h.mem[h.order[j]].size)];
    assert Del(h.order, j)[0] == BASE && mem'[BASE].size == 0;
    assert forall x :: x in h.blocks ==> x in mem' && mem'[x].size == h.blocks[x];
  }

  lemma ListedInMem(mem: map<nat, Header>, order: seq<nat>, i: nat)
    requires Linked(mem, order) && i < |order|
    ensures order[i] in mem
  {
    assert order[i] in order;
  }

  lemma DelAscending(order: seq<nat>, j: nat)
    requires Ascending(order) && j + 1 < |order|
    ensures Ascending(Del(order, j))
  {
  }

  lemma UnlinkGap(order: seq<nat>, blocks: map<nat, nat>, j: nat)
    requires Gaps(order, blocks, {})
    ensures Gap(order, blocks, j)
  {
  }

  lemma CutLinked(mem: map<nat, Header>, order: seq<nat>, a: nat, c: nat, x: Header, y: nat)
    requires Linked(mem, order) && a in mem && c !in order
    ensures Linked(mem[a := Header(mem[a].ptr, y)][c := x], order)
  {
    var mem' := mem[a := Header(mem[a].ptr, y)][c := x];
    forall i: nat | i < |order| ensures order[i] in mem' && mem'[order[i]].ptr == Next(order, i) {
      assert order[i] in order && mem[order[i]].ptr == Next(order, i);
    }
  }

  lemma CutGaps(order: seq<nat>, blocks: map<nat, nat>, a: nat, n: nat)
    requires Gaps(order, blocks, {}) && a in blocks && 0 < n < blocks[a] && a + blocks[a] - n !in order
    ensures Gaps(order, Split(blocks, a, n), {})
  {
    forall i: nat ensures Gap(order, Split(blocks, a, n), i) {
      assert Gap(order, blocks, i);
    }
  }

  /** Cut n units off the end of the free block at place j. */
  lemma CutKeeps(h: Heap, brk: nat, j: nat, n: nat, x: nat)
    requires HeapOk(h, brk) && Gaps(h.order, h.blocks, {}) && 1 <= j < |h.order| && h.order[j] in h.blocks
      && 0 < n < h.blocks[h.order[j]]
    ensures h.order[j] in h.mem
    ensures (var a := h.order[j]; var c := a + h.blocks[a] - n;
      var h' := Heap(h.mem[a := Header(h.mem[a].ptr, h.blocks[a] - n)][c := Header(x, n)], h.order,
          Split(h.blocks, a, n));
      HeapOk(h', brk) && Gaps(h'.order, h'.blocks, {}) && c !in h.blocks
      && Used(h') == Used(h) + {c} && forall u: nat :: Covers(h'.blocks, u) <==> Covers(h.blocks, u))
  {
    var a := h.order[j];
    var c := a + h.blocks[a] - n;
    SplitKeeps(h.blocks, brk, a, n);
    hide Covers;
    assert c > BASE;
    hide BlocksOk;
    assert c !in h.order;
    CutLinked(h.mem, h.order, a, c, Header(x, n), h.blocks[a] - n);
    CutGaps(h.order, h.blocks, a, n);
    hide Gaps, Linked, Ascending;
  }

  // ---------------------------------------------------------------- growing, and room

  /** A new block of nu units right at the break. */
  lemma GrowKeeps(h: Heap, brk: nat, nu: nat, x: nat)
    requires HeapOk(h, brk) && Gaps(h.order, h.blocks, {}) && nu > 0 && brk > BASE
    ensures (var h' := Heap(h.mem[brk := Header(x, nu)], h.order, h.blocks[brk := nu]);
      && brk !in h.blocks && HeapOk(h', brk + nu) && Gaps(h'.order, h'.blocks, {}) && Used(h') == Used(h) + {brk}
      && forall u: nat :: Covers(h'.blocks, u) <==> Covers(h.blocks, u) || brk <= u < brk + nu)
  {
    var h' := Heap(h.mem[brk := Header(x, nu)], h.order, h.blocks[brk := nu]);
    assert brk !in h.order;
    GrowLinked(h.mem, h.order, brk, Header(x, nu));
    forall i: nat ensures Gap(h'.order, h'.blocks, i) {
      assert Gap(h.order, h.blocks, i);
    }
    forall u: nat ensures Covers(h'.blocks, u) <==> Covers(h.blocks, u) || brk <= u < brk + nu {
      if Covers(h.blocks, u) {
        var a :| a in h.blocks && a <= u < a + h.blocks[a];
        assert a in h'.blocks;
      }
      if brk <= u < brk + nu { assert brk in h'.blocks; }
    }
    hide Linked, Ascending, Covers;
  }

  lemma GrowLinked(mem: map<nat, Header>, order: seq<nat>, c: nat, x: Header)
    requires Linked(mem, order) && c !in order
    ensures Linked(mem[c := x], order)
  {
    forall i: nat | i < |order| ensures order[i] in mem[c := x] && mem[c := x][order[i]].ptr == Next(order, i) {
      assert order[i] in order && mem[order[i]].ptr == Next(order, i);
    }
  }

  /** Some listed header has at least n units. */
  ghost predicate Room(mem: map<nat, Header>, order: seq<nat>, n: nat) {
    exists a :: a in order && a in mem && mem[a].size >= n
  }

  /** After freeing a block there is room for its size. */
  lemma FreedRoom(h: Heap, brk: nat, t: nat, bp: nat)
    requires HeapOk(h, brk) && bp in Used(h) && Place(h.order, t, bp)
    ensures h.order[t] in h.mem && Room(Freed(h, t, bp).mem, Freed(h, t, bp).order, h.blocks[bp])
  {
    hide ListOk, BlocksOk, Inserted, TryJoin, Ascending;
    Around(h, brk, t, bp);
    UpperMem(h, brk, t, bp);
    var h2 := TryJoin(Inserted(h, t, bp), t + 1);
    JoinShape(h2, t);
    var f := Freed(h, t, bp);
    if Touches(h2, t) { assert f.order[t] in f.order; } else { assert f.order[t + 1] in f.order; }
  }

  lemma {:induction false} PlaceBelow(order: seq<nat>, bp: nat) returns (t: nat)
    requires Ascending(order) && order != [] && order[0] < bp && bp !in order
    ensures Place(order, t, bp)
  {
    if order[|order| - 1] < bp {
      t := |order| - 1;
    } else {
      var shorter := order[..|order| - 1];
      assert forall a :: a in shorter ==> a in order;
      t := PlaceBelow(shorter, bp);
    }
  }

  lemma PlaceOf(order: seq<nat>, p: nat, bp: nat) returns (t: nat)
    requires Ascending(order) && p in order && p < bp && bp !in order && forall a :: a in order && a < bp ==> a <= p
    ensures Place(order, t, bp) && order[t] == p
  {
    t :| 0 <= t < |order| && order[t] == p;
    if t + 1 < |order| { assert order[t + 1] in order; }
  }

  // ---------------------------------------------------------------- the ring, seen from a place in it

  /** The circular list starting after place f. */
  ghost function Ring(order: seq<nat>, f: nat): (r: seq<nat>)
    requires f < |order|
    ensures |r| == |order| && r[|r| - 1] == order[f]
  {
    order[f + 1..] + order[..f + 1]
  }

  lemma RingLinks(mem: map<nat, Header>, order: seq<nat>, f: nat, d: nat)
    requires Linked(mem, order) && Ascending(order) && f < |order| && d < |order|
    ensures Ring(order, f)[d] in order && Ring(order, f)[d] in mem
    ensures mem[Ring(order, f)[d]].ptr == if d + 1 < |order| then Ring(order, f)[d + 1] else Ring(order, f)[0]
    ensures Ring(order, f)[d] == order[f] <==> d == |order| - 1
  {
    var i := if d < |order| - f - 1 then f + 1 + d else d - (|order| - f - 1);
    assert Ring(order, f)[d] == order[i] && mem[order[i]].ptr == Next(order, i);
  }

  lemma RingCovers(order: seq<nat>, f: nat, a: nat)
    requires f < |order| && a in order
    ensures a in Ring(order, f)
  {
    assert order == order[..f + 1] + order[f + 1..];
  }

  /** A header that is followed by a header other than base is followed at the next place. */
  lemma Follows(mem: map<nat, Header>, order: seq<nat>, a: nat) returns (j: nat)
    requires Linked(mem, order) && order != [] && a in order && mem[a].ptr != order[0]
    ensures j + 1 < |order| && order[j] == a && order[j + 1] == mem[a].ptr
  {
    j :| 0 <= j < |order| && order[j] == a;
    assert mem[order[j]].ptr == Next(order, j);
  }

  // ---------------------------------------------------------------- sizes

  /** nunits of malloc, in unsigned 32-bit arithmetic. */
  function Units(nbytes: nat): nat { (nbytes + UNIT - 1) % UINT / UNIT + 1 }

  /** The amount morecore asks sbrk for, which sbrk takes as a signed 32-bit number. */
  function Request(nu: nat): nat { if nu < 4096 then 4096 else nu }

  function Signed(bytes: nat): int { var w := bytes % UINT; if w < UINT / 2 then w else w - UINT }

  /** What sbrk is asked for when morecore wants nu units: the size in bytes as a signed int, in units. */
  function Delta(nu: nat): int { Signed(nu * UNIT) / UNIT }

  lemma DeltaOf(nu: nat)
    requires 0 < nu <= UINT / UNIT
    ensures Delta(nu) == if nu < UINT / UNIT / 2 then nu else nu - UINT / UNIT
  {
  }

  lemma DeltaSign(nu: nat)
    ensures Delta(nu) > 0 <==> Signed(nu * UNIT) > 0
  {
    assert nu * UNIT % UNIT == 0 && UINT % UNIT == 0;
    assert nu * UNIT % UINT % UNIT == 0;
  }

  lemma UnitsBound(nbytes: nat)
    ensures 0 < Units(nbytes) <= UINT / UNIT && Request(Units(nbytes)) <= UINT / UNIT
  {
  }

  lemma UnitsAt()
    ensures Units(0xFFFF_FFFF) == 1 && Signed(Request(1) * UNIT) > 0
    ensures Signed(Request(Units(0x8000_0000)) * UNIT) < 0
  {
  }

  /** The block malloc looks for holds the caller's bytes behind its header unless the rounding wraps,
      and the break moves up, by at least that block, unless the request reaches half the address space. */
  lemma UnitsCover(nbytes: nat)
    requires nbytes < UINT
    ensures (Units(nbytes) - 1) * UNIT >= nbytes <==> nbytes <= UINT - UNIT
    ensures 0 < nbytes <= UINT - UNIT ==> (Units(nbytes) - 2) * UNIT < nbytes
    ensures Signed(Request(Units(nbytes)) * UNIT) > 0 <==> nbytes <= UINT / 2 - 2 * UNIT || nbytes > UINT - UNIT
    ensures nbytes <= UINT / 2 - 2 * UNIT ==> Signed(Request(Units(nbytes)) * UNIT) == Request(Units(nbytes)) * UNIT
  {
    if nbytes <= UINT - UNIT {
      assert Units(nbytes) == (nbytes + UNIT - 1) / UNIT + 1;
    } else {
      assert Units(nbytes) == 1;
    }
  }

  // ---------------------------------------------------------------- conservation

  /** The units of all the blocks, added up. */
  ghost function Total(blocks: map<nat, nat>): nat
    decreases |blocks|
  {
    if blocks == map[] then 0 else
      var a := One(blocks);
      blocks[a] + Total(blocks - {a})
  }

  ghost function One(blocks: map<nat, nat>): (a: nat)
    requires blocks != map[]
    ensures a in blocks
  {
    assert blocks.Keys != {};
    var a :| a in blocks;
    a
  }

  /** The units a .. a + n - 1. */
  ghost function Range(a: nat, n: nat): (s: set<nat>)
    ensures (forall u :: u in s <==> a <= u < a + n) && |s| == n
  {
    if n == 0 then {} else Range(a, n - 1) + {a + n - 1}
  }

  lemma RangeUnits(a: nat, n: nat)
    ensures forall u :: u in Range(a, n) <==> a <= u < a + n
  {
  }

  lemma RangeStarts(a: nat, n: nat)
    requires n > 0
    ensures a in Range(a, n)
  {
  }

  lemma CoversRest(blocks: map<nat, nat>, brk: nat, a: nat, u: nat)
    requires BlocksOk(blocks, brk) && a in blocks
    ensures Covers(blocks - {a}, u) <==> Covers(blocks, u) && !(a <= u < a + blocks[a])
  {
    var rest := blocks - {a};
    if Covers(blocks, u) && !(a <= u < a + blocks[a]) {
      var x :| x in blocks && x <= u < x + blocks[x];
      assert x in rest;
    }
    if Covers(rest, u) {
      var x :| x in rest && x <= u < x + rest[x];
      assert x in blocks;
    }
  }

  /** Disjoint blocks that cover exactly the units of `heap` add up to its size. */
  lemma {:induction false} TotalIsHeap(blocks: map<nat, nat>, brk: nat, heap: set<nat>)
    requires BlocksOk(blocks, brk) && forall u: nat :: u in heap <==> Covers(blocks, u)
    ensures Total(blocks) == |heap|
    decreases |blocks|
  {
    if blocks == map[] {
      assert forall u: nat :: !Covers(blocks, u);
      assert heap == {};
    } else {
      var a := One(blocks);
      var mine := Range(a, blocks[a]);
      forall u: nat ensures u in heap - mine <==> Covers(blocks - {a}, u) { CoversRest(blocks, brk, a, u); }
      TotalIsHeap(blocks - {a}, brk, heap - mine);
      assert mine <= heap by { forall u | u in mine ensures u in heap { assert a in blocks && Covers(blocks, u); } }
    }
  }
}
