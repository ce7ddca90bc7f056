/** Block allocator, block maps and byte-range file access of fs.c, in the order of its loops.
    The buffer cache is transparent here: `blocks` is what bread returns. */
module FsCode {
  import opened FsModel
  import opened FsTrace

  /** The volatile part of a mounted file system that block maps live in. */
  datatype Vol = Vol(inodes: seq<Inode>, blocks: seq<Block>, owner: map<nat, Slot>, nmeta: nat)

  ghost predicate VolOk(v: Vol) { Owns(v.inodes, v.blocks, v.owner, v.nmeta) }

  /** bmap on file i made block bn present; nothing that was mapped has moved. */
  ghost predicate Grown(v: Vol, v': Vol, i: nat, bn: nat)
    requires VolOk(v) && VolOk(v')
  {
    && i < |v.inodes| == |v'.inodes| && |v.blocks| == |v'.blocks|
    && v'.inodes == v.inodes[i := v.inodes[i].(addrs := v'.inodes[i].addrs)]
    && (forall s :: SlotOk(|v.inodes|, s) && s != Data(i, bn) && s != Ind(i) ==>
          Addr(v'.inodes, v'.blocks, s) == Addr(v.inodes, v.blocks, s))
    && (forall b :: b in v.owner ==>
          b in v'.owner && v'.owner[b] == v.owner[b] && (v.owner[b].Data? ==> v'.blocks[b] == v.blocks[b]))
  }

  lemma EntryMapped(v: Vol, i: nat, k: nat)
    requires VolOk(v) && i < |v.inodes| && k < NINDIRECT && v.inodes[i].addrs[NDIRECT] != 0
    ensures v.inodes[i].addrs[NDIRECT] < |v.blocks|
    ensures FileBlock(v.inodes[i], v.blocks, NDIRECT + k) == Word(v.blocks[v.inodes[i].addrs[NDIRECT]], k) < |v.blocks|
    ensures Grown(v, v, i, NDIRECT + k)
  {
    hide Word;
    assert SlotOk(|v.inodes|, Data(i, NDIRECT + k));
  }

  lemma SlotMapped(v: Vol, i: nat, s: Slot, bn: nat)
    requires VolOk(v) && SlotOk(|v.inodes|, s) && s.i == i
    ensures Addr(v.inodes, v.blocks, s) != 0 ==> v.nmeta <= Addr(v.inodes, v.blocks, s)
    ensures Addr(v.inodes, v.blocks, s) < |v.blocks|
    ensures Grown(v, v, i, bn)
  {
  }

  /** How many blocks must be taken before block bn of file i is mapped. */
  ghost function Need(v: Vol, i: nat, bn: nat): nat
    requires VolOk(v) && i < |v.inodes| && bn < MAXFILE
  {
    if FileBlock(v.inodes[i], v.blocks, bn) != 0 then 0
    else if bn >= NDIRECT && v.inodes[i].addrs[NDIRECT] == 0 then 2 else 1
  }

  /** A zeroed block b as direct block bn of file i. */
  lemma DirectGrows(v: Vol, i: nat, bn: nat, b: nat)
    requires VolOk(v) && v.nmeta <= b < |v.blocks| && b !in v.owner && i < |v.inodes| && bn < NDIRECT
    requires v.inodes[i].addrs[bn] == 0
    ensures (var v' := Vol(v.inodes[i := v.inodes[i].(addrs := v.inodes[i].addrs[bn := b])], v.blocks[b := Zeros()],
                           v.owner[b := Data(i, bn)], v.nmeta);
      VolOk(v') && Grown(v, v', i, bn) && 0 != b == FileBlock(v'.inodes[i], v'.blocks, bn) && v'.blocks[b] == Zeros())
  {
    hide Word;
    WriteData(v.inodes, v.blocks, v.owner, v.nmeta, b, Zeros());
    AllocDirect(v.inodes, v.blocks[b := Zeros()], v.owner, v.nmeta, i, bn, b);
    assert SlotOk(|v.inodes|, Data(i, bn));
  }

  /** A zeroed block b as indirect block of file i, which maps nothing yet. */
  lemma IndirectGrows(v: Vol, i: nat, bn: nat, b: nat)
    requires VolOk(v) && v.nmeta <= b < |v.blocks| && b !in v.owner && i < |v.inodes| && NDIRECT <= bn < MAXFILE
    requires v.inodes[i].addrs[NDIRECT] == 0
    ensures (var v' := Vol(v.inodes[i := v.inodes[i].(addrs := v.inodes[i].addrs[NDIRECT := b])],
                           v.blocks[b := Zeros()],
                           v.owner[b := Ind(i)], v.nmeta);
      VolOk(v') && Grown(v, v', i, bn) && b != 0
      && FileBlock(v'.inodes[i], v'.blocks, bn) == FileBlock(v.inodes[i], v.blocks, bn))
  {
    hide Word;
    WriteData(v.inodes, v.blocks, v.owner, v.nmeta, b, Zeros());
    AllocIndirect(v.inodes, v.blocks[b := Zeros()], v.owner, v.nmeta, i, b);
    assert SlotOk(|v.inodes|, Data(i, bn)) && SlotOk(|v.inodes|, Ind(i));
  }

  /** A zeroed block b entered in slot k of the indirect block of file i. */
  lemma EntryGrows(v: Vol, i: nat, k: nat, b: nat)
    requires VolOk(v) && v.nmeta <= b < |v.blocks| && b !in v.owner && i < |v.inodes| && k < NINDIRECT
    requires v.inodes[i].addrs[NDIRECT] != 0 && Word(v.blocks[v.inodes[i].addrs[NDIRECT]], k) == 0
    ensures (var a := v.inodes[i].addrs[NDIRECT]; var bs := v.blocks[b := Zeros()];
      var v' := v.(blocks := bs[a := PutWord(bs[a], k, b)], owner := v.owner[b := Data(i, NDIRECT + k)]);
      VolOk(v') && Grown(v, v', i, NDIRECT + k) && 0 != b == FileBlock(v'.inodes[i], v'.blocks, NDIRECT + k)
          && v'.blocks[b] == Zeros())
  {
    hide Word, PutWord;
    assert SlotOk(|v.inodes|, Ind(i)) && Addr(v.inodes, v.blocks, Ind(i)) != b;
    WriteData(v.inodes, v.blocks, v.owner, v.nmeta, b, Zeros());
    AllocEntry(v.inodes, v.blocks[b := Zeros()], v.owner, v.nmeta, i, k, b);
    assert SlotOk(|v.inodes|, Data(i, NDIRECT + k));
  }

  lemma GrownTwice(u: Vol, v: Vol, w: Vol, i: nat, bn: nat)
    requires VolOk(u) && VolOk(v) && VolOk(w) && Grown(u, v, i, bn) && Grown(v, w, i, bn)
    ensures Grown(u, w, i, bn)
  {
  }

  /** The bitmap is exact: a bit is set just when its block is metadata or some file refers to it. */
  lemma BitmapExact(v: Vol, bitmap: seq<bool>, b: nat)
    requires VolOk(v) && BitsOk(bitmap, v.owner.Keys, v.nmeta) && b < |bitmap|
    ensures bitmap[b] <==> b < v.nmeta || exists s :: SlotOk(|v.inodes|, s) && Addr(v.inodes, v.blocks, s) == b
  {
    if b >= v.nmeta && bitmap[b] { assert SlotOk(|v.inodes|, v.owner[b]); }
  }

  // ---------------------------------------------------------------- bytes of files

  const MAXBYTES: nat := MAXFILE * BSIZE

  /** Byte p of file i; a block that is not mapped reads as zeros. */
  ghost function Byte(v: Vol, i: nat, p: nat): byte
    requires VolOk(v) && i < |v.inodes| && p < MAXBYTES
  {
    var b := Addr(v.inodes, v.blocks, Data(i, p / BSIZE));
    if b == 0 || b !in v.owner then 0 else v.blocks[b][p % BSIZE]
  }

  /** v' is v with `data` written over the bytes of file i from `off` on, and nothing else changed:
      no mapped block has moved, no other byte of any file differs. */
  ghost predicate Patched(v: Vol, v': Vol, i: nat, off: nat, data: seq<byte>) {
    && VolOk(v) && VolOk(v') && i < |v.inodes| == |v'.inodes| && |v.blocks| == |v'.blocks| && v.nmeta == v'.nmeta
    && v'.inodes == v.inodes[i := v.inodes[i].(addrs := v'.inodes[i].addrs, size := v'.inodes[i].size)]
    && (forall s :: SlotOk(|v.inodes|, s) && Addr(v.inodes, v.blocks, s) != 0 ==>
          Addr(v'.inodes, v'.blocks, s) == Addr(v.inodes, v.blocks, s))
    && (forall j, p :: 0 <= j < |v.inodes| && 0 <= p < MAXBYTES ==>
          Byte(v', j, p) == if j == i && off <= p < off + |data| then data[p - off] else Byte(v, j, p))
    && (forall bn :: 0 <= bn < MAXFILE && off / BSIZE <= bn && bn * BSIZE < off + |data| && data != [] ==>
          Addr(v'.inodes, v'.blocks, Data(i, bn)) != 0)
  }

  lemma GrownKeepsBytes(v: Vol, v': Vol, i: nat, bn: nat)
    requires VolOk(v) && VolOk(v') && Grown(v, v', i, bn) && bn < MAXFILE && v.nmeta == v'.nmeta
    requires (var a := FileBlock(v'.inodes[i], v'.blocks, bn);
      a != 0
      && if FileBlock(v.inodes[i], v.blocks, bn) == 0 then a < |v'.blocks| && v'.blocks[a] == Zeros() else v == v')
    ensures Patched(v, v', i, bn * BSIZE, [])
  {
    forall j, p | 0 <= j < |v.inodes| && 0 <= p < MAXBYTES ensures Byte(v', j, p) == Byte(v, j, p) {
      assert SlotOk(|v.inodes|, Data(j, p / BSIZE));
    }
  }

  /** memmove into a data block that is mapped as block bn of file i. */
  lemma PokeBytes(v: Vol, i: nat, off: nat, data: seq<byte>)
    requires VolOk(v) && i < |v.inodes| && data != [] && off % BSIZE + |data| <= BSIZE && off + |data| <= MAXBYTES
    requires FileBlock(v.inodes[i], v.blocks, off / BSIZE) != 0
    ensures var a := FileBlock(v.inodes[i], v.blocks, off / BSIZE);
      && a < |v.blocks|
      && FileBlock(v.inodes[i], v.blocks[a := Splice(v.blocks[a], off % BSIZE, data)], off / BSIZE) == a
      && Patched(v, v.(blocks := v.blocks[a := Splice(v.blocks[a], off % BSIZE, data)]), i, off, data)
      && SameAddrs(v, v.(blocks := v.blocks[a := Splice(v.blocks[a], off % BSIZE, data)]))
  {
    var bn := off / BSIZE;
    assert SlotOk(|v.inodes|, Data(i, bn));
    var a := Addr(v.inodes, v.blocks, Data(i, bn));
    var x := Splice(v.blocks[a], off % BSIZE, data);
    WriteData(v.inodes, v.blocks, v.owner, v.nmeta, a, x);
    var v' := v.(blocks := v.blocks[a := x]);
    forall j, p | 0 <= j < |v.inodes| && 0 <= p < MAXBYTES
      ensures Byte(v', j, p) == if j == i && off <= p < off + |data| then data[p - off] else Byte(v, j, p)
    {
      assert SlotOk(|v.inodes|, Data(j, p / BSIZE));
      if Addr(v.inodes, v.blocks, Data(j, p / BSIZE)) == a {
        OwnedOnce(v.inodes, v.blocks, v.owner, v.nmeta, Data(j, p / BSIZE), Data(i, bn));
      }
    }
  }

  ghost predicate SameAddrs(v: Vol, v': Vol) {
    && VolOk(v) && VolOk(v') && |v.inodes| == |v'.inodes|
    && forall s :: SlotOk(|v.inodes|, s) ==> Addr(v'.inodes, v'.blocks, s) == Addr(v.inodes, v.blocks, s)
  }

  lemma PatchedTwice(u: Vol, v: Vol, w: Vol, i: nat, off: nat, a: seq<byte>, b: seq<byte>)
    requires Patched(u, v, i, off, a) && Patched(v, w, i, off + |a|, b)
    ensures Patched(u, w, i, off, a + b)
  {
    forall bn | 0 <= bn < MAXFILE && off / BSIZE <= bn && bn * BSIZE < off + |a + b| && a + b != []
      ensures Addr(w.inodes, w.blocks, Data(i, bn)) != 0
    {
      assert SlotOk(|u.inodes|, Data(i, bn));
      if a != [] && bn * BSIZE < off + |a| {
        assert Addr(v.inodes, v.blocks, Data(i, bn)) != 0;
      }
    }
  }

  /** Every block below the size of a file is mapped. */
  ghost predicate Dense(v: Vol, i: nat)
    requires VolOk(v) && i < |v.inodes|
  {
    && v.inodes[i].size <= MAXBYTES
    && forall bn :: 0 <= bn < MAXFILE && bn * BSIZE < v.inodes[i].size ==> Addr(v.inodes, v.blocks, Data(i, bn)) != 0
  }

  /** The contents of file i: what the file layer shows of its bytes. */
  ghost function Content(v: Vol, i: nat): (c: seq<byte>)
    requires VolOk(v) && i < |v.inodes| && v.inodes[i].size <= MAXBYTES
    ensures |c| == v.inodes[i].size
  {
    seq(v.inodes[i].size, p requires 0 <= p < v.inodes[i].size => Byte(v, i, p))
  }

  function Splice(x: Block, k: nat, data: seq<byte>): Block
    requires k + |data| <= BSIZE
  {
    x[..k] + data + x[k + |data|..]
  }

  class Fs {
    const nmeta: nat
    var bitmap: seq<bool>        // free map, bit b for block b
    var blocks: seq<Block>
    var inodes: seq<Inode>       // in-memory inodes
    var dinodes: seq<Inode>      // inode blocks
    ghost var owner: map<nat, Slot>
    ghost var trace: seq<Write>   // the log_write calls so far

    ghost function Now(): Vol
      reads this
    { Vol(inodes, blocks, owner, nmeta) }

    ghost function D(): Disk reads this { Disk(bitmap, dinodes, blocks, nmeta) }

    ghost predicate Structure()
      reads this
    {
      && |bitmap| == |blocks| && |dinodes| == |inodes|
      && VolOk(Now()) && BitsOk(bitmap, owner.Keys, nmeta)
    }

    /** Mounting: the inodes in memory are those on the disk. */
    constructor (bitmap: seq<bool>, dinodes: seq<Inode>, blocks: seq<Block>, ghost owner: map<nat, Slot>, nmeta: nat)
      requires |bitmap| == |blocks| && VolOk(Vol(dinodes, blocks, owner, nmeta)) && BitsOk(bitmap, owner.Keys, nmeta)
      ensures Sound() && Now() == Vol(dinodes, blocks, owner, nmeta) && this.bitmap == bitmap && trace == []
    {
      this.bitmap, this.dinodes, this.blocks, this.nmeta := bitmap, dinodes, blocks, nmeta;
      inodes := dinodes;
      this.owner, trace := owner, [];
    }

    /** Between file-system operations: exact ownership, an exact bitmap, and inode blocks equal to the
        in-memory inodes. */
    ghost predicate Sound()
      reads this
    {
      Structure() && dinodes == inodes
    }

    /** balloc: the first clear bit; `ok` is false where the source panics. */
    method Balloc() returns (ok: bool, r: nat)
      requires |bitmap| == |blocks|
      modifies this`bitmap, this`blocks, this`trace
      ensures ok ==> r < old(|bitmap|) && !old(bitmap)[r] && (forall k :: 0 <= k < r ==> old(bitmap)[k])
      ensures ok ==> bitmap == old(bitmap)[r := true] && blocks == old(blocks)[r := Zeros()]
      ensures ok ==> trace == old(trace) + [Write(BitmapBlock(r / BPB), Holds(D(), BitmapBlock(r / BPB))),
        Write(HomeBlock(r), HeldData(Zeros()))]
      ensures !ok ==> unchanged(this) && forall k :: 0 <= k < |bitmap| ==> bitmap[k]
    {
      var b := 0;
      while b < |bitmap|
        invariant b % BPB == 0 && forall k :: 0 <= k < b && k < |bitmap| ==> bitmap[k]
        invariant unchanged(this)
      {
        var bi := 0;
        while bi < BPB && b + bi < |bitmap|
          invariant bi <= BPB && forall k :: 0 <= k < b + bi && k < |bitmap| ==> bitmap[k]
          invariant unchanged(this)
        {
          if !bitmap[b + bi] {
            bitmap := bitmap[b + bi := true];
            blocks := blocks[b + bi := Zeros()];
            trace := trace + [Write(BitmapBlock((b + bi) / BPB), Holds(D(), BitmapBlock((b + bi) / BPB))),
                              Write(HomeBlock(b + bi), HeldData(Zeros()))];
            return true, b + bi;
          }
          bi := bi + 1;
        }
        b := b + BPB;
      }
      return false, 0;
    }

    /** bfree; `ok` is false where the source panics with "freeing free block". */
    method Bfree(b: nat) returns (ok: bool)
      requires b < |bitmap|
      modifies this`bitmap, this`trace
      ensures ok == old(bitmap)[b]
      ensures bitmap == if ok then old(bitmap)[b := false] else old(bitmap)
      ensures trace == if ok then old(trace) + [Write(BitmapBlock(b / BPB), Holds(D(), BitmapBlock(b / BPB)))]
        else old(trace)
      ensures Freed(old(D()), D(), old(trace), trace)
    {
      FreedNone(D(), trace);
      if !bitmap[b] { return false; }
      FreedBit(D(), b, trace);
      bitmap := bitmap[b := false];
      trace := trace + [Write(BitmapBlock(b / BPB), Holds(D(), BitmapBlock(b / BPB)))];
      return true;
    }

    /** balloc seen from the block maps: a fresh zeroed block that nothing refers to. */
    method Fresh() returns (ok: bool, r: nat)
      requires Structure()
      modifies this`bitmap, this`blocks, this`trace
      ensures |bitmap| == |blocks| == old(|blocks|)
      ensures ok ==> nmeta <= r < |blocks| && r !in owner
      ensures ok ==> blocks == old(blocks)[r := Zeros()] && BitsOk(bitmap, owner.Keys + {r}, nmeta)
      ensures ok ==> Blocks(trace) == Blocks(old(trace)) + {BitmapBlock(r / BPB), HomeBlock(r)}
      ensures ok ==> Effect(old(D()), D(), old(trace), trace) && Took(old(bitmap), bitmap, trace, r)
      ensures ok <==> Free(old(bitmap)) > 0
      ensures ok ==> Free(bitmap) == Free(old(bitmap)) - 1
      ensures !ok ==> bitmap == old(bitmap) && forall k :: 0 <= k < |bitmap| ==> bitmap[k]
    {
      FreeNone(bitmap);
      hide Free;
      ok, r := Balloc();
      if ok {
        assert !old(bitmap)[r];
        FreeTaken(old(bitmap), r);
        AllocTraced(old(D()), r, old(trace));
        assert D() == old(D()).(bitmap := bitmap, blocks := blocks);
      }
    }

    method BmapDirect(i: nat, bn: nat) returns (ok: bool, addr: nat)
      requires Structure() && i < |inodes| && bn < NDIRECT
      modifies this`bitmap, this`blocks, this`inodes, this`owner, this`trace
      ensures ok ==> Structure() && Grown(old(Now()), Now(), i, bn)
      ensures ok ==> 0 != addr == FileBlock(inodes[i], blocks, bn) < |blocks|
      ensures old(inodes[i].addrs[bn]) != 0 ==> ok
      ensures ok ==> if old(inodes[i].addrs[bn]) != 0 then unchanged(this) else blocks[addr] == Zeros()
      ensures ok ==> Blocks(trace) <= Blocks(old(trace)) + {BitmapBlock(addr / BPB), HomeBlock(addr)}
      ensures ok ==> Effect(old(D()), D(), old(trace), trace)
      ensures ok && old(inodes[i].addrs[bn]) == 0 ==> Took(old(bitmap), bitmap, trace, addr)
      ensures ok ==> inodes[i].addrs == old(inodes[i].addrs)[bn := addr]
      ensures ok <==> Need(old(Now()), i, bn) <= Free(old(bitmap))
      ensures ok ==> Free(bitmap) + Need(old(Now()), i, bn) == Free(old(bitmap))
      ensures !ok ==> forall k :: 0 <= k < |bitmap| ==> bitmap[k]
    {
      hide Owns, Grown, Effect, Took, Free;
      AddrsShape(Now(), i);
      SlotMapped(Now(), i, Data(i, bn), bn);
      EffectSelf(D(), trace);
      ok, addr := true, inodes[i].addrs[bn];
      if addr == 0 {
        ok, addr := Fresh();
        if ok {
          DirectGrows(old(Now()), i, bn, addr);
          inodes := inodes[i := inodes[i].(addrs := inodes[i].addrs[bn := addr])];
          owner := owner[addr := Data(i, bn)];
        }
      }
    }

    /** The first half of bmap beyond the direct blocks: load or allocate the indirect block. */
    method BmapIndirect(i: nat, ghost bn: nat) returns (ok: bool, ind: nat)
      requires Structure() && i < |inodes| && NDIRECT <= bn < MAXFILE
      modifies this`bitmap, this`blocks, this`inodes, this`owner, this`trace
      ensures ok ==> Structure() && Grown(old(Now()), Now(), i, bn)
      ensures ok ==> 0 != ind == inodes[i].addrs[NDIRECT] < |blocks|
      ensures ok ==> FileBlock(inodes[i], blocks, bn) == FileBlock(old(inodes)[i], old(blocks), bn)
      ensures old(inodes[i].addrs[NDIRECT]) != 0 ==> ok && unchanged(this)
      ensures ok ==> Blocks(trace) <= Blocks(old(trace)) + {BitmapBlock(ind / BPB), HomeBlock(ind)}
      ensures ok ==> Effect(old(D()), D(), old(trace), trace)
      ensures ok <==> old(inodes[i].addrs[NDIRECT]) != 0 || Free(old(bitmap)) > 0
      ensures ok ==> Free(old(bitmap)) == Free(bitmap) + if old(inodes[i].addrs[NDIRECT]) == 0 then 1 else 0
      ensures !ok ==> forall k :: 0 <= k < |bitmap| ==> bitmap[k]
    {
      hide Owns, Grown, Effect, Took, Free;
      AddrsShape(Now(), i);
      SlotMapped(Now(), i, Ind(i), bn);
      EffectSelf(D(), trace);
      ok, ind := true, inodes[i].addrs[NDIRECT];
      if ind == 0 {
        ok, ind := Fresh();
        if ok {
          IndirectGrows(old(Now()), i, bn, ind);
          inodes := inodes[i := inodes[i].(addrs := inodes[i].addrs[NDIRECT := ind])];
          owner := owner[ind := Ind(i)];
        }
      }
    }

    /** The second half: look up the entry, or allocate a block and enter it. */
    method BmapEntry(i: nat, k: nat, ind: nat) returns (ok: bool, addr: nat)
      requires Structure() && i < |inodes| && k < NINDIRECT && 0 != ind == inodes[i].addrs[NDIRECT]
      modifies this`bitmap, this`blocks, this`owner, this`trace
      ensures ok ==> Structure() && Grown(old(Now()), Now(), i, NDIRECT + k)
      ensures ok ==> 0 != addr == FileBlock(inodes[i], blocks, NDIRECT + k) < |blocks|
      ensures old(Word(blocks[ind], k)) != 0 ==> ok
      ensures ok ==> if old(Word(blocks[ind], k)) != 0 then unchanged(this) else blocks[addr] == Zeros()
      ensures ok ==> Blocks(trace) <= Blocks(old(trace)) + {BitmapBlock(addr / BPB), HomeBlock(addr), HomeBlock(ind)}
      ensures ok ==> Effect(old(D()), D(), old(trace), trace)
      ensures ok && old(Word(blocks[ind], k)) == 0 ==> Took(old(bitmap), bitmap, trace, addr)
      ensures ok <==> old(Word(blocks[ind], k)) != 0 || Free(old(bitmap)) > 0
      ensures ok ==> Free(old(bitmap)) == Free(bitmap) + if old(Word(blocks[ind], k)) == 0 then 1 else 0
      ensures !ok ==> forall k :: 0 <= k < |bitmap| ==> bitmap[k]
    {
      hide Owns, Word, Grown, Effect, Took, Blocks, Free;
      AddrsShape(Now(), i);
      EntryMapped(Now(), i, k);
      EffectSelf(D(), trace);
      ok, addr := true, Word(blocks[ind], k);
      if addr == 0 { ok, addr := EnterBlock(i, k, ind); }
    }

    /** A fresh block entered in the indirect block. */
    method EnterBlock(i: nat, k: nat, ind: nat) returns (ok: bool, addr: nat)
      requires Structure() && i < |inodes| && k < NINDIRECT && 0 != ind == inodes[i].addrs[NDIRECT]
      requires Word(blocks[ind], k) == 0
      modifies this`bitmap, this`blocks, this`owner, this`trace
      ensures ok ==> Structure() && Grown(old(Now()), Now(), i, NDIRECT + k)
      ensures ok ==> 0 != addr == FileBlock(inodes[i], blocks, NDIRECT + k) < |blocks| && blocks[addr] == Zeros()
      ensures ok ==> Blocks(trace) <= Blocks(old(trace)) + {BitmapBlock(addr / BPB), HomeBlock(addr), HomeBlock(ind)}
      ensures ok ==> Effect(old(D()), D(), old(trace), trace) && Took(old(bitmap), bitmap, trace, addr)
      ensures ok <==> Free(old(bitmap)) > 0
      ensures ok ==> Free(old(bitmap)) == Free(bitmap) + 1
      ensures !ok ==> forall k :: 0 <= k < |bitmap| ==> bitmap[k]
    {
      hide Owns, Word, PutWord, Grown, Effect, Took, Blocks, BitsOk, Free;
      AddrsShape(Now(), i);
      SlotMapped(Now(), i, Ind(i), 0);
      ok, addr := Fresh();
      if ok {
        EntryGrows(old(Now()), i, k, addr);
        var x := PutWord(blocks[ind], k, addr);
        TookThenBlock(old(D()), D(), old(trace), trace, addr, ind, x);
        blocks := blocks[ind := x];
        assert owner[addr := Data(i, NDIRECT + k)].Keys == owner.Keys + {addr};
        owner := owner[addr := Data(i, NDIRECT + k)];
        trace := trace + [Write(HomeBlock(ind), HeldData(x))];
      }
    }

    /** bmap: the disk block of the bn-th block of file i, allocated if there is none. */
    method Bmap(i: nat, bn: nat) returns (ok: bool, addr: nat)
      requires Structure() && i < |inodes|
      modifies this`bitmap, this`blocks, this`inodes, this`owner, this`trace
      ensures ok ==> bn < MAXFILE && Structure() && Grown(old(Now()), Now(), i, bn)
      ensures ok ==> 0 != addr == FileBlock(inodes[i], blocks, bn) < |blocks| && nmeta <= addr
      ensures bn < MAXFILE && FileBlock(old(inodes)[i], old(blocks), bn) != 0 ==> ok
      ensures ok ==>
        if FileBlock(old(inodes)[i], old(blocks), bn) != 0 then unchanged(this) else blocks[addr] == Zeros()
      ensures ok ==> Blocks(trace) <= Blocks(old(trace)) + Touched(inodes[i], addr, bn)
      ensures ok ==> Effect(old(D()), D(), old(trace), trace)
      ensures ok && FileBlock(old(inodes)[i], old(blocks), bn) == 0 ==> TookSome(old(bitmap), bitmap, trace)
      ensures ok ==> (inodes == old(inodes) <==> Rooted(old(inodes)[i], bn))
      ensures ok ==> (inodes[i].addrs[NDIRECT] == 0 <==> old(inodes)[i].addrs[NDIRECT] == 0 && bn < NDIRECT)
      ensures ok <==> bn < MAXFILE && Need(old(Now()), i, bn) <= Free(old(bitmap))
      ensures ok ==> Free(bitmap) + Need(old(Now()), i, bn) == Free(old(bitmap))
      ensures !ok ==> bn >= MAXFILE || forall k :: 0 <= k < |bitmap| ==> bitmap[k]
    {
      hide Owns, Word, Effect, Took, Free;
      AddrsShape(Now(), i);
      if bn < NDIRECT {
        ok, addr := BmapDirect(i, bn);
      } else if bn - NDIRECT < NINDIRECT {
        var ind;
        ok, ind := BmapIndirect(i, bn);
        if !ok { return false, 0; }
        AddrsShape(Now(), i);
        ghost var had := FileBlock(inodes[i], blocks, bn);
        ghost var mid, midD, midT := Now(), D(), trace;
        ok, addr := BmapEntry(i, bn - NDIRECT, ind);
        if ok {
          GrownTwice(old(Now()), mid, Now(), i, bn);
          EffectTwice(old(D()), midD, D(), old(trace), midT, trace);
          if had == 0 {
            assert Took(midD.bitmap, bitmap, trace, addr);
            StillTook(old(D()), midD, D(), old(trace), midT, trace);
          }
        }
      } else {
        ok, addr := false, 0;
      }
      if ok { SlotMapped(Now(), i, Data(i, bn), bn); }
    }

    /** One turn of writei's loop. */
    method WriteChunk(i: nat, off: nat, data: seq<byte>) returns (ok: bool, addr: nat)
      requires Structure() && i < |inodes| && data != []
      requires off % BSIZE + |data| <= BSIZE && off + |data| <= MAXBYTES
      modifies this`bitmap, this`blocks, this`inodes, this`owner, this`trace
      ensures ok ==> Structure()
      ensures ok ==> Progress(old(Now()), Now(), i, off, data, {addr}, old(D()), D(), old(trace), trace)
      ensures !ok ==> |Holes(old(Now()), i, off, |data|)| > Free(old(bitmap))
      ensures !ok ==> forall k :: 0 <= k < |bitmap| ==> bitmap[k]
    {
      hide Owns, Word, FileBlock, Splice, Effect, Rooted, Progress, Need, Holes, Free, Grown, Touched, BitsOk, Blocks;
      NeedIsHoles(Now(), i, off, |data|);
      ok, addr := Bmap(i, off / BSIZE);
      if ok {
        var x := Splice(blocks[addr], off % BSIZE, data);
        ChunkWritten(old(Now()), Now(), i, off, data, addr, old(D()), D(), old(trace), trace);
        blocks := blocks[addr := x];
        trace := trace + [Write(HomeBlock(addr), HeldData(x))];
      }
    }

    /** iupdate: copy the in-memory inode to its inode block. */
    method Iupdate(i: nat)
      requires i < |inodes| == |dinodes|
      modifies this`dinodes, this`trace
      ensures dinodes == old(dinodes)[i := inodes[i]]
      ensures trace == old(trace) + [Write(InodeBlock(i / IPB), Holds(D(), InodeBlock(i / IPB)))]
    {
      dinodes := dinodes[i := inodes[i]];
      trace := trace + [Write(InodeBlock(i / IPB), Holds(D(), InodeBlock(i / IPB)))];
    }

    /** The loop of writei.  `homes` collects the data blocks it wrote. */
    method WriteLoop(i: nat, src: seq<byte>, off0: nat) returns (ok: bool, ghost homes: set<nat>)
      requires Structure() && i < |inodes| && off0 + |src| <= MAXBYTES
      modifies this`bitmap, this`blocks, this`inodes, this`owner, this`trace
      ensures ok ==> Structure()
      ensures ok ==> Progress(old(Now()), Now(), i, off0, src, homes, old(D()), D(), old(trace), trace)
      ensures ok ==> FewHomes(off0, |src|, |homes|)
      ensures ok <==> |Holes(old(Now()), i, off0, |src|)| <= Free(old(bitmap))
      ensures !ok ==> forall k :: 0 <= k < |bitmap| ==> bitmap[k]
    {
      hide Owns, Progress, Effect, Holes, Free, Takes, Patched, OneInode, AllRooted, BitsOk, FewHomes;
      var n := |src|;
      var tot, off := 0, off0;
      ok, homes := true, {};
      NoProgress(Now(), i, off0, D(), trace);
      FewHomesNone(off0);
      assert src[..0] == [];
      while tot < n
        invariant tot <= n && off == off0 + tot && Structure() && i < |inodes|
        invariant Progress(old(Now()), Now(), i, off0, src[..tot], homes, old(D()), D(), old(trace), trace)
        invariant 0 < tot < n ==> off % BSIZE == 0
        invariant FewHomes(off0, tot, |homes|)
      {
        var m := if n - tot < BSIZE - off % BSIZE then n - tot else BSIZE - off % BSIZE;
        ghost var mid, midD, midT := Now(), D(), trace;
        var addr;
        ok, addr := WriteChunk(i, off, src[tot..tot + m]);
        if !ok {
          ProgressParts(old(Now()), mid, i, off0, src[..tot], homes, old(D()), midD, old(trace), midT);
          TakesFails(old(Now()), mid, i, off0, tot, m, n, old(bitmap), midD.bitmap);
          return;
        }
        ProgressTwice(old(Now()), mid, Now(), i, off0, src[..tot], src[tot..tot + m], homes, {addr},
                      old(D()), midD, D(), old(trace), midT, trace);
        assert src[..tot] + src[tot..tot + m] == src[..tot + m];
        FewHomesMore(off0, tot, m, |homes|, |homes + {addr}|);
        homes := homes + {addr};
        tot, off := tot + m, off + m;
      }
      assert src[..n] == src;
      ProgressParts(old(Now()), Now(), i, off0, src, homes, old(D()), D(), old(trace), trace);
      TakesFree(old(Now()), Now(), i, off0, n, old(bitmap), bitmap);
    }

    /** writei on a file that is not a device.  `ok` is false where balloc panics, exactly when the range lacks more
        blocks than are free.  iupdate follows only if the file grew: a write that fills holes leaves the inode
        block behind exactly if the inode got an address. */
    method Writei(i: nat, src: seq<byte>, off: nat) returns (ok: bool, r: int, ghost homes: set<nat>)
      requires Structure() && i < |inodes| && |src| < WORD && off < WORD
      modifies this
      ensures ok <==>
        off > old(inodes)[i].size || off + |src| > MAXBYTES || |Holes(old(Now()), i, off, |src|)| <= Free(old(bitmap))
      ensures ok ==> Structure() && r == if off > old(inodes)[i].size || off + |src| > MAXBYTES then -1 else |src|
      ensures ok && r < 0 ==> unchanged(this)
      ensures ok && r >= 0 ==> Written(old(Now()), Now(), i, off, src)
      ensures ok && r >= 0 ==> Takes(old(Now()), Now(), i, off, |src|, old(bitmap), bitmap)
      ensures ok && r >= 0 ==> |old(inodes)[i].addrs| == NDIRECT + 1 && |inodes| == |old(inodes)| == |old(dinodes)|
      ensures ok && r >= 0 ==>
        if |src| > 0 && off + |src| > old(inodes)[i].size then dinodes == old(dinodes)[i := inodes[i]]
        else dinodes == old(dinodes) && (inodes == old(inodes) <==> AllRooted(old(inodes)[i], off, |src|))
      ensures ok && old(Sound()) && r >= 0 ==>
        (Sound() <==>
          (|src| > 0 && off + |src| > old(inodes)[i].size) || AllRooted(old(inodes)[i], off, |src|))
      ensures ok ==> forall j :: 0 <= j < |inodes| && Dense(old(Now()), j) ==> Dense(Now(), j)
      ensures ok && old(Sound()) && Dense(old(Now()), i) ==> Sound()
      ensures ok ==> Effect(old(D()), D(), old(trace), trace)
      ensures ok && |blocks| <= BPB && |src| <= 1536 ==> |Blocks(trace) - Blocks(old(trace))| <= 7
      ensures !ok ==> forall k :: 0 <= k < |bitmap| ==> bitmap[k]
    {
      hide Owns, Word, FileBlock, Addr, Byte, Patched, OneInode, Progress, Effect, AllRooted, Takes, Holes, Free;
      hide FewHomes, Blocks, BitsOk, Dense;
      ok, homes := true, {};
      EffectSelf(D(), trace);
      var n := |src|;
      if off > inodes[i].size || (off + n) % WORD < off { return true, -1, {}; }
      if (off + n) % WORD > MAXBYTES { return true, -1, {}; }
      ok, homes := WriteLoop(i, src, off);
      if !ok { return false, -1, homes; }
      ghost var mid, midD, midT := Now(), D(), trace;
      ProgressParts(old(Now()), mid, i, off, src, homes, old(D()), midD, old(trace), midT);
      if n > 0 && off + n > inodes[i].size {
        inodes := inodes[i := inodes[i].(size := off + n)];
        Resize(old(Now()), mid, i, off, src, off + n);
        TakesSame(old(Now()), mid, Now(), i, off, n, old(bitmap), bitmap);
        EffectInode(midD, i, inodes[i], midT);
        Iupdate(i);
        EffectTwice(old(D()), midD, D(), old(trace), midT, trace);
        BlocksAdd(midT, Write(InodeBlock(i / IPB), Holds(D(), InodeBlock(i / IPB))));
      } else if Dense(old(Now()), i) {
        DenseRooted(old(Now()), i, off, n);
      }
      DenseKept(old(Now()), Now(), i, off, src);
      FewHomesBound(off, n, |homes|);
      CountLogged(mid.inodes[i], homes, i / IPB, Blocks(trace) - Blocks(old(trace)));
      r := n;
    }

    /** One turn of readi's loop. */
    method ReadChunk(i: nat, off: nat, m: nat) returns (ok: bool, data: seq<byte>)
      requires Structure() && i < |inodes| && 0 < m && off % BSIZE + m <= BSIZE
      modifies this`bitmap, this`blocks, this`inodes, this`owner, this`trace
      ensures ok ==> Structure() && off + m <= MAXBYTES && data == Bytes(old(Now()), i, off, m)
      ensures ok ==> Seen(old(Now()), Now(), i, off, m, old(D()), D(), old(trace), trace)
      ensures ok <==> off < MAXBYTES && |Holes(old(Now()), i, off, m)| <= Free(old(bitmap))
      ensures !ok ==> off >= MAXBYTES || !Covered(old(Now()), i, off, m)
      ensures !ok && off < MAXBYTES ==> forall k :: 0 <= k < |bitmap| ==> bitmap[k]
    {
      hide Owns, Word, Byte, Patched, Effect, TookSome, Bytes, Need, Holes, Free, Rooted, Seen, FileBlock, Grown;
      hide Blocks, Touched, BitsOk;
      var b;
      if off < MAXBYTES { NeedIsHoles(Now(), i, off, m); }
      ok, b := Bmap(i, off / BSIZE);
      if off / BSIZE < MAXFILE { HoleOne(old(Now()), i, off, m); }
      if !ok { return false, []; }
      ChunkSeen(old(Now()), Now(), i, off, m, b, old(D()), D(), old(trace), trace);
      data := blocks[b][off % BSIZE..off % BSIZE + m];
    }

    /** The loop of readi. */
    method ReadLoop(i: nat, n: nat, off0: nat) returns (ok: bool, dst: seq<byte>)
      requires Structure() && i < |inodes|
      modifies this`bitmap, this`blocks, this`inodes, this`owner, this`trace
      ensures ok ==> Structure() && i < |inodes|
      ensures ok ==> Seen(old(Now()), Now(), i, off0, n, old(D()), D(), old(trace), trace)
      ensures ok && n > 0 ==> off0 + n <= MAXBYTES && dst == Bytes(old(Now()), i, off0, n)
      ensures n == 0 ==> ok && dst == []
      ensures ok <==> n == 0 || (off0 + n <= MAXBYTES && |Holes(old(Now()), i, off0, n)| <= Free(old(bitmap)))
      ensures !ok ==> off0 + n > MAXBYTES || !Covered(old(Now()), i, off0, n)
      ensures !ok && off0 + n <= MAXBYTES ==> forall k :: 0 <= k < |bitmap| ==> bitmap[k]
    {
      hide Owns, Byte, Patched, Effect, TookSome, Covered, Seen, Bytes, Takes, Holes, Free, AllRooted;
      ok, dst := true, [];
      SeenNone(Now(), i, off0, 0, D(), trace);
      var tot, off := 0, off0;
      while tot < n
        invariant tot <= n && off == off0 + tot && Structure() && i < |inodes| && ok
        invariant Seen(old(Now()), Now(), i, off0, tot, old(D()), D(), old(trace), trace)
        invariant off0 + tot <= MAXBYTES || tot == 0
        invariant dst == if tot == 0 then [] else Bytes(old(Now()), i, off0, tot)
      {
        var m := if n - tot < BSIZE - off % BSIZE then n - tot else BSIZE - off % BSIZE;
        ghost var mid, midD, midT := Now(), D(), trace;
        SeenParts(old(Now()), mid, i, off0, tot, old(D()), midD, old(trace), midT);
        var data;
        ok, data := ReadChunk(i, off, m);
        if !ok {
          if off < MAXBYTES {
            TakesFails(old(Now()), mid, i, off0, tot, m, n, old(bitmap), midD.bitmap);
            SeenHole(old(Now()), mid, i, off0, tot, m, n - tot - m, old(D()), midD, old(trace), midT);
          }
          return false, dst;
        }
        SeenTwice(old(Now()), mid, Now(), i, off0, tot, m, old(D()), midD, D(), old(trace), midT, trace);
        SeenParts(old(Now()), Now(), i, off0, tot + m, old(D()), D(), old(trace), trace);
        BytesTwice(old(Now()), mid, i, off0, tot, m);
        dst := dst + data;
        tot, off := tot + m, off + m;
      }
      SeenParts(old(Now()), Now(), i, off0, n, old(D()), D(), old(trace), trace);
      TakesFree(old(Now()), Now(), i, off0, n, old(bitmap), bitmap);
    }

    /** readi on a file that is not a device: the requested bytes, cut at the end of the file; a hole reads
        as zeros, but bmap then allocates it.  So a read changes nothing just when its range has no hole, and
        otherwise log_writes.  `ok` is false where bmap or balloc panics. */
    method Readi(i: nat, off0: nat, n0: nat) returns (ok: bool, r: int, dst: seq<byte>)
      requires Structure() && i < |inodes| && off0 < WORD && n0 < WORD
      modifies this`bitmap, this`blocks, this`inodes, this`owner, this`trace
      ensures r == -1 <==> off0 > old(inodes)[i].size || off0 + n0 >= WORD
      ensures r != -1 ==>
        0 <= r <= n0 && r <= old(inodes)[i].size - off0 && (r == n0 || off0 + r == old(inodes)[i].size)
      ensures r < 0 ==> ok && unchanged(this)
      ensures ok ==> Structure() && Patched(old(Now()), Now(), i, off0, []) && inodes[i].size == old(inodes[i].size)
      ensures ok && r > 0 ==> off0 + r <= MAXBYTES && dst == Bytes(old(Now()), i, off0, r)
      ensures ok && r == 0 ==> dst == []
      ensures ok ==> Takes(old(Now()), Now(), i, off0, r, old(bitmap), bitmap)
      ensures ok && Covered(old(Now()), i, off0, r) ==> unchanged(this)
      ensures ok && !Covered(old(Now()), i, off0, r) ==> TookSome(old(bitmap), bitmap, trace)
      ensures ok ==>
        |old(inodes)[i].addrs| == NDIRECT + 1 && (inodes == old(inodes) <==> AllRooted(old(inodes)[i], off0, r))
      ensures ok && old(Sound()) ==> (Sound() <==> AllRooted(old(inodes)[i], off0, r))
      ensures ok <==> r <= 0 || (off0 + r <= MAXBYTES && |Holes(old(Now()), i, off0, r)| <= Free(old(bitmap)))
      ensures !ok ==> off0 + r > MAXBYTES || !Covered(old(Now()), i, off0, r)
      ensures !ok && off0 + r <= MAXBYTES ==> forall k :: 0 <= k < |bitmap| ==> bitmap[k]
    {
      hide Owns, Byte, Patched, Effect, TookSome, Covered, Seen, Bytes, Takes, Holes, Free, AllRooted;
      ok, dst := true, [];
      SeenNone(Now(), i, off0, -1, D(), trace);
      SeenParts(Now(), Now(), i, off0, -1, D(), D(), trace, trace);
      if off0 > inodes[i].size || (off0 + n0) % WORD < off0 { return true, -1, []; }
      var n := n0;
      if off0 + n > inodes[i].size { n := inodes[i].size - off0; }
      r := n;
      ok, dst := ReadLoop(i, n, off0);
      if ok { SeenParts(old(Now()), Now(), i, off0, n, old(D()), D(), old(trace), trace); }
    }

    /** One transaction of filewrite. */
    method WriteTx(i: nat, data: seq<byte>, off: nat) returns (ok: bool, w: int)
      requires Sound() && i < |inodes| && Dense(Now(), i) && 0 < |data| <= 1536 && off < WORD
      modifies this
      ensures ok <==>
        off > old(inodes)[i].size || off + |data| > MAXBYTES || |Holes(old(Now()), i, off, |data|)| <= Free(old(bitmap))
      ensures ok ==> Sound() && w == if off > old(inodes)[i].size || off + |data| > MAXBYTES then -1 else |data|
      ensures ok ==> |inodes| == old(|inodes|)
      ensures ok ==> WroteTx(old(Now()), old(D()), Now(), D(), i, off, if w < 0 then [] else data, trace)
      ensures !ok ==> forall k :: 0 <= k < |bitmap| ==> bitmap[k]
    {
      hide Owns, Patched, Dense, AllRooted, Traced, Takes, Holes, Free;
      trace := [];
      PatchedSelf(Now(), i, off);
      TakesNone(Now(), i, off, 0, bitmap);
      ghost var homes;
      ok, w, homes := Writei(i, data, off);
      assert Blocks([]) == {} && Blocks(trace) - {} == Blocks(trace);
      if ok && w >= 0 { WrittenShape(old(Now()), Now(), i, off, data); }
    }

    /** filewrite on an inode: transactions of at most 1536 bytes each.  `txs` are their log_writes; `ds` and
        `vs` are the disk and the volume before the first, between them, and after the last. */
    method FileWrite(i: nat, src: seq<byte>, off0: nat)
      returns (ok: bool, r: int, off: nat, ghost ds: seq<Disk>, ghost vs: seq<Vol>, ghost txs: seq<seq<Write>>)
      requires Sound() && i < |inodes| && Dense(Now(), i) && |src| < 0x8000_0000 && off0 + |src| < WORD
      modifies this
      ensures ok <==> |Holes(old(Now()), i, off0, Accepted(old(inodes)[i], off0, |src|))| <= Free(old(bitmap))
      ensures ok ==> Sound() && off == off0 + Accepted(old(inodes)[i], off0, |src|) <= off0 + |src|
      ensures ok ==> Written(old(Now()), Now(), i, off0, src[..off - off0])
      ensures ok ==> forall j :: 0 <= j < |inodes| && Dense(old(Now()), j) ==> Dense(Now(), j)
      ensures ok ==> (r == |src| <==> src == [] || (off0 <= old(inodes)[i].size && off0 + |src| <= MAXBYTES))
      ensures ok ==> (r == |src| ==> off == off0 + |src|) && (r != |src| ==> r == -1)
      ensures ok ==> Chain(ds, txs) && |ds| == |txs| + 1 && ds[0] == old(D()) && ds[|txs|] == D()
      ensures ok ==> Chunks(ds, vs, old(Now()), i, off0, src, off - off0)
      ensures ok && |blocks| <= BPB ==> forall t :: t in txs ==> |Blocks(t)| <= 7
      ensures !ok ==> forall k :: 0 <= k < |bitmap| ==> bitmap[k]
    {
      hide Owns, Dense, Holes, Free, Accepted, Filed, WroteTx, Takes, Chain, Chunks, Written, Blocks;
      assert 0 == Least(0 * 1536, |src|);
      hide Least;
      SizeBound(Now(), i);
      var n := |src|;
      var max := ((10 - 1 - 1 - 2) / 2) * 512;
      var k := 0;
      ok, off, ds, vs, txs := true, off0, [D()], [Now()], [];
      FiledNone(Now(), D(), i, off0, src);
      while k < n
        invariant k == Least(|txs| * 1536, n) && off == off0 + k && Sound() && i < |inodes|
        invariant Filed(old(Now()), old(D()), Now(), D(), i, off0, src, k, ds, vs, txs)
      {
        var n1 := if n - k > max then max else n - k;
        ghost var mid, midD := Now(), D();
        FiledParts(old(Now()), old(D()), mid, midD, i, off0, src, k, ds, vs, txs);
        AcceptedAt(old(inodes)[i], off0, n, |txs|, k, n1);
        var w;
        ok, w := WriteTx(i, src[k..k + n1], off);
        if !ok {
          TakesFails(old(Now()), mid, i, off0, k, n1, Accepted(old(inodes)[i], off0, n), old(bitmap), midD.bitmap);
          r := -1;
          return;
        }
        ghost var m := if w < 0 then 0 else n1;
        assert src[k..k + m] == if w < 0 then [] else src[k..k + n1];
        FiledMore(old(Now()), old(D()), mid, midD, Now(), D(), i, off0, src, k, m, ds, vs, txs, trace);
        txs, ds, vs := txs + [trace], ds + [D()], vs + [Now()];
        if w < 0 { break; }
        off, k := off + w, k + w;
      }
      FiledParts(old(Now()), old(D()), Now(), D(), i, off0, src, k, ds, vs, txs);
      if k == n { AcceptedAll(old(inodes)[i], off0, n); }
      TakesFree(old(Now()), Now(), i, off0, k, old(bitmap), bitmap);
      r := if k == n then n else -1;
    }

    /** One turn of itrunc's first loop. */
    method FreeOne(i: nat, k: nat)
      requires Structure() && i < |inodes| && k < NDIRECT
      modifies this`bitmap, this`inodes, this`owner, this`trace
      ensures Structure() && inodes == old(inodes)[i := old(inodes[i]).(addrs := old(inodes[i]).addrs[k := 0])]
      ensures Dropped(old(owner), owner, Data(i, k))
      ensures Freed(old(D()), D(), old(trace), trace)
    {
      hide Owns, Freed, Holds;
      FreedNone(D(), trace);
      AddrsShape(Now(), i);
      var b := inodes[i].addrs[k];
      if b != 0 {
        FreeDirect(inodes, blocks, owner, nmeta, i, k);
        var ok := Bfree(b);
        assert ok;
        inodes := inodes[i := inodes[i].(addrs := inodes[i].addrs[k := 0])];
        owner := owner - {b};
      } else {
        assert inodes[i].addrs[k := 0] == inodes[i].addrs && inodes[i := inodes[i]] == inodes;
        Unused(Now(), Data(i, k));
      }
    }

    /** The first loop of itrunc. */
    method TruncDirect(i: nat)
      requires Structure() && i < |inodes|
      modifies this`bitmap, this`inodes, this`owner, this`trace
      ensures Structure()
      ensures inodes == old(inodes)[i := old(inodes[i]).(addrs := Cleared(old(inodes[i]).addrs, NDIRECT))]
      ensures forall b :: b in owner <==> b in old(owner) && (old(owner)[b].i != i || ViaIndirect(old(owner)[b], i))
      ensures forall b :: b in owner ==> owner[b] == old(owner)[b]
      ensures Freed(old(D()), D(), old(trace), trace)
    {
      hide Owns, Freed;
      AddrsShape(Now(), i);
      FreedNone(D(), trace);
      ghost var as0 := inodes[i].addrs;
      var k := 0;
      assert Cleared(as0, 0) == as0;
      while k < NDIRECT
        invariant k <= NDIRECT && Structure() && i < |inodes|
        invariant inodes == old(inodes)[i := old(inodes[i]).(addrs := Cleared(as0, k))]
        invariant forall b :: b in owner <==>
          b in old(owner) && !(old(owner)[b].Data? && old(owner)[b].i == i && old(owner)[b].bn < k)
        invariant forall b :: b in owner ==> owner[b] == old(owner)[b]
        invariant Freed(old(D()), D(), old(trace), trace)
      {
        ghost var midD, midT := D(), trace;
        FreeOne(i, k);
        FreedTwice(old(D()), midD, D(), old(trace), midT, trace);
        assert Cleared(as0, k)[k := 0] == Cleared(as0, k + 1);
        k := k + 1;
      }
    }

    /** The loop of itrunc over the entries of the indirect block, which keep their stale values. */
    method FreeEntries(i: nat, ind: nat)
      requires Structure() && i < |inodes| && 0 != ind == inodes[i].addrs[NDIRECT]
      modifies this`bitmap, this`trace
      ensures |bitmap| == |blocks| && BitsOk(bitmap, Kept(owner, i, NINDIRECT), nmeta)
      ensures Freed(old(D()), D(), old(trace), trace)
    {
      hide Word, Freed, Holds;
      FreedNone(D(), trace);
      var j := 0;
      assert Kept(owner, i, 0) == owner.Keys;
      while j < NINDIRECT
        invariant j <= NINDIRECT && |bitmap| == |blocks|
        invariant BitsOk(bitmap, Kept(owner, i, j), nmeta)
        invariant Freed(old(D()), D(), old(trace), trace)
      {
        ghost var midD, midT := D(), trace;
        var a := Word(blocks[ind], j);
        assert SlotOk(|inodes|, Data(i, NDIRECT + j)) && Addr(inodes, blocks, Data(i, NDIRECT + j)) == a;
        KeptStep(Now(), i, j, a);
        if a != 0 {
          var ok := Bfree(a);
          assert ok;
          FreedTwice(old(D()), midD, D(), old(trace), midT, trace);
        }
        j := j + 1;
      }
    }

    /** The second half of itrunc: the blocks listed in the indirect block, then that block. */
    method TruncIndirect(i: nat)
      requires Structure() && i < |inodes| && inodes[i].addrs[NDIRECT] != 0
      modifies this`bitmap, this`inodes, this`owner, this`trace
      ensures Structure()
      ensures inodes == old(inodes)[i := old(inodes[i]).(addrs := old(inodes[i].addrs)[NDIRECT := 0])]
      ensures owner == WithoutIndirect(old(owner), i)
      ensures Freed(old(D()), D(), old(trace), trace)
    {
      hide Owns, Kept, WithoutIndirect, Freed, Holds;
      AddrsShape(Now(), i);
      KeptAll(Now(), i);
      var ind := inodes[i].addrs[NDIRECT];
      FreeEntries(i, ind);
      ghost var midD, midT := D(), trace;
      var ok := Bfree(ind);
      assert ok;
      FreedTwice(old(D()), midD, D(), old(trace), midT, trace);
      FreeIndirect(inodes, blocks, owner, nmeta, i);
      owner := WithoutIndirect(owner, i);
      inodes := inodes[i := inodes[i].(addrs := inodes[i].addrs[NDIRECT := 0])];
    }

    /** itrunc: free every block of file i and forget it; the "freeing free block" panic is unreachable. */
    method Itrunc(i: nat)
      requires Structure() && i < |inodes|
      modifies this
      ensures Structure() && blocks == old(blocks) && |inodes| == old(|inodes|)
      ensures dinodes == old(dinodes)[i := inodes[i]]
      ensures Dense(Now(), i) && forall j :: 0 <= j < |inodes| && Dense(old(Now()), j) ==> Dense(Now(), j)
      ensures inodes == old(inodes)[i := old(inodes[i]).(size := 0,
        addrs := Cleared(old(inodes[i]).addrs, NDIRECT + 1))]
      ensures forall b :: b in owner <==> b in old(owner) && old(owner)[b].i != i
      ensures forall j, p :: 0 <= j < |inodes| && 0 <= p < MAXBYTES ==>
                Byte(Now(), j, p) == if j == i then 0 else Byte(old(Now()), j, p)
      ensures Traced(old(D()), D(), old(trace), trace)
      ensures |blocks| <= BPB ==> Blocks(trace) <= Blocks(old(trace)) + {BitmapBlock(0), InodeBlock(i / IPB)}
    {
      hide Owns, Byte, Freed, Holds, Traced, Blocks;
      AddrsShape(Now(), i);
      ghost var as0 := inodes[i].addrs;
      TruncDirect(i);
      AddrsShape(Now(), i);
      if inodes[i].addrs[NDIRECT] != 0 {
        ghost var halfD, halfT := D(), trace;
        TruncIndirect(i);
        FreedTwice(old(D()), halfD, D(), old(trace), halfT, trace);
      } else {
        NoIndirect(Now(), i);
      }
      assert inodes[i].addrs == Cleared(as0, NDIRECT + 1);
      ghost var mid := Now();
      inodes := inodes[i := inodes[i].(size := 0)];
      ghost var midD, midT := D(), trace;
      Iupdate(i);
      FreedThenInode(old(D()), midD, i, inodes[i], old(trace), midT);
      Truncated(old(Now()), mid, Now(), i);
    }
  }

  ghost predicate KeepsDense(v: Vol, v': Vol) {
    && VolOk(v) && VolOk(v') && |v.inodes| == |v'.inodes|
    && forall j :: 0 <= j < |v.inodes| && Dense(v, j) ==> Dense(v', j)
  }

  ghost predicate Stores(d: Disk, v: Vol) { v.inodes == d.dinodes && v.blocks == d.blocks && v.nmeta == d.nmeta }

  /** A transaction with the log_writes t wrote `data` at `off` of file i, which had no hole. */
  ghost predicate WroteTx(v: Vol, d: Disk, v': Vol, d': Disk, i: nat, off: nat, data: seq<byte>, t: seq<Write>) {
    && Stores(d', v') && |v.blocks| == |v'.blocks| && KeepsDense(v, v') && Written(v, v', i, off, data)
    && Takes(v, v', i, off, |data|, d.bitmap, d'.bitmap)
    && Traced(d, d', [], t) && (|v.blocks| <= BPB ==> |Blocks(t)| <= 7)
    && (data != [] ==> off <= v.inodes[i].size && off + |data| <= MAXBYTES)
  }

  /** Transactions wrote the first k bytes of `src` at `off` of file i. */
  ghost predicate Filed(v0: Vol, d0: Disk, v: Vol, d: Disk, i: nat, off: nat, src: seq<byte>, k: nat,
                        ds: seq<Disk>, vs: seq<Vol>, txs: seq<seq<Write>>) {
    && Stores(d, v) && |v.blocks| == |v0.blocks| && KeepsDense(v0, v)
    && k <= |src| && Written(v0, v, i, off, src[..k]) && Takes(v0, v, i, off, k, d0.bitmap, d.bitmap)
    && Chain(ds, txs) && |ds| == |txs| + 1 && ds[0] == d0 && ds[|txs|] == d
    && Chunks(ds, vs, v0, i, off, src, k)
    && (k > 0 ==> off <= v0.inodes[i].size && off + k <= MAXBYTES)
    && (|v0.blocks| <= BPB ==> forall t :: t in txs ==> |Blocks(t)| <= 7)
  }

  lemma FiledNone(v: Vol, d: Disk, i: nat, off: nat, src: seq<byte>)
    requires VolOk(v) && i < |v.inodes| && Stores(d, v)
    ensures Filed(v, d, v, d, i, off, src, 0, [d], [v], [])
  {
    hide Owns, Dense, Takes, Chain, Chunks, Patched;
    FirstChunk(d, v, i, off, src);
    TakesNone(v, i, off, 0, d.bitmap);
  }

  lemma FiledParts(v0: Vol, d0: Disk, v: Vol, d: Disk, i: nat, off: nat, src: seq<byte>, k: nat,
                   ds: seq<Disk>, vs: seq<Vol>, txs: seq<seq<Write>>)
    requires Filed(v0, d0, v, d, i, off, src, k, ds, vs, txs)
    ensures KeepsDense(v0, v) && k <= |src| && i < |v0.inodes|
    ensures Written(v0, v, i, off, src[..k]) && Takes(v0, v, i, off, k, d0.bitmap, d.bitmap)
    ensures k > 0 ==> off <= v0.inodes[i].size && off + k <= v.inodes[i].size && off + k <= MAXBYTES
    ensures k == 0 ==> v.inodes[i].size == v0.inodes[i].size
    ensures Chain(ds, txs) && |ds| == |txs| + 1 && ds[0] == d0 && ds[|txs|] == d
    ensures Chunks(ds, vs, v0, i, off, src, k)
    ensures |v0.blocks| <= BPB ==> forall t :: t in txs ==> |Blocks(t)| <= 7
    ensures |v.blocks| == |v0.blocks|
  {
    hide Owns, Dense, Takes, Chain, Chunks, Blocks;
  }

  lemma FiledMore(v0: Vol, d0: Disk, v: Vol, d: Disk, v': Vol, d': Disk, i: nat, off: nat, src: seq<byte>,
                  k: nat, m: nat, ds: seq<Disk>, vs: seq<Vol>, txs: seq<seq<Write>>, t: seq<Write>)
    requires Filed(v0, d0, v, d, i, off, src, k, ds, vs, txs) && k + m <= |src| && k == Least(|txs| * 1536, |src|)
    requires m == 0 || k + m == Least((|txs| + 1) * 1536, |src|)
    requires WroteTx(v, d, v', d', i, off + k, src[k..k + m], t)
    ensures Filed(v0, d0, v', d', i, off, src, k + m, ds + [d'], vs + [v'], txs + [t])
  {
    hide Owns, Dense, Takes, Chain, Chunks, Written, Traced, Blocks, Holes, Free;
    FiledParts(v0, d0, v, d, i, off, src, k, ds, vs, txs);
    assert src[..k] + src[k..k + m] == src[..k + m];
    WrittenTwice(v0, v, v', i, off, src[..k], src[k..k + m]);
    TakesTwice(v0, v, v', i, off, k, m, d0.bitmap, d.bitmap, d'.bitmap);
    ChunksMore(ds, vs, d', v', v0, i, off, src, k, k + m);
    ChainMore(ds, txs, d', t);
  }

  /** Each of the transactions `txs` logs exactly what takes one disk of `ds` to the next. */
  ghost predicate Chain(ds: seq<Disk>, txs: seq<seq<Write>>) {
    |ds| == |txs| + 1 && forall k :: 0 <= k < |txs| ==> Link(ds, txs, k)
  }

  ghost predicate Link(ds: seq<Disk>, txs: seq<seq<Write>>, k: nat)
    requires k < |txs| && k + 1 < |ds|
  {
    Traced(ds[k], ds[k + 1], [], txs[k])
  }

  /** Disk k of `ds` holds the volume in which the first k chunks of 1536 bytes of `src`, up to `done`, are written. */
  ghost predicate Chunks(ds: seq<Disk>, vs: seq<Vol>, v: Vol, i: nat, off: nat, src: seq<byte>, done: nat) {
    |vs| == |ds| && forall k :: 0 <= k < |ds| ==> Chunk(ds[k], vs[k], v, i, off, src, Least(k * 1536, done))
  }

  ghost predicate Chunk(d: Disk, w: Vol, v: Vol, i: nat, off: nat, src: seq<byte>, m: nat) {
    w.inodes == d.dinodes && w.blocks == d.blocks && w.nmeta == d.nmeta && m <= |src| && Written(v, w, i, off, src[..m])
  }

  lemma FirstChunk(d: Disk, v: Vol, i: nat, off: nat, src: seq<byte>)
    requires VolOk(v) && i < |v.inodes| && v.inodes == d.dinodes && v.blocks == d.blocks && v.nmeta == d.nmeta
    ensures Chain([d], []) && Chunks([d], [v], v, i, off, src, 0) && Written(v, v, i, off, src[..0])
  {
    PatchedSelf(v, i, off);
    assert src[..0] == [];
  }

  lemma ChainMore(ds: seq<Disk>, txs: seq<seq<Write>>, d: Disk, t: seq<Write>)
    requires Chain(ds, txs) && |ds| == |txs| + 1 && Traced(ds[|txs|], d, [], t)
    ensures Chain(ds + [d], txs + [t])
  {
    hide Traced;
    forall k | 0 <= k < |txs| + 1 ensures Link(ds + [d], txs + [t], k) {
      if k < |txs| { assert Link(ds, txs, k); }
    }
  }

  lemma ChunksMore(ds: seq<Disk>, vs: seq<Vol>, d: Disk, w: Vol, v: Vol, i: nat, off: nat, src: seq<byte>, m: nat,
          m': nat)
    requires Chunks(ds, vs, v, i, off, src, m) && Chunk(d, w, v, i, off, src, m')
    requires ds != [] && m == Least((|ds| - 1) * 1536, |src|) && m <= m' <= Least(|ds| * 1536, |src|)
    requires m' == m || m' == Least(|ds| * 1536, |src|)
    ensures Chunks(ds + [d], vs + [w], v, i, off, src, m')
  {
    hide Chunk;
    forall k | 0 <= k < |ds| + 1
      ensures Chunk((ds + [d])[k], (vs + [w])[k], v, i, off, src, Least(k * 1536, m'))
    {
      if k < |ds| { assert Chunk(ds[k], vs[k], v, i, off, src, Least(k * 1536, m)); }
    }
  }

  /** `o'` is `o` without the block that slot s referred to. */
  ghost predicate Dropped(o: map<nat, Slot>, o': map<nat, Slot>, s: Slot) {
    && (forall b :: b in o' <==> b in o && o[b] != s)
    && forall b :: b in o' ==> o'[b] == o[b]
  }

  ghost function Cleared(a: seq<nat>, k: nat): seq<nat> {
    seq(|a|, m requires 0 <= m < |a| => if m < k then 0 else a[m])
  }

  lemma Unused(v: Vol, s: Slot)
    requires VolOk(v) && SlotOk(|v.inodes|, s) && Addr(v.inodes, v.blocks, s) == 0
    ensures forall b :: b in v.owner ==> v.owner[b] != s
  {
  }

  lemma NoIndirect(v: Vol, i: nat)
    requires VolOk(v) && i < |v.inodes| && |v.inodes[i].addrs| == NDIRECT + 1 && v.inodes[i].addrs[NDIRECT] == 0
    ensures forall b :: b in v.owner ==> !ViaIndirect(v.owner[b], i)
  {
  }

  lemma Truncated(v: Vol, mid: Vol, v': Vol, i: nat)
    requires VolOk(v) && VolOk(mid) && i < |v.inodes| && v'.blocks == v.blocks == mid.blocks && v'.owner == mid.owner
      && v'.nmeta == mid.nmeta
    requires v'.inodes == v.inodes[i := v.inodes[i].(size := 0, addrs := Cleared(v.inodes[i].addrs, NDIRECT + 1))]
    requires mid.inodes == v'.inodes[i := v'.inodes[i].(size := v.inodes[i].size)]
    requires forall b :: b in v'.owner <==> b in v.owner && v.owner[b].i != i
    requires forall b :: b in v'.owner ==> v'.owner[b] == v.owner[b]
    ensures VolOk(v') && Dense(v', i) && forall j :: 0 <= j < |v'.inodes| && Dense(v, j) ==> Dense(v', j)
    ensures forall j, p :: 0 <= j < |v.inodes| && 0 <= p < MAXBYTES ==>
      Byte(v', j, p) == if j == i then 0 else Byte(v, j, p)
  {
    assert forall s :: SlotOk(|v.inodes|, s) ==>
      Addr(v'.inodes, v'.blocks, s) == if s.i == i then 0 else Addr(v.inodes, v.blocks, s);
    forall j | 0 <= j < |v'.inodes| && (j == i || Dense(v, j)) ensures Dense(v', j) {
      assert forall bn :: 0 <= bn < MAXFILE ==> SlotOk(|v.inodes|, Data(j, bn));
    }
  }

  /** The blocks in use after the first j entries of file i's indirect block were freed. */
  ghost function Kept(owner: map<nat, Slot>, i: nat, j: nat): set<nat> {
    set b | b in owner && !(owner[b].Data? && owner[b].i == i && NDIRECT <= owner[b].bn < NDIRECT + j)
  }

  lemma KeptStep(v: Vol, i: nat, j: nat, a: nat)
    requires VolOk(v) && i < |v.inodes| && j < NINDIRECT && Addr(v.inodes, v.blocks, Data(i, NDIRECT + j)) == a
    ensures Kept(v.owner, i, j + 1) == Kept(v.owner, i, j) - {a}
    ensures a != 0 ==> a in Kept(v.owner, i, j) && a < |v.blocks|
  {
    assert SlotOk(|v.inodes|, Data(i, NDIRECT + j));
    forall b | b in Kept(v.owner, i, j) && b !in Kept(v.owner, i, j + 1) ensures b == a {
      assert v.owner[b] == Data(i, NDIRECT + j);
    }
  }

  lemma KeptAll(v: Vol, i: nat)
    requires VolOk(v) && i < |v.inodes| && v.inodes[i].addrs[NDIRECT] != 0
    ensures (var ind := v.inodes[i].addrs[NDIRECT];
      v.nmeta <= ind < |v.blocks| && ind in Kept(v.owner, i, NINDIRECT)
      && WithoutIndirect(v.owner, i).Keys == Kept(v.owner, i, NINDIRECT) - {ind})
  {
    assert SlotOk(|v.inodes|, Ind(i)) && Addr(v.inodes, v.blocks, Ind(i)) != 0;
  }

  lemma WrittenShape(v: Vol, v': Vol, i: nat, off: nat, src: seq<byte>)
    requires Written(v, v', i, off, src)
    ensures |v.inodes| == |v'.inodes| && |v.blocks| == |v'.blocks|
  {
  }

  /** Bytes off..off+n of file i. */
  ghost function Bytes(v: Vol, i: nat, off: nat, n: nat): (c: seq<byte>)
    requires VolOk(v) && i < |v.inodes| && off + n <= MAXBYTES
    ensures |c| == n
  {
    seq<byte>(n, p requires 0 <= p < n => Byte(v, i, off + p))
  }

  /** The bytes readi returns are a slice of the file. */
  lemma BytesOfContent(v: Vol, i: nat, off: nat, n: nat)
    requires VolOk(v) && i < |v.inodes| && off + n <= v.inodes[i].size <= MAXBYTES
    ensures Bytes(v, i, off, n) == Content(v, i)[off..off + n]
  {
  }

  /** Reading n bytes at `off` took the volume from v to v': no byte changed, and nothing at all did unless
      the range has a hole. */
  ghost predicate Seen(v: Vol, v': Vol, i: nat, off: nat, n: int, d: Disk, d': Disk, l: seq<Write>, l': seq<Write>) {
    && Patched(v, v', i, off, []) && v'.inodes[i].size == v.inodes[i].size
    && |v.inodes[i].addrs| == |v'.inodes[i].addrs| == NDIRECT + 1
    && (v'.inodes == v.inodes <==> AllRooted(v.inodes[i], off, n))
    && Effect(d, d', l, l') && Takes(v, v', i, off, n, d.bitmap, d'.bitmap)
    && (Covered(v, i, off, n) ==> v' == v && d' == d && l' == l)
    && (!Covered(v, i, off, n) ==> TookSome(d.bitmap, d'.bitmap, l'))
  }

  lemma SeenNone(v: Vol, i: nat, off: nat, n: int, d: Disk, l: seq<Write>)
    requires VolOk(v) && i < |v.inodes| && n <= 0
    ensures Seen(v, v, i, off, n, d, d, l, l)
  {
    PatchedSelf(v, i, off);
    TakesNone(v, i, off, n, d.bitmap);
  }

  lemma SeenParts(v: Vol, v': Vol, i: nat, off: nat, n: int, d: Disk, d': Disk, l: seq<Write>, l': seq<Write>)
    requires Seen(v, v', i, off, n, d, d', l, l')
    ensures Patched(v, v', i, off, []) && VolOk(v) && i < |v.inodes| == |v'.inodes|
      && v'.inodes[i].size == v.inodes[i].size
    ensures |v.inodes[i].addrs| == |v'.inodes[i].addrs| == NDIRECT + 1
    ensures v'.inodes == v.inodes <==> AllRooted(v.inodes[i], off, n)
    ensures Takes(v, v', i, off, n, d.bitmap, d'.bitmap)
    ensures Covered(v, i, off, n) ==> v' == v && d' == d && l' == l
    ensures !Covered(v, i, off, n) ==> TookSome(d.bitmap, d'.bitmap, l')
  {
  }

  lemma SeenTwice(u: Vol, v: Vol, w: Vol, i: nat, off: nat, n: nat, m: nat,
                  d0: Disk, d1: Disk, d2: Disk, l0: seq<Write>, l1: seq<Write>, l2: seq<Write>)
    requires Seen(u, v, i, off, n, d0, d1, l0, l1) && Seen(v, w, i, off + n, m, d1, d2, l1, l2)
    ensures Seen(u, w, i, off, n + m, d0, d2, l0, l2)
  {
    hide Owns, Addr, Byte, Patched, Effect, TookSome, Spans, Covered, AllRooted, Takes;
    AddrsKept(u, v, i, off, []);
    AddrsKept(v, w, i, off + n, []);
    RootedTwice(u.inodes[i], off, n, m);
    if !AllRooted(u.inodes[i], off, n) { AddrsDiffer(u.inodes, v.inodes, w.inodes, i); }
    TakesTwice(u, v, w, i, off, n, m, d0.bitmap, d1.bitmap, d2.bitmap);
    PatchedNone(v, w, i, off + n, off);
    var none: seq<byte> := [];
    assert none + none == none;
    PatchedTwice(u, v, w, i, off, none, none);
    SeenParts(u, v, i, off, n, d0, d1, l0, l1);
    EffectTwice(d0, d1, d2, l0, l1, l2);
    CoveredTwice(u, i, off, n, m);
    if TookSome(d0.bitmap, d1.bitmap, l1) || TookSome(d1.bitmap, d2.bitmap, l2) { StillTook(d0, d1, d2, l0, l1, l2); }
  }

  lemma HoleOne(v: Vol, i: nat, off: nat, m: nat)
    requires VolOk(v) && i < |v.inodes| && 0 < m && off % BSIZE + m <= BSIZE && off + m <= MAXBYTES
    ensures |v.inodes[i].addrs| == NDIRECT + 1 && v.inodes[i].addrs[NDIRECT] < |v.blocks|
    ensures Covered(v, i, off, m) <==> FileBlock(v.inodes[i], v.blocks, off / BSIZE) != 0
  {
    CoveredOne(v, i, off, m);
    IndBound(v, i);
  }

  /** bmap, then the copy out of the block. */
  lemma ChunkSeen(v: Vol, w: Vol, i: nat, off: nat, m: nat, b: nat, d: Disk, d': Disk, l: seq<Write>, l': seq<Write>)
    requires VolOk(v) && VolOk(w) && Grown(v, w, i, off / BSIZE) && v.nmeta == w.nmeta
    requires 0 < m && off % BSIZE + m <= BSIZE && off + m <= MAXBYTES
    requires 0 != b == FileBlock(w.inodes[i], w.blocks, off / BSIZE) < |w.blocks|
    requires (if FileBlock(v.inodes[i], v.blocks, off / BSIZE) != 0 then w == v && d' == d && l' == l
              else w.blocks[b] == Zeros() && TookSome(d.bitmap, d'.bitmap, l'))
    requires w.inodes == v.inodes <==> Rooted(v.inodes[i], off / BSIZE)
    requires w.inodes[i].addrs[NDIRECT] == 0 <==> v.inodes[i].addrs[NDIRECT] == 0 && off / BSIZE < NDIRECT
    requires Free(d'.bitmap) + Need(v, i, off / BSIZE) == Free(d.bitmap)
    requires Effect(d, d', l, l')
    ensures Seen(v, w, i, off, m, d, d', l, l')
    ensures w.blocks[b][off % BSIZE..off % BSIZE + m] == Bytes(v, i, off, m)
  {
    hide Owns, Word, Byte, Patched, Effect, TookSome, Bytes, Need, Holes, Free, Takes, Covered;
    AddrsShape(v, i);
    AddrsShape(w, i);
    HoleOne(v, i, off, m);
    GrownKeepsBytes(v, w, i, off / BSIZE);
    PatchedNone(v, w, i, off / BSIZE * BSIZE, off);
    TakesOne(v, w, i, off, m, d.bitmap, d'.bitmap);
    ChunkBytes(v, w, i, off, m, b);
    forall bn ensures Spans(off, m, bn) <==> bn == off / BSIZE { SpansOne(off, m, bn); }
  }

  lemma CoveredOne(v: Vol, i: nat, off: nat, m: nat)
    requires VolOk(v) && i < |v.inodes| && 0 < m && off % BSIZE + m <= BSIZE && off + m <= MAXBYTES
    ensures Covered(v, i, off, m) <==> Addr(v.inodes, v.blocks, Data(i, off / BSIZE)) != 0
  {
    hide Owns, Addr, Spans;
    forall bn: nat ensures Spans(off, m, bn) <==> bn == off / BSIZE { SpansOne(off, m, bn); }
  }

  lemma CoveredTwice(v: Vol, i: nat, off: nat, n: nat, m: nat)
    requires VolOk(v) && i < |v.inodes|
    ensures Covered(v, i, off, n + m) <==> Covered(v, i, off, n) && Covered(v, i, off + n, m)
  {
    hide Owns, Addr, Spans;
    forall bn: nat ensures Spans(off, n + m, bn) <==> Spans(off, n, bn) || Spans(off + n, m, bn) {
      SpansMore(off, n, m, bn);
    }
  }

  /** A hole met after n bytes is a hole of the whole range. */
  lemma SeenHole(u: Vol, v: Vol, i: nat, off: nat, n: nat, m: nat, rest: nat,
                 d: Disk, d': Disk, l: seq<Write>, l': seq<Write>)
    requires Seen(u, v, i, off, n, d, d', l, l') && !Covered(v, i, off + n, m)
    ensures !Covered(u, i, off, n + m + rest)
  {
    hide Owns, Addr, Byte, Patched, Effect, TookSome, Spans, Covered;
    SeenParts(u, v, i, off, n, d, d', l, l');
    CoveredTwice(u, i, off, n + m, rest);
    CoveredTwice(u, i, off, n, m);
  }

  lemma ChunkBytes(v: Vol, w: Vol, i: nat, off: nat, m: nat, b: nat)
    requires Patched(v, w, i, off, []) && VolOk(v) && i < |v.inodes|
    requires 0 < m && off % BSIZE + m <= BSIZE && off + m <= MAXBYTES
    requires 0 != b == Addr(w.inodes, w.blocks, Data(i, off / BSIZE)) < |w.blocks|
    ensures w.blocks[b][off % BSIZE..off % BSIZE + m] == Bytes(v, i, off, m)
  {
    hide Owns, Addr, Byte, Patched;
    var x, c := w.blocks[b][off % BSIZE..off % BSIZE + m], Bytes(v, i, off, m);
    forall p | 0 <= p < m ensures x[p] == c[p] { ChunkByte(v, w, i, off, m, b, p); }
  }

  lemma ChunkByte(v: Vol, w: Vol, i: nat, off: nat, m: nat, b: nat, p: nat)
    requires Patched(v, w, i, off, []) && p < m && off % BSIZE + m <= BSIZE && off + m <= MAXBYTES
    requires 0 != b == Addr(w.inodes, w.blocks, Data(i, off / BSIZE)) < |w.blocks|
    ensures w.blocks[b][off % BSIZE + p] == Byte(v, i, off + p)
  {
    var q := off + p;
    assert q / BSIZE == off / BSIZE && q % BSIZE == off % BSIZE + p;
    assert SlotOk(|w.inodes|, Data(i, off / BSIZE));
    assert Byte(w, i, q) == Byte(v, i, q);
  }

  lemma BytesTwice(u: Vol, v: Vol, i: nat, off: nat, n: nat, m: nat)
    requires Patched(u, v, i, off, []) && off + n + m <= MAXBYTES
    ensures VolOk(u) && VolOk(v) && i < |u.inodes| == |v.inodes|
    ensures Bytes(u, i, off, n) + Bytes(v, i, off + n, m) == Bytes(u, i, off, n + m)
  {
  }

  /** How many of n bytes at `off` filewrite writes: all, none, or the chunks of 1536 that stay below the largest
      size. */
  ghost function Accepted(ip: Inode, off: nat, n: nat): nat {
    if off > ip.size || off > MAXBYTES then 0 else if off + n <= MAXBYTES then n else (MAXBYTES - off) / 1536 * 1536
  }

  /** After t chunks: a chunk that fits is accepted, and one that does not is where it ends. */
  lemma AcceptedAt(ip: Inode, off: nat, n: nat, t: nat, k: nat, m: nat)
    requires k == Least(t * 1536, n) < n && m == (if n - k > 1536 then 1536 else n - k)
    requires k > 0 ==> off <= ip.size && off + k <= MAXBYTES
    ensures off <= ip.size && off + k + m <= MAXBYTES ==> k + m <= Accepted(ip, off, n)
    ensures off > ip.size || (off <= MAXBYTES && off + k + m > MAXBYTES) ==> Accepted(ip, off, n) == k
    ensures k + m == Least((t + 1) * 1536, n) && (k == 0 ==> t == 0)
  {
  }

  lemma AcceptedAll(ip: Inode, off: nat, n: nat)
    requires n > 0 ==> off <= ip.size && off + n <= MAXBYTES
    ensures Accepted(ip, off, n) == n
  {
  }

  lemma SizeBound(v: Vol, i: nat)
    requires VolOk(v) && i < |v.inodes| && Dense(v, i)
    ensures v.inodes[i].size <= MAXBYTES
  {
  }

  ghost function Max(a: nat, b: nat): nat { if a < b then b else a }

  /** `src` was written at `off` in file i, which grew to hold it if necessary. */
  ghost predicate Written(v: Vol, v': Vol, i: nat, off: nat, src: seq<byte>) {
    && Patched(v, v', i, off, src)
    && v'.inodes[i].size == if src == [] then v.inodes[i].size else Max(v.inodes[i].size, off + |src|)
  }

  /** writei replaces exactly the bytes from `off` on, extending the file if need be ... */
  lemma WrittenSplices(v: Vol, v': Vol, i: nat, off: nat, src: seq<byte>)
    requires Written(v, v', i, off, src) && off <= v.inodes[i].size <= MAXBYTES && off + |src| <= MAXBYTES
    ensures (var c := Content(v, i);
      Content(v', i) == c[..off] + src + if off + |src| < |c| then c[off + |src|..] else [])
  {
    hide Owns, Addr, Byte;
    var c, c' := Content(v, i), Content(v', i);
    assert forall p :: 0 <= p < |c'| ==> c'[p] == Byte(v', i, p);
    assert forall p :: 0 <= p < |c| ==> c[p] == Byte(v, i, p);
  }

  /** ... and leaves every other file as it was. */
  lemma WrittenKeepsOthers(v: Vol, v': Vol, i: nat, off: nat, src: seq<byte>, j: nat)
    requires Written(v, v', i, off, src) && j < |v.inodes| && j != i && v.inodes[j].size <= MAXBYTES
    ensures v'.inodes[j] == v.inodes[j] && Content(v', j) == Content(v, j)
  {
    var c, c' := Content(v, j), Content(v', j);
    assert forall p :: 0 <= p < |c'| ==> c'[p] == Byte(v', j, p);
    assert forall p :: 0 <= p < |c| ==> c[p] == Byte(v, j, p);
  }

  lemma WrittenTwice(u: Vol, v: Vol, w: Vol, i: nat, off: nat, a: seq<byte>, b: seq<byte>)
    requires Written(u, v, i, off, a) && Written(v, w, i, off + |a|, b)
    ensures Written(u, w, i, off, a + b)
  {
    PatchedTwice(u, v, w, i, off, a, b);
  }

  /** Reading a whole file meets only mapped blocks just when it has no hole. */
  lemma DenseExactly(v: Vol, i: nat)
    requires VolOk(v) && i < |v.inodes| && v.inodes[i].size <= MAXBYTES
    ensures Dense(v, i) <==> Covered(v, i, 0, v.inodes[i].size)
  {
    hide Owns, Addr;
    forall bn: nat ensures Spans(0, v.inodes[i].size, bn) <==> bn < MAXFILE && bn * BSIZE < v.inodes[i].size {}
  }

  lemma DenseRooted(v: Vol, i: nat, off: nat, n: nat)
    requires VolOk(v) && i < |v.inodes| && Dense(v, i) && (n == 0 || off + n <= v.inodes[i].size)
    ensures |v.inodes[i].addrs| == NDIRECT + 1 && AllRooted(v.inodes[i], off, n)
  {
    forall bn | Spans(off, n, bn) ensures |v.inodes[i].addrs| == NDIRECT + 1 && Rooted(v.inodes[i], bn) {
      assert SlotOk(|v.inodes|, Data(i, bn)) && Addr(v.inodes, v.blocks, Data(i, bn)) != 0;
    }
  }

  lemma Resize(v: Vol, v': Vol, i: nat, off: nat, src: seq<byte>, size: nat)
    requires Patched(v, v', i, off, src)
    ensures Patched(v, v'.(inodes := v'.inodes[i := v'.inodes[i].(size := size)]), i, off, src)
    ensures SameAddrs(v', v'.(inodes := v'.inodes[i := v'.inodes[i].(size := size)]))
  {
    var w := v'.(inodes := v'.inodes[i := v'.inodes[i].(size := size)]);
    hide Word;
    assert forall s :: SlotOk(|v.inodes|, s) ==> Addr(w.inodes, w.blocks, s) == Addr(v'.inodes, v'.blocks, s);
    hide Addr;
    forall j, p | 0 <= j < |v.inodes| && 0 <= p < MAXBYTES ensures Byte(w, j, p) == Byte(v', j, p) {
      assert SlotOk(|v.inodes|, Data(j, p / BSIZE));
    }
    assert forall bn :: 0 <= bn < MAXFILE ==> SlotOk(|v.inodes|, Data(i, bn));
  }

  /** A write leaves no hole in a file that had none. */
  lemma DenseKept(v: Vol, v': Vol, i: nat, off: nat, src: seq<byte>)
    requires Written(v, v', i, off, src) && off <= v.inodes[i].size && off + |src| <= MAXBYTES
    ensures VolOk(v') && v'.inodes == v.inodes[i := v'.inodes[i]]
    ensures forall j :: 0 <= j < |v'.inodes| && Dense(v, j) ==> Dense(v', j)
  {
    forall j | 0 <= j < |v'.inodes| && Dense(v, j) ensures Dense(v', j) {
      forall bn | 0 <= bn < MAXFILE && bn * BSIZE < v'.inodes[j].size
          ensures Addr(v'.inodes, v'.blocks, Data(j, bn)) != 0 {
        assert SlotOk(|v.inodes|, Data(j, bn));
      }
    }
  }

  lemma DenseAfter(v: Vol, v': Vol, i: nat, off: nat, src: seq<byte>)
    requires Written(v, v', i, off, src) && off <= v.inodes[i].size && off + |src| <= MAXBYTES
    requires forall j :: 0 <= j < |v.inodes| ==> Dense(v, j)
    ensures VolOk(v') && v'.inodes == v.inodes[i := v'.inodes[i]]
    ensures forall j :: 0 <= j < |v'.inodes| ==> Dense(v', j)
  {
    DenseKept(v, v', i, off, src);
  }

  lemma {:induction false} HomesCount(homes: set<nat>)
    ensures |set b | b in homes :: HomeBlock(b)| <= |homes|
  {
    if homes != {} {
      var x :| x in homes;
      HomesCount(homes - {x});
      assert (set b | b in homes :: HomeBlock(b)) == (set b | b in homes - {x} :: HomeBlock(b)) + {HomeBlock(x)};
    }
  }

  lemma CountLogged(ip: Inode, homes: set<nat>, k: nat, l: set<LogBlock>)
    requires |ip.addrs| == NDIRECT + 1
    ensures l <= OneInode(ip, homes) + {InodeBlock(k)} ==> |l| <= |homes| + 3
  {
    if l <= OneInode(ip, homes) + {InodeBlock(k)} {
      HomesCount(homes);
      var h := set b | b in homes :: HomeBlock(b);
      var rest := {BitmapBlock(0), HomeBlock(ip.addrs[NDIRECT]), InodeBlock(k)};
      assert l <= h + rest;
      Subset(l, h + rest);
      assert |h + rest| <= |h| + |rest|;
    }
  }

  lemma {:induction false} Subset(a: set<LogBlock>, b: set<LogBlock>)
    requires a <= b
    ensures |a| <= |b|
  {
    assert b == a + (b - a);
  }

  /** On a disk with one bitmap block: the bitmap, the indirect block and the data blocks `homes`. */
  ghost function OneInode(ip: Inode, homes: set<nat>): set<LogBlock>
    requires |ip.addrs| == NDIRECT + 1
  {
    {BitmapBlock(0)} + (if ip.addrs[NDIRECT] == 0 then {} else {HomeBlock(ip.addrs[NDIRECT])}) + set b | b in homes ::
        HomeBlock(b)
  }

  lemma PatchedSelf(v: Vol, i: nat, off: nat)
    requires VolOk(v) && i < |v.inodes|
    ensures Patched(v, v, i, off, [])
  {
  }

  /** h is at most the number of blocks that n bytes at `off` lie in. */
  ghost predicate FewHomes(off: nat, n: nat, h: nat) {
    && BSIZE * h <= off % BSIZE + n + (if n == 0 then 0 else BSIZE - 1)
    && ((off + n) % BSIZE == 0 && n > 0 ==> BSIZE * h <= off % BSIZE + n)
  }

  lemma FewHomesNone(off: nat)
    ensures FewHomes(off, 0, 0)
  {
  }

  lemma FewHomesMore(off: nat, n: nat, m: nat, h: nat, h': nat)
    requires FewHomes(off, n, h) && 0 < m <= BSIZE - (off + n) % BSIZE && (n > 0 ==> (off + n) % BSIZE == 0)
    requires h' <= h + 1
    ensures FewHomes(off, n + m, h')
  {
    assert 512 * h' <= 512 * h + 512;
    if n > 0 {
      assert (off + n + m) % 512 == 0 ==> m == 512;
    } else {
      assert h == 0 && ((off + m) % 512 == 0 ==> m == 512 - off % 512);
    }
  }

  lemma FewHomesBound(off: nat, n: nat, h: nat)
    requires FewHomes(off, n, h)
    ensures n <= 1536 ==> h <= 4
  {
  }

  /** The inode itself holds what block bn of its file is found through: the block or the indirect block. */
  ghost predicate Rooted(ip: Inode, bn: nat)
    requires |ip.addrs| == NDIRECT + 1
  {
    ip.addrs[if bn < NDIRECT then bn else NDIRECT] != 0
  }

  /** All blocks that hold bytes off..off+n of a file are rooted. */
  ghost predicate AllRooted(ip: Inode, off: nat, n: int)
    requires |ip.addrs| == NDIRECT + 1
  {
    forall bn :: Spans(off, n, bn) ==> Rooted(ip, bn)
  }

  /** Block bn of a file holds some of its bytes off..off+n. */
  ghost predicate Spans(off: nat, n: int, bn: nat) {
    bn < MAXFILE && n > 0 && off / BSIZE <= bn && bn * BSIZE < off + n
  }

  /** All blocks that hold bytes off..off+n of file i are mapped. */
  ghost predicate Covered(v: Vol, i: nat, off: nat, n: int) {
    VolOk(v) && i < |v.inodes| && forall bn :: Spans(off, n, bn) ==> Addr(v.inodes, v.blocks, Data(i, bn)) != 0
  }

  lemma SpansOne(off: nat, m: nat, bn: nat)
    requires m > 0 && off % BSIZE + m <= BSIZE && off + m <= MAXBYTES
    ensures Spans(off, m, bn) <==> bn == off / BSIZE
  {
  }

  lemma SpansMore(off: nat, n: nat, m: nat, bn: nat)
    ensures Spans(off, n + m, bn) <==> Spans(off, n, bn) || Spans(off + n, m, bn)
  {
  }

  // ---------------------------------------------------------------- what an access lacks

  /** Slot s is one that an access to bytes off..off+n of file i goes through. */
  ghost predicate Slotted(s: Slot, i: nat, off: nat, n: int) {
    s.i == i && match s
                case Data(_, bn) => Spans(off, n, bn)
                case Ind(_) => n > 0 && off + n > NDIRECT * BSIZE
  }

  /** The data blocks, and the indirect block, that an access to bytes off..off+n of file i finds missing. */
  ghost function Holes(v: Vol, i: nat, off: nat, n: int): set<Slot>
    requires VolOk(v) && i < |v.inodes|
  {
    (set bn: nat | bn < MAXFILE && Spans(off, n, bn) && Addr(v.inodes, v.blocks, Data(i, bn)) == 0 :: Data(i, bn))
    + if Slotted(Ind(i), i, off, n) && Addr(v.inodes, v.blocks, Ind(i)) == 0 then {Ind(i)} else {}
  }

  lemma InHoles(v: Vol, i: nat, off: nat, n: int, s: Slot)
    requires VolOk(v) && i < |v.inodes|
    ensures s in Holes(v, i, off, n) <==>
      SlotOk(|v.inodes|, s) && Slotted(s, i, off, n) && Addr(v.inodes, v.blocks, s) == 0
  {
  }

  /** The access took blocks for exactly the slots it lacked: v' maps them besides what v maps. */
  ghost predicate Takes(v: Vol, v': Vol, i: nat, off: nat, n: int, b: seq<bool>, b': seq<bool>) {
    && VolOk(v) && VolOk(v') && i < |v.inodes| == |v'.inodes|
    && (forall s :: SlotOk(|v.inodes|, s) && s.i == i ==>
          (Addr(v'.inodes, v'.blocks, s) == 0 <==> Addr(v.inodes, v.blocks, s) == 0 && !Slotted(s, i, off, n)))
    && Free(b') + |Holes(v, i, off, n)| == Free(b)
  }

  lemma TakesNone(v: Vol, i: nat, off: nat, n: int, b: seq<bool>)
    requires VolOk(v) && i < |v.inodes| && n <= 0
    ensures Takes(v, v, i, off, n, b, b)
  {
    assert Holes(v, i, off, n) == {};
  }

  lemma TakesFree(v: Vol, v': Vol, i: nat, off: nat, n: int, b: seq<bool>, b': seq<bool>)
    requires Takes(v, v', i, off, n, b, b')
    ensures VolOk(v) && i < |v.inodes| && Free(b') + |Holes(v, i, off, n)| == Free(b)
  {
  }

  /** Without holes nothing is lacking. */
  lemma NothingLacks(v: Vol, i: nat, off: nat, n: int)
    requires Covered(v, i, off, n) && off + n <= MAXBYTES
    ensures Holes(v, i, off, n) == {}
  {
    if n > 0 && off + n > NDIRECT * BSIZE {
      var bn := if off / BSIZE < NDIRECT then NDIRECT else off / BSIZE;
      assert Spans(off, n, bn) && SlotOk(|v.inodes|, Data(i, bn));
      assert Addr(v.inodes, v.blocks, Data(i, bn)) != 0;
    }
  }

  lemma SlottedMore(s: Slot, i: nat, off: nat, n: nat, m: nat)
    ensures Slotted(s, i, off, n + m) <==> Slotted(s, i, off, n) || Slotted(s, i, off + n, m)
    ensures Slotted(s, i, off, n + m) ==> s.i == i
  {
    if s.Data? { SpansMore(off, n, m, s.bn); }
  }

  lemma HolesTwice(u: Vol, v: Vol, i: nat, off: nat, n: nat, m: nat, b0: seq<bool>, b1: seq<bool>)
    requires Takes(u, v, i, off, n, b0, b1)
    ensures |Holes(u, i, off, n + m)| == |Holes(u, i, off, n)| + |Holes(v, i, off + n, m)|
  {
    hide Owns, Addr, Holes, Slotted, Free;
    var x, y, z := Holes(u, i, off, n), Holes(v, i, off + n, m), Holes(u, i, off, n + m);
    forall s ensures s in z <==> s in x || s in y {
      InHoles(u, i, off, n, s);
      InHoles(v, i, off + n, m, s);
      InHoles(u, i, off, n + m, s);
      SlottedMore(s, i, off, n, m);
    }
    forall s | s in x ensures s !in y {
      InHoles(u, i, off, n, s);
      SlottedMore(s, i, off, n, m);
      InHoles(v, i, off + n, m, s);
    }
    assert z == x + y && x !! y;
  }

  lemma TakesTwice(u: Vol, v: Vol, w: Vol, i: nat, off: nat, n: nat, m: nat, b0: seq<bool>, b1: seq<bool>,
          b2: seq<bool>)
    requires Takes(u, v, i, off, n, b0, b1) && Takes(v, w, i, off + n, m, b1, b2)
    ensures Takes(u, w, i, off, n + m, b0, b2)
  {
    HolesTwice(u, v, i, off, n, m, b0, b1);
    hide Owns, Addr, Holes, Free, Slotted;
    forall s | SlotOk(|u.inodes|, s) && s.i == i
      ensures Addr(w.inodes, w.blocks, s) == 0 <==> Addr(u.inodes, u.blocks, s) == 0 && !Slotted(s, i, off, n + m)
    {
      SlottedMore(s, i, off, n, m);
    }
  }

  /** Where the next part of a range finds too few free blocks, the whole range does. */
  lemma TakesFails(u: Vol, v: Vol, i: nat, off: nat, n: nat, m: nat, total: nat, b0: seq<bool>, b1: seq<bool>)
    requires Takes(u, v, i, off, n, b0, b1) && |Holes(v, i, off + n, m)| > Free(b1) && n + m <= total
    ensures |Holes(u, i, off, total)| > Free(b0)
  {
    HolesTwice(u, v, i, off, n, m, b0, b1);
    HolesGrow(u, i, off, n + m, total);
  }

  lemma HolesGrow(v: Vol, i: nat, off: nat, n: nat, total: nat)
    requires VolOk(v) && i < |v.inodes| && n <= total
    ensures |Holes(v, i, off, n)| <= |Holes(v, i, off, total)|
  {
    var x, z := Holes(v, i, off, n), Holes(v, i, off, total);
    forall s | s in x ensures s in z {
      InHoles(v, i, off, n, s);
      InHoles(v, i, off, total, s);
      SlottedMore(s, i, off, n, total - n);
    }
    assert z == x + (z - x);
  }

  /** bmap takes exactly what an access to some bytes of its one block lacks. */
  lemma TakesOne(v: Vol, v': Vol, i: nat, off: nat, m: nat, b: seq<bool>, b': seq<bool>)
    requires VolOk(v) && VolOk(v') && 0 < m && off % BSIZE + m <= BSIZE && off + m <= MAXBYTES
    requires Grown(v, v', i, off / BSIZE) && FileBlock(v'.inodes[i], v'.blocks, off / BSIZE) != 0
    requires v'.inodes[i].addrs[NDIRECT] == 0 <==> v.inodes[i].addrs[NDIRECT] == 0 && off / BSIZE < NDIRECT
    requires Free(b') + Need(v, i, off / BSIZE) == Free(b)
    ensures Takes(v, v', i, off, m, b, b')
  {
    NeedIsHoles(v, i, off, m);
    hide Owns, Word, Free, Need, Holes;
    forall s | SlotOk(|v.inodes|, s) && s.i == i
      ensures Addr(v'.inodes, v'.blocks, s) == 0 <==> Addr(v.inodes, v.blocks, s) == 0 && !Slotted(s, i, off, m)
    {
      if s.Data? { SpansOne(off, m, s.bn); }
    }
  }

  lemma TakesSame(u: Vol, v: Vol, w: Vol, i: nat, off: nat, n: int, b: seq<bool>, b': seq<bool>)
    requires Takes(u, v, i, off, n, b, b') && SameAddrs(v, w)
    ensures Takes(u, w, i, off, n, b, b')
  {
    hide Owns, Addr, Holes, Free, Slotted;
  }

  lemma NeedIsHoles(v: Vol, i: nat, off: nat, m: nat)
    requires VolOk(v) && i < |v.inodes| && 0 < m && off % BSIZE + m <= BSIZE && off + m <= MAXBYTES
    ensures |Holes(v, i, off, m)| == Need(v, i, off / BSIZE)
  {
    AddrsShape(v, i);
    SlotMapped(v, i, Ind(i), 0);
    hide Owns, Word;
    var bn := off / BSIZE;
    forall k: nat ensures Spans(off, m, k) <==> k == bn { SpansOne(off, m, k); }
    assert off + m > NDIRECT * BSIZE <==> bn >= NDIRECT;
    var d := if FileBlock(v.inodes[i], v.blocks, bn) == 0 then {Data(i, bn)} else {};
    var e := if bn >= NDIRECT && v.inodes[i].addrs[NDIRECT] == 0 then {Ind(i)} else {};
    forall s ensures s in Holes(v, i, off, m) <==> s in d + e { InHoles(v, i, off, m, s); }
    assert Holes(v, i, off, m) == d + e;
  }

  /** Writing `data` at `off` took the volume from v to v', logging on the way what changed: the bitmap,
      the indirect block and the data blocks `homes`.  The inode itself changed unless all it needed was rooted. */
  ghost predicate Progress(v: Vol, v': Vol, i: nat, off: nat, data: seq<byte>, homes: set<nat>,
                           d: Disk, d': Disk, l: seq<Write>, l': seq<Write>) {
    && Patched(v, v', i, off, data) && v'.inodes[i].size == v.inodes[i].size
    && |v.inodes[i].addrs| == |v'.inodes[i].addrs| == NDIRECT + 1
    && (v'.inodes == v.inodes <==> AllRooted(v.inodes[i], off, |data|))
    && Effect(d, d', l, l') && Takes(v, v', i, off, |data|, d.bitmap, d'.bitmap)
    && (|v.blocks| <= BPB ==> Blocks(l') <= Blocks(l) + OneInode(v'.inodes[i], homes))
  }

  lemma NoProgress(v: Vol, i: nat, off: nat, d: Disk, l: seq<Write>)
    requires VolOk(v) && i < |v.inodes|
    ensures Progress(v, v, i, off, [], {}, d, d, l, l)
  {
    TakesNone(v, i, off, 0, d.bitmap);
  }

  lemma ProgressParts(v: Vol, v': Vol, i: nat, off: nat, data: seq<byte>, homes: set<nat>,
                      d: Disk, d': Disk, l: seq<Write>, l': seq<Write>)
    requires Progress(v, v', i, off, data, homes, d, d', l, l')
    ensures Patched(v, v', i, off, data) && i < |v.inodes| == |v'.inodes| && |v.blocks| == |v'.blocks|
    ensures v'.inodes[i].size == v.inodes[i].size
    ensures |v.inodes[i].addrs| == |v'.inodes[i].addrs| == NDIRECT + 1
    ensures v'.inodes == v.inodes <==> AllRooted(v.inodes[i], off, |data|)
    ensures Effect(d, d', l, l') && Takes(v, v', i, off, |data|, d.bitmap, d'.bitmap)
    ensures |v.blocks| <= BPB ==> Blocks(l') <= Blocks(l) + OneInode(v'.inodes[i], homes)
  {
  }

  /** bmap, then the copy into the block and its log_write. */
  lemma ChunkWritten(v: Vol, mid: Vol, i: nat, off: nat, data: seq<byte>, addr: nat,
                     d: Disk, midD: Disk, l: seq<Write>, midL: seq<Write>)
    requires VolOk(v) && VolOk(mid) && i < |v.inodes| == |mid.inodes| && Grown(v, mid, i, off / BSIZE)
      && v.nmeta == mid.nmeta == midD.nmeta
    requires data != [] && off % BSIZE + |data| <= BSIZE && off + |data| <= MAXBYTES
    requires 0 != addr == FileBlock(mid.inodes[i], mid.blocks, off / BSIZE) < |mid.blocks| && midD.nmeta <= addr
    requires (if FileBlock(v.inodes[i], v.blocks, off / BSIZE) != 0 then mid == v else mid.blocks[addr] == Zeros())
    requires mid.inodes == v.inodes <==> Rooted(v.inodes[i], off / BSIZE)
    requires mid.inodes[i].addrs[NDIRECT] == 0 <==> v.inodes[i].addrs[NDIRECT] == 0 && off / BSIZE < NDIRECT
    requires Free(midD.bitmap) + Need(v, i, off / BSIZE) == Free(d.bitmap)
    requires Effect(d, midD, l, midL) && midD.blocks == mid.blocks
    requires Blocks(midL) <= Blocks(l) + Touched(mid.inodes[i], addr, off / BSIZE)
    ensures (var x := Splice(mid.blocks[addr], off % BSIZE, data);
      var w, d2 := mid.(blocks := mid.blocks[addr := x]), midD.(blocks := mid.blocks[addr := x]);
      var l2 := midL + [Write(HomeBlock(addr), HeldData(x))];
      VolOk(w) && Progress(v, w, i, off, data, {addr}, d, d2, l, l2))
  {
    hide Owns, Word, Byte, Splice, Patched, Effect, Rooted, Progress, Takes, Need, Holes, Free, SameAddrs, Addr,
        Blocks, Grown;
    AddrsShape(v, i);
    AddrsShape(mid, i);
    ChunkPatched(v, mid, i, off, data, addr);
    var x := Splice(mid.blocks[addr], off % BSIZE, data);
    var w, d2 := mid.(blocks := mid.blocks[addr := x]), midD.(blocks := mid.blocks[addr := x]);
    var l2 := midL + [Write(HomeBlock(addr), HeldData(x))];
    EffectBlock(midD, addr, x, midL);
    EffectTwice(d, midD, d2, l, midL, l2);
    BlocksAdd(midL, Write(HomeBlock(addr), HeldData(x)));
    TakesOne(v, mid, i, off, |data|, d.bitmap, midD.bitmap);
    TakesSame(v, mid, w, i, off, |data|, d.bitmap, midD.bitmap);
    SameOk(mid, w);
    OneChunk(v, w, i, off, data, addr, d, d2, l, l2);
  }

  lemma GrownSize(v: Vol, v': Vol, i: nat, bn: nat)
    requires VolOk(v) && VolOk(v') && Grown(v, v', i, bn)
    ensures i < |v.inodes| == |v'.inodes| && v'.inodes[i].size == v.inodes[i].size
  {
  }

  lemma ChunkPatched(v: Vol, mid: Vol, i: nat, off: nat, data: seq<byte>, addr: nat)
    requires VolOk(v) && VolOk(mid) && Grown(v, mid, i, off / BSIZE) && v.nmeta == mid.nmeta
    requires data != [] && off % BSIZE + |data| <= BSIZE && off + |data| <= MAXBYTES
    requires 0 != addr == FileBlock(mid.inodes[i], mid.blocks, off / BSIZE) < |mid.blocks|
    requires (if FileBlock(v.inodes[i], v.blocks, off / BSIZE) != 0 then mid == v else mid.blocks[addr] == Zeros())
    ensures (var w := mid.(blocks := mid.blocks[addr := Splice(mid.blocks[addr], off % BSIZE, data)]);
      Patched(v, w, i, off, data) && SameAddrs(mid, w) && FileBlock(w.inodes[i], w.blocks, off / BSIZE) == addr
      && w.inodes[i].size == v.inodes[i].size)
  {
    hide Owns, Word, Byte, Splice, Patched, SameAddrs, Addr, Grown;
    var w := mid.(blocks := mid.blocks[addr := Splice(mid.blocks[addr], off % BSIZE, data)]);
    GrownSize(v, mid, i, off / BSIZE);
    GrownKeepsBytes(v, mid, i, off / BSIZE);
    PokeBytes(mid, i, off, data);
    PatchedNone(v, mid, i, off / BSIZE * BSIZE, off);
    PatchedTwice(v, mid, w, i, off, [], data);
    assert [] + data == data;
  }

  lemma SameOk(v: Vol, v': Vol)
    requires SameAddrs(v, v')
    ensures VolOk(v')
  {
  }

  lemma OneChunk(v: Vol, v': Vol, i: nat, off: nat, data: seq<byte>, addr: nat,
                 d: Disk, d': Disk, l: seq<Write>, l': seq<Write>)
    requires Patched(v, v', i, off, data) && v'.inodes[i].size == v.inodes[i].size
    requires data != [] && off % BSIZE + |data| <= BSIZE && off + |data| <= MAXBYTES
    requires |v.inodes[i].addrs| == |v'.inodes[i].addrs| == NDIRECT + 1
    requires v'.inodes == v.inodes <==> Rooted(v.inodes[i], off / BSIZE)
    requires Effect(d, d', l, l') && Takes(v, v', i, off, |data|, d.bitmap, d'.bitmap)
    requires 0 != addr < |v'.blocks| && addr == FileBlock(v'.inodes[i], v'.blocks, off / BSIZE)
    requires Blocks(l') <= Blocks(l) + Touched(v'.inodes[i], addr, off / BSIZE)
    ensures Progress(v, v', i, off, data, {addr}, d, d', l, l')
  {
    hide Takes, Effect, Byte;
    AddrsKept(v, v', i, off, data);
    IndBound(v', i);
    hide Owns, Word, Addr, Patched;
    forall bn ensures Spans(off, |data|, bn) <==> bn == off / BSIZE { SpansOne(off, |data|, bn); }
  }

  lemma AddrsKept(v: Vol, v': Vol, i: nat, off: nat, data: seq<byte>)
    requires Patched(v, v', i, off, data)
    requires |v.inodes[i].addrs| == |v'.inodes[i].addrs| == NDIRECT + 1
    ensures i < |v.inodes| == |v'.inodes| && |v.blocks| == |v'.blocks|
    ensures v'.inodes == v.inodes[i := v.inodes[i].(addrs := v'.inodes[i].addrs, size := v'.inodes[i].size)]
    ensures forall m :: 0 <= m <= NDIRECT && v.inodes[i].addrs[m] != 0 ==> v'.inodes[i].addrs[m] == v.inodes[i].addrs[m]
  {
    forall m | 0 <= m <= NDIRECT && v.inodes[i].addrs[m] != 0 ensures v'.inodes[i].addrs[m] == v.inodes[i].addrs[m] {
      assert SlotOk(|v.inodes|, if m < NDIRECT then Data(i, m) else Ind(i));
    }
  }

  lemma ProgressTwice(u: Vol, v: Vol, w: Vol, i: nat, off: nat, a: seq<byte>, b: seq<byte>, g: set<nat>, h: set<nat>,
                      d0: Disk, d1: Disk, d2: Disk, l0: seq<Write>, l1: seq<Write>, l2: seq<Write>)
    requires Progress(u, v, i, off, a, g, d0, d1, l0, l1)
    requires Progress(v, w, i, off + |a|, b, h, d1, d2, l1, l2)
    ensures Progress(u, w, i, off, a + b, g + h, d0, d2, l0, l2)
  {
    hide Owns, Word, Addr, Byte, Patched, Effect, AllRooted, OneInode, Takes;
    TakesTwice(u, v, w, i, off, |a|, |b|, d0.bitmap, d1.bitmap, d2.bitmap);
    PatchedTwice(u, v, w, i, off, a, b);
    EffectTwice(d0, d1, d2, l0, l1, l2);
    AddrsKept(u, v, i, off, a);
    AddrsKept(v, w, i, off + |a|, b);
    RootedTwice(u.inodes[i], off, |a|, |b|);
    if AllRooted(u.inodes[i], off, |a|) {
      assert v.inodes == u.inodes;
    } else {
      AddrsDiffer(u.inodes, v.inodes, w.inodes, i);
    }
    OneInodeGrows(v.inodes[i], w.inodes[i], g, h);
  }

  lemma RootedTwice(ip: Inode, off: nat, n: nat, m: nat)
    requires |ip.addrs| == NDIRECT + 1
    ensures AllRooted(ip, off, n + m) <==> AllRooted(ip, off, n) && AllRooted(ip, off + n, m)
  {
    hide Rooted, Spans;
    forall bn: nat ensures Spans(off, n + m, bn) <==> Spans(off, n, bn) || Spans(off + n, m, bn) {
      SpansMore(off, n, m, bn);
    }
  }

  /** An address that appeared in an inode does not go away again. */
  lemma AddrsDiffer(u: seq<Inode>, v: seq<Inode>, w: seq<Inode>, i: nat)
    requires i < |u| == |v| == |w| && |u[i].addrs| == |v[i].addrs| == |w[i].addrs| == NDIRECT + 1
    requires v == u[i := u[i].(addrs := v[i].addrs)] && v != u
    requires forall m :: 0 <= m <= NDIRECT && u[i].addrs[m] != 0 ==> v[i].addrs[m] == u[i].addrs[m]
    requires forall m :: 0 <= m <= NDIRECT && v[i].addrs[m] != 0 ==> w[i].addrs[m] == v[i].addrs[m]
    ensures w != u
  {
    assert v[i].addrs != u[i].addrs;
    var m :| 0 <= m <= NDIRECT && v[i].addrs[m] != u[i].addrs[m];
    assert w[i].addrs[m] != u[i].addrs[m];
  }

  lemma OneInodeGrows(ip: Inode, jp: Inode, g: set<nat>, h: set<nat>)
    requires |ip.addrs| == |jp.addrs| == NDIRECT + 1
      && (ip.addrs[NDIRECT] != 0 ==> jp.addrs[NDIRECT] == ip.addrs[NDIRECT])
    ensures OneInode(ip, g) <= OneInode(jp, g + h) && OneInode(jp, h) <= OneInode(jp, g + h)
  {
  }

  lemma AddrsShape(v: Vol, i: nat)
    requires VolOk(v) && i < |v.inodes|
    ensures |v.inodes[i].addrs| == NDIRECT + 1
  {
  }

  lemma IndBound(v: Vol, i: nat)
    requires VolOk(v) && i < |v.inodes|
    ensures |v.inodes[i].addrs| == NDIRECT + 1 && v.inodes[i].addrs[NDIRECT] < |v.blocks|
  {
  }

  lemma PatchedNone(v: Vol, v': Vol, i: nat, off: nat, off': nat)
    requires Patched(v, v', i, off, [])
    ensures Patched(v, v', i, off', [])
  {
  }

  /** The blocks bmap may log when it maps block bn of a file at `addr`. */
  ghost function Touched(ip: Inode, addr: nat, bn: nat): set<LogBlock>
    requires |ip.addrs| == NDIRECT + 1
  {
    {BitmapBlock(addr / BPB), HomeBlock(addr)}
    + if bn < NDIRECT then {} else {BitmapBlock(ip.addrs[NDIRECT] / BPB), HomeBlock(ip.addrs[NDIRECT])}
  }
}
