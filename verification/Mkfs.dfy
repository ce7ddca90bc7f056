/** mkfs.c: how the first file-system image is laid out.  Blocks are handed out in order from
    `freeblock`; the bitmap is written last. */
module Mkfs {
  import opened FsModel
  import opened FsCode

  const NMETA: nat := 2 + 30 + 26 + 1   // boot, superblock, log, inode blocks (200 / 8 + 1), bitmap
  const DIRENT: nat := 16

  class Image {
    var inodes: seq<Inode>
    var blocks: seq<Block>
    var freeinode: nat
    var freeblock: nat
    ghost var owner: map<nat, Slot>

    ghost function Now(): Vol
      reads this
    { Vol(inodes, blocks, owner, NMETA) }

    /** The blocks in use are exactly those before `freeblock`; the rest are still zero. */
    ghost predicate Packed()
      reads this
    {
      && VolOk(Now()) && NMETA <= freeblock <= |blocks|
      && (forall b :: b in owner <==> NMETA <= b < freeblock)
      && (forall b :: freeblock <= b < |blocks| ==> blocks[b] == Zeros())
      && (forall i :: freeinode <= i < |inodes| ==> inodes[i] == Blank())
    }

    ghost predicate Valid()
      reads this
    {
      && Packed() && (forall i :: 0 <= i < |inodes| ==> Dense(Now(), i))
      && (forall i :: 0 <= i < |inodes| ==> Tight(Now(), i, inodes[i].size)) && Clean(Now())
    }

    constructor (fssize: nat, ninodes: nat)
      requires NMETA <= fssize < WORD
      ensures Valid() && |blocks| == fssize && |inodes| == ninodes && freeinode == 1 && freeblock == NMETA
    {
      inodes := seq(ninodes, _ => Blank());
      blocks := seq(fssize, _ => Zeros());
      freeinode, freeblock, owner := 1, NMETA, map[];
    }

    /** ialloc of mkfs: the next inode, with type and one link. */
    method Ialloc(typ: nat) returns (inum: nat)
      requires Valid() && freeinode < |inodes|
      modifies this`inodes, this`freeinode
      ensures Valid() && inum == old(freeinode) && freeinode == inum + 1
      ensures inodes == old(inodes)[inum := Blank().(typ := typ, nlink := 1)]
      ensures forall j, d :: FileIs(old(Now()), j, d) ==> FileIs(Now(), j, d)
      ensures FileIs(Now(), inum, [])
    {
      inum := freeinode;
      freeinode := freeinode + 1;
      Relabel(Now(), inum, typ);
      ghost var v := Now();
      inodes := inodes[inum := Blank().(typ := typ, nlink := 1)];
      TightSame(v, Now());
      SameFiles(v, Now());
      CleanSame(v, Now());
    }

    /** The block-map part of iappend; `ok` is false when the image has no room for the blocks it needs. */
    method EnsureBlock(i: nat, fbn: nat) returns (ok: bool, x: nat)
      requires Packed() && i < freeinode <= |inodes| && fbn < MAXFILE
      modifies this`inodes, this`blocks, this`freeblock, this`owner
      ensures ok <==> old(freeblock) + Need(old(Now()), i, fbn) <= old(|blocks|)
      ensures ok ==> freeblock == old(freeblock) + Need(old(Now()), i, fbn) && |blocks| == old(|blocks|)
      ensures ok ==> Packed() && Patched(old(Now()), Now(), i, fbn * BSIZE, []) && inodes[i].size == old(inodes[i].size)
      ensures ok ==> Mapped(Now(), i, fbn, x) && OnlyNew(old(Now()), Now(), i, fbn)
    {
      hide Word;
      if freeblock + Lacking(i, fbn) > |blocks| { return false, 0; }
      ok := true;
      if fbn < NDIRECT {
        x := DirectBlock(i, fbn);
      } else {
        x := IndirectBlock(i, fbn);
      }
    }

    /** How many blocks the block map lacks before block fbn of file i is there. */
    function Lacking(i: nat, fbn: nat): (n: nat)
      requires Packed() && i < |inodes| && fbn < MAXFILE
      reads this
      ensures n == Need(Now(), i, fbn)
    {
      if fbn < NDIRECT then (if inodes[i].addrs[fbn] == 0 then 1 else 0)
      else if inodes[i].addrs[NDIRECT] == 0 then 2
      else
        assert SlotOk(|inodes|, Ind(i)) && Addr(inodes, blocks, Ind(i)) == inodes[i].addrs[NDIRECT];
        if Word(blocks[inodes[i].addrs[NDIRECT]], fbn - NDIRECT) == 0 then 1 else 0
    }

    method DirectBlock(i: nat, fbn: nat) returns (x: nat)
      requires Packed() && i < freeinode <= |inodes| && fbn < NDIRECT && freeblock + Need(Now(), i, fbn) <= |blocks|
      modifies this`inodes, this`freeblock, this`owner
      ensures freeblock == old(freeblock) + Need(old(Now()), i, fbn)
      ensures Packed() && Patched(old(Now()), Now(), i, fbn * BSIZE, []) && inodes[i].size == old(inodes[i].size)
      ensures Mapped(Now(), i, fbn, x) && OnlyNew(old(Now()), Now(), i, fbn)
    {
      ghost var v := Now();
      assert SlotOk(|inodes|, Data(i, fbn));
      if inodes[i].addrs[fbn] == 0 {
        AllocDirect(inodes, blocks, owner, NMETA, i, fbn, freeblock);
        owner := owner[freeblock := Data(i, fbn)];
        inodes := inodes[i := inodes[i].(addrs := inodes[i].addrs[fbn := freeblock])];
        freeblock := freeblock + 1;
      }
      x := inodes[i].addrs[fbn];
      GrownKeepsBytes(v, Now(), i, fbn);
    }

    method TakeIndirect(i: nat, ghost fbn: nat)
      requires Packed() && i < freeinode <= |inodes| && NDIRECT <= fbn < MAXFILE
      requires inodes[i].addrs[NDIRECT] == 0 ==> freeblock < |blocks|
      modifies this`inodes, this`freeblock, this`owner
      ensures Packed() && Grown(old(Now()), Now(), i, fbn)
      ensures freeblock == old(freeblock) + if old(inodes[i].addrs[NDIRECT]) == 0 then 1 else 0
      ensures inodes[i].addrs[NDIRECT] != 0
      ensures FileBlock(inodes[i], blocks, fbn) == FileBlock(old(inodes)[i], blocks, fbn)
      ensures old(inodes[i].addrs[NDIRECT]) != 0 ==> Now() == old(Now())
    {
      hide Word;
      assert SlotOk(|inodes|, Data(i, fbn)) && SlotOk(|inodes|, Ind(i));
      if inodes[i].addrs[NDIRECT] == 0 {
        AllocIndirect(inodes, blocks, owner, NMETA, i, freeblock);
        owner := owner[freeblock := Ind(i)];
        inodes := inodes[i := inodes[i].(addrs := inodes[i].addrs[NDIRECT := freeblock])];
        freeblock := freeblock + 1;
      }
    }

    method TakeEntry(i: nat, k: nat) returns (x: nat)
      requires Packed() && i < freeinode <= |inodes| && k < NINDIRECT && inodes[i].addrs[NDIRECT] != 0
      requires freeblock + Need(Now(), i, NDIRECT + k) <= |blocks|
      modifies this`blocks, this`freeblock, this`owner
      ensures |blocks| == old(|blocks|) && freeblock == old(freeblock) + Need(old(Now()), i, NDIRECT + k)
      ensures Packed() && Grown(old(Now()), Now(), i, NDIRECT + k) && Mapped(Now(), i, NDIRECT + k, x)
      ensures if FileBlock(inodes[i], old(blocks), NDIRECT + k) == 0 then blocks[x] == Zeros() else Now() == old(Now())
    {
      hide Word, PutWord;
      var ind := inodes[i].addrs[NDIRECT];
      assert SlotOk(|inodes|, Ind(i)) && Addr(inodes, blocks, Ind(i)) == ind;
      assert SlotOk(|inodes|, Data(i, NDIRECT + k));
      x := Word(blocks[ind], k);
      if x == 0 {
        x := freeblock;
        AllocEntry(inodes, blocks, owner, NMETA, i, k, x);
        owner := owner[x := Data(i, NDIRECT + k)];
        blocks := blocks[ind := PutWord(blocks[ind], k, x)];
        freeblock := freeblock + 1;
        assert Addr(inodes, blocks, Data(i, NDIRECT + k)) == x;
      }
    }

    method IndirectBlock(i: nat, fbn: nat) returns (x: nat)
      requires Packed() && i < freeinode <= |inodes| && NDIRECT <= fbn < MAXFILE
      requires freeblock + Need(Now(), i, fbn) <= |blocks|
      modifies this`inodes, this`blocks, this`freeblock, this`owner
      ensures |blocks| == old(|blocks|) && freeblock == old(freeblock) + Need(old(Now()), i, fbn)
      ensures Packed() && Patched(old(Now()), Now(), i, fbn * BSIZE, []) && inodes[i].size == old(inodes[i].size)
      ensures Mapped(Now(), i, fbn, x) && OnlyNew(old(Now()), Now(), i, fbn)
    {
      hide Owns, Word;
      TakeIndirect(i, fbn);
      ghost var u := Now();
      x := TakeEntry(i, fbn - NDIRECT);
      GrownTwice(old(Now()), u, Now(), i, fbn);
      GrownKeepsBytes(old(Now()), Now(), i, fbn);
    }

    /** One turn of iappend's loop. */
    method AppendChunk(i: nat, off: nat, data: seq<byte>) returns (ok: bool)
      requires Packed() && i < freeinode <= |inodes| && Tight(Now(), i, off) && Filled(Now(), i, off)
      requires data != [] && off % BSIZE + |data| <= BSIZE && off + |data| <= MAXBYTES
      modifies this`inodes, this`blocks, this`freeblock, this`owner
      ensures ok <==> old(freeblock) + Blocks(off + |data|) - Blocks(off) <= old(|blocks|)
      ensures ok ==> freeblock == old(freeblock) + Blocks(off + |data|) - Blocks(off)
      ensures ok ==> Packed() && |blocks| == old(|blocks|) && |inodes| == old(|inodes|)
      ensures ok ==> inodes[i].size == old(inodes[i].size) && Patched(old(Now()), Now(), i, off, data)
      ensures ok ==> Tight(Now(), i, off + |data|) && Filled(Now(), i, off + |data|)
      ensures ok ==> forall j, lim :: j != i && Tight(old(Now()), j, lim) ==> Tight(Now(), j, lim)
    {
      hide Owns, FileBlock, Addr, Byte, Patched, Blocks, Need, Filled, Tight;
      var fbn := off / BSIZE;
      ghost var u := Now();
      var x;
      NeedAt(u, i, off);
      BlocksUpTo(off, off + |data|);
      ok, x := EnsureBlock(i, fbn);
      if !ok { return; }
      ghost var w := Now();
      PatchedNone(u, w, i, fbn * BSIZE, off);
      TightGrows(u, w, i, fbn, off, off + |data|);
      MappedAddr(w, i, fbn, x);
      Copy(i, off, x, data);
      TightSame(w, Now());
      PatchedTwice(u, w, Now(), i, off, [], data);
      assert [] + data == data;
    }

    /** iappend: the bytes of `p` at the end of file i. */
    method Iappend(i: nat, p: seq<byte>) returns (ok: bool)
      requires Valid() && i < freeinode <= |inodes| && inodes[i].size + |p| <= MAXBYTES
      modifies this`inodes, this`blocks, this`freeblock, this`owner
      ensures ok <==> old(freeblock) + Blocks(old(inodes[i].size) + |p|) - Blocks(old(inodes[i].size)) <= old(|blocks|)
      ensures ok ==> freeblock == old(freeblock) + Blocks(old(inodes[i].size) + |p|) - Blocks(old(inodes[i].size))
      ensures ok ==> Valid() && |blocks| == old(|blocks|) && Written(old(Now()), Now(), i, old(inodes[i].size), p)
    {
      hide Owns, FileBlock, Addr, Byte, Patched, Blocks, Need, Filled, Tight, Clean;
      ghost var v := Now();
      var off0 := inodes[i].size;
      DenseFilled(v, i);
      var off, k := off0, 0;
      ok := true;
      PatchedSelf(v, i, off0);
      assert p[..0] == [];
      while k < |p|
        invariant k <= |p| && off == off0 + k && Packed() && |blocks| == old(|blocks|) && |inodes| == old(|inodes|)
        invariant inodes[i].size == off0 && Patched(v, Now(), i, off0, p[..k])
        invariant forall j :: 0 <= j < |inodes| ==> Tight(Now(), j, if j == i then off else v.inodes[j].size)
        invariant Filled(Now(), i, off) && freeblock == old(freeblock) + Blocks(off) - Blocks(off0)
      {
        var n1 := if |p| - k < BSIZE - off % BSIZE then |p| - k else BSIZE - off % BSIZE;
        ghost var u := Now();
        BlocksGrow(off + n1, off0 + |p|);
        ok := AppendChunk(i, off, p[k..k + n1]);
        if !ok { return; }
        PatchedTwice(v, u, Now(), i, off0, p[..k], p[k..k + n1]);
        assert p[..k] + p[k..k + n1] == p[..k + n1];
        off, k := off + n1, k + n1;
      }
      assert p[..k] == p;
      ghost var u := Now();
      Resize(v, u, i, off0, p, off);
      inodes := inodes[i := inodes[i].(size := off)];
      ResizeMaps(u, i, off);
      TightSame(u, Now());
      DenseAfter(v, Now(), i, off0, p);
      CleanWritten(v, Now(), i, off0, p);
    }

    /** bcopy into the sector and write it back. */
    method Copy(i: nat, off: nat, x: nat, data: seq<byte>)
      requires Packed() && i < freeinode <= |inodes| && data != [] && off % BSIZE + |data| <= BSIZE
        && off + |data| <= MAXBYTES
      requires Mapped(Now(), i, off / BSIZE, x)
      modifies this`blocks
      ensures Packed() && |blocks| == old(|blocks|) && Patched(old(Now()), Now(), i, off, data)
      ensures inodes == old(inodes) && SameAddrs(old(Now()), Now())
    {
      hide Word;
      assert SlotOk(|inodes|, Data(i, off / BSIZE)) && Addr(inodes, blocks, Data(i, off / BSIZE)) == x;
      PokeBytes(Now(), i, off, data);
      WriteData(inodes, blocks, owner, NMETA, x, Splice(blocks[x], off % BSIZE, data));
      blocks := blocks[x := Splice(blocks[x], off % BSIZE, data)];
    }

    /** iappend of the next directory entry to the root. */
    method AddEntry(entries: seq<seq<byte>>, k: nat) returns (ok: bool)
      requires Valid() && 1 < freeinode <= |inodes| && k < |entries| < 200 && forall e :: e in entries ==> |e| == DIRENT
      requires FileIs(Now(), 1, Joined(entries, k))
      modifies this`inodes, this`blocks, this`freeblock, this`owner
      ensures ok <==> old(freeblock) + Entry(k) <= old(|blocks|)
      ensures ok ==> freeblock == old(freeblock) + Entry(k)
      ensures ok ==> Valid() && |inodes| == old(|inodes|) && |blocks| == old(|blocks|)
      ensures ok ==> FileIs(Now(), 1, Joined(entries, k + 1))
      ensures ok ==> forall j, d :: j != 1 && FileIs(old(Now()), j, d) ==> FileIs(Now(), j, d)
    {
      hide Owns, Written, Content, Blocks;
      ghost var v := Now();
      assert |Content(v, 1)| == k * DIRENT && inodes[1].size == k * DIRENT;
      ok := Iappend(1, entries[k]);
      if ok {
        WrittenShape(v, Now(), 1, k * DIRENT, entries[k]);
        Appended(v, Now(), 1, Joined(entries, k), entries[k]);
      }
    }

    /** The end of main: round the root directory's size up to a whole block, then write the bitmap. */
    method Finish() returns (bitmap: seq<bool>)
      requires Valid() && 1 < freeinode <= |inodes| && inodes[1].size / BSIZE < MAXFILE
      modifies this`inodes
      ensures Packed() && |bitmap| == |blocks| && BitsOk(bitmap, owner.Keys, NMETA)
      ensures inodes == old(inodes)[1 := old(inodes[1]).(size := (old(inodes[1].size) / BSIZE + 1) * BSIZE)]
      ensures forall i :: 0 <= i < |inodes| && i != 1 ==> Dense(Now(), i)
      ensures Dense(Now(), 1) <==> old(inodes[1].size) % BSIZE != 0
      ensures Addr(inodes, blocks, Data(1, old(inodes[1].size) / BSIZE)) == 0 <==> old(inodes[1].size) % BSIZE == 0
      ensures Covered(Now(), 1, 0, old(inodes[1].size))
      ensures forall d :: FileIs(old(Now()), 1, d) ==>
        FileIs(Now(), 1, d + seq((|d| / BSIZE + 1) * BSIZE - |d|, _ => 0))
      ensures forall j, d :: j != 1 && FileIs(old(Now()), j, d) ==> FileIs(Now(), j, d)
    {
      hide Owns, Byte, Content, Addr, Clean, Dense;
      ghost var v := Now();
      var off := inodes[1].size;
      ResizeMaps(v, 1, (off / BSIZE + 1) * BSIZE);
      RootRounded(v, 1, (off / BSIZE + 1) * BSIZE);
      SameFiles(v, v.(inodes := inodes[1 := inodes[1].(size := (off / BSIZE + 1) * BSIZE)]));
      RootPadded(v, (off / BSIZE + 1) * BSIZE);
      inodes := inodes[1 := inodes[1].(size := (off / BSIZE + 1) * BSIZE)];
      bitmap := seq(|blocks|, _ => false);
      var i := 0;
      while i < freeblock
        invariant i <= freeblock && |bitmap| == |blocks| && forall b :: 0 <= b < |blocks| ==> (bitmap[b] <==> b < i)
      {
        bitmap := bitmap[i := true];
        i := i + 1;
      }
    }

    /** The read loop of main: append a host file in pieces of at most a block. */
    method CopyIn(i: nat, data: seq<byte>) returns (ok: bool)
      requires Valid() && 1 < i < freeinode <= |inodes| && |data| <= MAXBYTES && FileIs(Now(), i, [])
      modifies this`inodes, this`blocks, this`freeblock, this`owner
      ensures ok <==> old(freeblock) + Blocks(|data|) <= old(|blocks|)
      ensures ok ==> freeblock == old(freeblock) + Blocks(|data|)
      ensures ok ==> Valid() && |blocks| == old(|blocks|) && |inodes| == old(|inodes|)
      ensures ok ==> FileIs(Now(), i, data) && forall j, d :: j != i && FileIs(old(Now()), j, d) ==> FileIs(Now(), j, d)
    {
      hide Owns, Written, Content, Blocks;
      var k := 0;
      ok := true;
      NoBlocks();
      assert data[..0] == [];
      while k < |data|
        invariant k <= |data| && Valid() && |blocks| == old(|blocks|) && |inodes| == old(|inodes|)
        invariant freeblock == old(freeblock) + Blocks(k)
        invariant FileIs(Now(), i, data[..k]) && forall j, d :: j != i && FileIs(old(Now()), j, d) ==>
          FileIs(Now(), j, d)
      {
        var cc := if |data| - k < BSIZE then |data| - k else BSIZE;
        ghost var v := Now();
        assert |Content(v, i)| == k && inodes[i].size == k;
        BlocksGrow(k + cc, |data|);
        ok := Iappend(i, data[k..k + cc]);
        if !ok { return; }
        WrittenShape(v, Now(), i, k, data[k..k + cc]);
        Appended(v, Now(), i, data[..k], data[k..k + cc]);
        assert data[..k] + data[k..k + cc] == data[..k + cc];
        k := k + cc;
      }
      assert data[..k] == data;
    }

    /** One turn of main's loop over the host files. */
    method AddFile(entries: seq<seq<byte>>, files: seq<seq<byte>>, f: nat) returns (ok: bool)
      requires Valid() && freeinode == f + 2 < |inodes| && f + 2 < |entries| < 200 && forall e :: e in entries ==>
        |e| == DIRENT
      requires f < |files| && |files[f]| <= MAXBYTES && FileIs(Now(), 1, Joined(entries, f + 2))
        && Stored(Now(), files, f)
      modifies this
      ensures ok <==> old(freeblock) + Entry(f + 2) + Blocks(|files[f]|) <= old(|blocks|)
      ensures ok ==> freeblock == old(freeblock) + Entry(f + 2) + Blocks(|files[f]|)
      ensures ok ==> Valid() && |inodes| == old(|inodes|) && |blocks| == old(|blocks|) && freeinode == f + 3
      ensures ok ==> FileIs(Now(), 1, Joined(entries, f + 3)) && Stored(Now(), files, f + 1)
    {
      hide Owns, Written, Content, Dense, FileIs, Tight, Blocks;
      var inum := Ialloc(2);
      assert Stored(Now(), files, f);
      ok := AddEntry(entries, f + 2);
      if ok {
        assert Stored(Now(), files, f);
        ok := CopyIn(inum, files[f]);
      }
    }

    /** The root directory with "." and "..", then one inode, entry and copy per file. */
    method Populate(files: seq<seq<byte>>, entries: seq<seq<byte>>) returns (ok: bool)
      requires Valid() && |inodes| == 200 && freeinode == 1 && |entries| == |files| + 2 < 200
      requires forall e :: e in entries ==> |e| == DIRENT
      requires forall f :: f in files ==> |f| <= MAXBYTES
      modifies this
      ensures ok <==> old(freeblock) + Blocks(|entries| * DIRENT) + Total(files, |files|) <= old(|blocks|)
      ensures ok ==> Valid() && |inodes| == 200 && freeinode == |files| + 2 && |blocks| == old(|blocks|)
      ensures ok ==> freeblock == old(freeblock) + Blocks(|entries| * DIRENT) + Total(files, |files|)
      ensures ok ==> FileIs(Now(), 1, Joined(entries, |entries|))
      ensures ok ==> Stored(Now(), files, |files|)
    {
      hide Owns, Dense, FileIs, Tight, Joined, Blocks;
      var root := Ialloc(1);
      JoinedNone(entries);
      NoBlocks();
      BlocksGrow(DIRENT, |entries| * DIRENT);
      BlocksGrow(2 * DIRENT, |entries| * DIRENT);
      ok := AddEntry(entries, 0);
      if !ok { return; }
      ok := AddEntry(entries, 1);
      if !ok { return; }
      var f := 0;
      while f < |files|
        invariant f <= |files| && Valid() && |inodes| == 200 && freeinode == f + 2 && |blocks| == old(|blocks|)
        invariant FileIs(Now(), 1, Joined(entries, f + 2))
        invariant Stored(Now(), files, f) && freeblock == old(freeblock) + Blocks((f + 2) * DIRENT) + Total(files, f)
      {
        TotalGrows(files, f + 1, |files|);
        BlocksGrow((f + 3) * DIRENT, |entries| * DIRENT);
        ok := AddFile(entries, files, f);
        if !ok { return; }
        f := f + 1;
      }
    }
  }

  /** main of mkfs: the root directory, then the files.  The image it leaves is a valid file system
      without holes exactly when the number of root entries is not a multiple of 32. */
  method MakeFs(fssize: nat, files: seq<seq<byte>>, entries: seq<seq<byte>>)
          returns (ok: bool, img: Image, bitmap: seq<bool>)
    requires NMETA <= fssize < WORD && |entries| == |files| + 2 < 200
    requires forall e :: e in entries ==> |e| == DIRENT
    requires forall f :: f in files ==> |f| <= MAXBYTES
    ensures ok <==> NMETA + Blocks(|entries| * DIRENT) + Total(files, |files|) <= fssize
    ensures ok ==> img.Packed() && |bitmap| == |img.blocks| && BitsOk(bitmap, img.owner.Keys, NMETA)
    ensures ok ==> |img.inodes| == 200 && forall i :: 0 <= i < 200 && i != 1 ==> Dense(img.Now(), i)
    ensures ok ==> Stored(img.Now(), files, |files|)
    ensures ok ==> FileIs(img.Now(), 1, Listing(entries))
    ensures ok ==> Covered(img.Now(), 1, 0, |entries| * DIRENT)
    ensures ok ==> (Dense(img.Now(), 1) <==> |entries| % 32 != 0)
    ensures ok ==> (Addr(img.inodes, img.blocks, Data(1, |entries| / 32)) == 0 <==> |entries| % 32 == 0)
    ensures ok ==> |img.blocks| == fssize && img.freeblock == NMETA + Blocks(|entries| * DIRENT) + Total(files, |files|)
  {
    hide Owns, Dense, Tight, Blocks, Total, Joined, FileIs, Clean, Addr, Listing, BitsOk;
    img := new Image(fssize, 200);
    bitmap := [];
    ok := img.Populate(files, entries);
    if ok {
      ghost var d := Joined(entries, |entries|);
      FileSize(img.Now(), 1, d);
      ListingOf(entries, d);
      bitmap := img.Finish();
    }
  }

  lemma {:induction false} NoTotal(files: seq<seq<byte>>, f: nat)
    requires f <= |files| && forall g :: 0 <= g < |files| ==> files[g] == []
    ensures Total(files, f) == 0
  {
    if f > 0 { NoTotal(files, f - 1); }
  }

  /** The first k directory entries, one after the other. */
  ghost function Joined(entries: seq<seq<byte>>, k: nat): (r: seq<byte>)
    requires k <= |entries| && forall e :: e in entries ==> |e| == DIRENT
    ensures |r| == k * DIRENT
  {
    if k == 0 then [] else Joined(entries, k - 1) + entries[k - 1]
  }

  /** The root directory: the entries, then zeros up to a whole block, a block of them if the last one is full. */
  ghost function Listing(entries: seq<seq<byte>>): (r: seq<byte>)
    requires forall e :: e in entries ==> |e| == DIRENT
    ensures |r| == (|entries| / 32 + 1) * BSIZE
  {
    Joined(entries, |entries|) + seq((|entries| / 32 + 1) * BSIZE - |entries| * DIRENT, _ => 0)
  }

  lemma ListingOf(entries: seq<seq<byte>>, d: seq<byte>)
    requires (forall e :: e in entries ==> |e| == DIRENT) && d == Joined(entries, |entries|)
    ensures |d| == |entries| * DIRENT && |d| / BSIZE == |entries| / 32 && (|d| % BSIZE == 0 <==> |entries| % 32 == 0)
    ensures d + seq((|d| / BSIZE + 1) * BSIZE - |d|, _ => 0) == Listing(entries)
  {
  }

  lemma FileSize(v: Vol, j: nat, d: seq<byte>)
    requires FileIs(v, j, d)
    ensures VolOk(v) && j < |v.inodes| && v.inodes[j].size == |d| <= MAXBYTES && Content(v, j) == d
  {
  }

  /** Rounding the size up leaves a hole exactly when the old size filled its last block. */
  lemma RootRounded(v: Vol, i: nat, size: nat)
    requires VolOk(v) && i < |v.inodes| && Tight(v, i, v.inodes[i].size)
      && (forall j :: 0 <= j < |v.inodes| ==> Dense(v, j))
    requires size == (v.inodes[i].size / BSIZE + 1) * BSIZE <= MAXBYTES
    ensures (var w := v.(inodes := v.inodes[i := v.inodes[i].(size := size)]);
      && VolOk(w) && (Dense(w, i) <==> v.inodes[i].size % BSIZE != 0) && Covered(w, i, 0, v.inodes[i].size)
      && (Addr(w.inodes, w.blocks, Data(i, v.inodes[i].size / BSIZE)) == 0 <==> v.inodes[i].size % BSIZE == 0)
      && forall j :: 0 <= j < |v.inodes| && j != i ==> Dense(w, j))
  {
    var w := v.(inodes := v.inodes[i := v.inodes[i].(size := size)]);
    ResizeMaps(v, i, size);
    assert forall j, bn :: 0 <= j < |v.inodes| && 0 <= bn < MAXFILE ==> SlotOk(|v.inodes|, Data(j, bn));
    forall j | 0 <= j < |v.inodes| && j != i ensures Dense(w, j) { assert Dense(v, j); }
    var q := v.inodes[i].size / BSIZE;
    assert Addr(w.inodes, w.blocks, Data(i, q)) == Addr(v.inodes, v.blocks, Data(i, q));
    assert Dense(v, i);
  }

  /** The blocks a file of n bytes takes, its indirect block included. */
  function Blocks(n: nat): nat {
    var q := (n + BSIZE - 1) / BSIZE;
    if q > NDIRECT then q + 1 else q
  }

  /** All blocks below byte `lim` of file i are mapped. */
  ghost predicate Filled(v: Vol, i: nat, lim: nat) {
    VolOk(v) && i < |v.inodes|
    && forall bn :: 0 <= bn < MAXFILE && bn * BSIZE < lim ==> Addr(v.inodes, v.blocks, Data(i, bn)) != 0
  }

  /** A file packed up to `off` needs exactly what its size there says. */
  lemma NeedAt(v: Vol, i: nat, off: nat)
    requires Tight(v, i, off) && Filled(v, i, off) && off < MAXBYTES
    ensures Need(v, i, off / BSIZE) == Blocks(off + 1) - Blocks(off)
  {
    hide Word;
    var bn := off / BSIZE;
    assert SlotOk(|v.inodes|, Data(i, bn)) && SlotOk(|v.inodes|, Ind(i)) && SlotOk(|v.inodes|, Data(i, NDIRECT));
    assert Addr(v.inodes, v.blocks, Data(i, bn)) == FileBlock(v.inodes[i], v.blocks, bn);
    assert Addr(v.inodes, v.blocks, Data(i, NDIRECT)) != 0 ==> v.inodes[i].addrs[NDIRECT] != 0;
    assert off > NDIRECT * BSIZE ==> Addr(v.inodes, v.blocks, Data(i, NDIRECT)) != 0;
    hide FileBlock, Addr, Owns;
    if off % BSIZE == 0 { BlocksStep(off / BSIZE); }
  }

  lemma DenseFilled(v: Vol, i: nat)
    requires VolOk(v) && i < |v.inodes| && Dense(v, i)
    ensures Filled(v, i, v.inodes[i].size)
  {
  }

  lemma MappedAddr(v: Vol, i: nat, fbn: nat, x: nat)
    requires VolOk(v) && Mapped(v, i, fbn, x)
    ensures i < |v.inodes| && fbn < MAXFILE && Addr(v.inodes, v.blocks, Data(i, fbn)) != 0
  {
  }

  lemma BlocksStep(q: nat)
    ensures Blocks(q * BSIZE + 1) - Blocks(q * BSIZE) == if q == NDIRECT then 2 else 1
  {
  }

  lemma BlocksUpTo(off: nat, n: nat)
    requires off < n <= (off / BSIZE + 1) * BSIZE
    ensures Blocks(n) == Blocks(off + 1)
  {
  }

  lemma NoBlocks()
    ensures Blocks(0) == 0
  {
  }

  /** The blocks that entry k adds to the root directory. */
  function Entry(k: nat): nat {
    BlocksGrow(k * DIRENT, (k + 1) * DIRENT);
    Blocks((k + 1) * DIRENT) - Blocks(k * DIRENT)
  }

  /** The blocks of the first f files. */
  ghost function Total(files: seq<seq<byte>>, f: nat): nat
    requires f <= |files|
  {
    if f == 0 then 0 else Total(files, f - 1) + Blocks(|files[f - 1]|)
  }

  lemma {:induction false} TotalGrows(files: seq<seq<byte>>, f: nat, g: nat)
    requires f <= g <= |files|
    ensures Total(files, f) <= Total(files, g)
    decreases g
  {
    if f < g { TotalGrows(files, f, g - 1); }
  }

  lemma BlocksGrow(a: nat, b: nat)
    requires a <= b
    ensures Blocks(a) <= Blocks(b)
  {
  }

  /** No block is mapped at or beyond byte `lim` of file i. */
  ghost predicate Tight(v: Vol, i: nat, lim: nat) {
    VolOk(v) && i < |v.inodes| && (v.inodes[i].addrs[NDIRECT] != 0 ==> NDIRECT * BSIZE < lim)
    && forall bn :: 0 <= bn < MAXFILE && Addr(v.inodes, v.blocks, Data(i, bn)) != 0 ==> bn * BSIZE < lim
  }

  ghost predicate Mapped(v: Vol, i: nat, bn: nat, addr: nat) {
    VolOk(v) && i < |v.inodes| && bn < MAXFILE && 0 != addr == FileBlock(v.inodes[i], v.blocks, bn) < |v.blocks|
  }

  ghost predicate OnlyNew(v: Vol, v': Vol, i: nat, fbn: nat) {
    VolOk(v) && VolOk(v') && |v.inodes| == |v'.inodes|
    && (forall j :: 0 <= j < |v.inodes| && (j != i || fbn < NDIRECT) ==>
        v'.inodes[j].addrs[NDIRECT] == v.inodes[j].addrs[NDIRECT])
    && forall s :: SlotOk(|v.inodes|, s) && s.Data? && s != Data(i, fbn) ==>
        Addr(v'.inodes, v'.blocks, s) == Addr(v.inodes, v.blocks, s)
  }

  lemma TightGrows(v: Vol, v': Vol, i: nat, fbn: nat, off: nat, off': nat)
    requires OnlyNew(v, v', i, fbn) && fbn == off / BSIZE && off < off' && i < |v.inodes| && fbn < MAXFILE
    ensures Tight(v, i, off) ==> Tight(v', i, off')
    ensures forall j, lim :: j != i && Tight(v, j, lim) ==> Tight(v', j, lim)
    ensures Filled(v, i, off) && Addr(v'.inodes, v'.blocks, Data(i, fbn)) != 0 && off' <= (fbn + 1) * BSIZE ==>
      Filled(v', i, off')
  {
    assert forall j, bn :: 0 <= j < |v.inodes| && 0 <= bn < MAXFILE ==> SlotOk(|v.inodes|, Data(j, bn));
  }

  lemma TightSame(v: Vol, v': Vol)
    requires SameAddrs(v, v')
    ensures forall j, lim :: Tight(v, j, lim) ==> Tight(v', j, lim)
    ensures forall j, lim :: Filled(v, j, lim) ==> Filled(v', j, lim)
  {
    assert forall j, bn :: 0 <= j < |v.inodes| && 0 <= bn < MAXFILE ==> SlotOk(|v.inodes|, Data(j, bn));
    forall j | 0 <= j < |v.inodes| ensures v'.inodes[j].addrs[NDIRECT] == v.inodes[j].addrs[NDIRECT] {
      assert SlotOk(|v.inodes|, Ind(j)) && Addr(v'.inodes, v'.blocks, Ind(j)) == Addr(v.inodes, v.blocks, Ind(j));
    }
  }

  function Blank(): Inode { Inode(0, 0, 0, seq(NDIRECT + 1, _ => 0)) }

  /** Inodes 2, 3, ... hold the first f files. */
  ghost predicate Stored(v: Vol, files: seq<seq<byte>>, f: nat)
    requires f <= |files|
  {
    forall g :: 0 <= g < f ==> FileIs(v, g + 2, files[g])
  }

  lemma JoinedNone(entries: seq<seq<byte>>)
    requires forall e :: e in entries ==> |e| == DIRENT
    ensures Joined(entries, 0) == []
  {
  }

  /** File j exists and holds exactly `d`. */
  ghost predicate FileIs(v: Vol, j: nat, d: seq<byte>) {
    VolOk(v) && j < |v.inodes| && v.inodes[j].size <= MAXBYTES && Content(v, j) == d
  }

  /** Behind the end of a file its blocks are still zero. */
  ghost predicate Clean(v: Vol) {
    VolOk(v) && forall j, p :: 0 <= j < |v.inodes| && v.inodes[j].size <= p < MAXBYTES ==> Byte(v, j, p) == 0
  }

  lemma CleanWritten(v: Vol, v': Vol, i: nat, off: nat, src: seq<byte>)
    requires Clean(v) && Written(v, v', i, off, src) && off == v.inodes[i].size
    ensures Clean(v')
  {
    hide Owns, Byte, Addr;
  }

  lemma SameBytes(v: Vol, v': Vol, j: nat, p: nat)
    requires SameAddrs(v, v') && v'.blocks == v.blocks && v'.owner == v.owner && j < |v.inodes| && p < MAXBYTES
    ensures Byte(v', j, p) == Byte(v, j, p)
  {
    assert SlotOk(|v.inodes|, Data(j, p / BSIZE));
  }

  lemma CleanSame(v: Vol, v': Vol)
    requires Clean(v) && SameAddrs(v, v') && v'.blocks == v.blocks && v'.owner == v.owner
    requires forall j :: 0 <= j < |v.inodes| ==> v'.inodes[j].size == v.inodes[j].size
    ensures Clean(v')
  {
    forall j, p | 0 <= j < |v'.inodes| && v'.inodes[j].size <= p < MAXBYTES ensures Byte(v', j, p) == 0 {
      SameBytes(v, v', j, p);
    }
  }

  /** Rounding its size up shows zeros behind the end of a file, mapped or not. */
  lemma RootPadded(v: Vol, size: nat)
    requires Clean(v) && 1 < |v.inodes| && size == (v.inodes[1].size / BSIZE + 1) * BSIZE <= MAXBYTES
    ensures (var w := v.(inodes := v.inodes[1 := v.inodes[1].(size := size)]);
      forall d :: FileIs(v, 1, d) ==> FileIs(w, 1, d + seq((|d| / BSIZE + 1) * BSIZE - |d|, _ => 0)))
  {
    var w := v.(inodes := v.inodes[1 := v.inodes[1].(size := size)]);
    ResizeMaps(v, 1, size);
    forall d | FileIs(v, 1, d) ensures FileIs(w, 1, d + seq((|d| / BSIZE + 1) * BSIZE - |d|, _ => 0)) {
      var c := Content(w, 1);
      forall p | 0 <= p < size ensures c[p] == if p < |d| then d[p] else 0 {
        SameBytes(v, w, 1, p);
        assert p < |d| ==> d[p] == Byte(v, 1, p);
      }
    }
  }

  lemma SameFiles(v: Vol, v': Vol)
    requires SameAddrs(v, v') && v'.blocks == v.blocks && v'.owner == v.owner
    ensures forall j: nat, d :: FileIs(v, j, d) && v.inodes[j].size == v'.inodes[j].size ==> FileIs(v', j, d)
  {
    forall j, p | 0 <= j < |v.inodes| && 0 <= p < MAXBYTES ensures Byte(v', j, p) == Byte(v, j, p) {
      assert SlotOk(|v.inodes|, Data(j, p / BSIZE));
    }
    forall j: nat, d | FileIs(v, j, d) && v.inodes[j].size == v'.inodes[j].size ensures Content(v', j) == d {
      var c, c' := Content(v, j), Content(v', j);
      assert forall p :: 0 <= p < |c| ==> c'[p] == Byte(v', j, p) == Byte(v, j, p) == c[p];
    }
  }

  /** Appending to file i extends its contents and touches no other file. */
  lemma Appended(v: Vol, v': Vol, i: nat, d: seq<byte>, p: seq<byte>)
    requires FileIs(v, i, d) && Written(v, v', i, |d|, p) && |d| + |p| <= MAXBYTES
    ensures FileIs(v', i, d + p)
    ensures forall j, e :: j != i && FileIs(v, j, e) ==> FileIs(v', j, e)
  {
    WrittenSplices(v, v', i, |d|, p);
    assert d[..|d|] + p + [] == d + p;
    forall j, e | j != i && FileIs(v, j, e) ensures FileIs(v', j, e) {
      WrittenKeepsOthers(v, v', i, |d|, p, j);
    }
  }

  lemma ResizeMaps(v: Vol, i: nat, size: nat)
    requires VolOk(v) && i < |v.inodes|
    ensures SameAddrs(v, v.(inodes := v.inodes[i := v.inodes[i].(size := size)]))
  {
    var w := v.(inodes := v.inodes[i := v.inodes[i].(size := size)]);
    assert forall s :: SlotOk(|v.inodes|, s) ==> Addr(w.inodes, w.blocks, s) == Addr(v.inodes, v.blocks, s);
  }

  lemma Relabel(v: Vol, inum: nat, typ: nat)
    requires VolOk(v) && inum < |v.inodes| && v.inodes[inum] == Blank() && forall i :: 0 <= i < |v.inodes| ==>
      Dense(v, i)
    ensures (var v' := v.(inodes := v.inodes[inum := Blank().(typ := typ, nlink := 1)]);
      SameAddrs(v, v') && forall i :: 0 <= i < |v.inodes| ==> Dense(v', i))
  {
    var v' := v.(inodes := v.inodes[inum := Blank().(typ := typ, nlink := 1)]);
    assert forall s :: SlotOk(|v.inodes|, s) ==> Addr(v'.inodes, v.blocks, s) == Addr(v.inodes, v.blocks, s);
    forall i | 0 <= i < |v.inodes| ensures Dense(v', i) {
      assert Dense(v, i) && forall bn :: 0 <= bn < MAXFILE ==> SlotOk(|v.inodes|, Data(i, bn));
    }
  }
}
