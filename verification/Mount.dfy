/** The disk that mkfs makes of its arguments, with its root directory, and what the kernel finds when it mounts it. */
module Mount {
  import opened FsModel
  import opened FsTrace
  import opened FsCode
  import opened Mkfs
  import D = DirModel
  import DirCode
  import FsRead

  const UNDERSCORE: byte := 95

  /** The name of a file in the image: the argument without a leading underscore. */
  function NameOf(arg: seq<byte>): seq<byte> { if arg != [] && arg[0] == UNDERSCORE then arg[1..] else arg }

  /** Name and inode number of the k-th entry of the root: "." and ".." first, then the files. */
  function RootName(args: seq<seq<byte>>, k: nat): seq<byte>
    requires k < |args| + 2
  {
    if k == 0 then [46] else if k == 1 then [46, 46] else NameOf(args[k - 2])
  }

  // ---------------------------------------------------------------- the root directory

  /** The entries of the root directory of an image made of the files `args`: "." and ".." lead to inode 1, the
      k-th file to inode k + 2, and the rest are free. */
  ghost predicate Lists(es: seq<D.Dirent>, args: seq<seq<byte>>) {
    && |es| >= |args| + 2 && es[0] == D.Dirent(1, D.Padded([46])) && es[1] == D.Dirent(1, D.Padded([46, 46]))
    && (forall k :: 2 <= k < |args| + 2 ==> es[k] == D.Dirent(k, D.Padded(NameOf(args[k - 2]))))
    && forall k :: |args| + 2 <= k < |es| ==> es[k].inum == 0
  }

  /** No two names are the same when cut to 14 bytes. */
  ghost predicate Different(args: seq<seq<byte>>) {
    forall j, k :: 0 <= j < k < |args| + 2 ==> D.Key(RootName(args, j)) != D.Key(RootName(args, k))
  }

  ghost predicate Named(args: seq<seq<byte>>, name: D.Bytes, inum: nat) {
    || (inum == 1 && (name == D.Key([46]) || name == D.Key([46, 46])))
    || (2 <= inum < |args| + 2 && name == D.Key(NameOf(args[inum - 2])))
  }

  lemma ListedAt(es: seq<D.Dirent>, args: seq<seq<byte>>, k: nat)
    requires Lists(es, args) && k < |args| + 2
    ensures es[k].inum == (if k < 2 then 1 else k) && D.Key(es[k].name) == D.Key(RootName(args, k))
  {
    D.PaddedKey(RootName(args, k));
  }

  /** The root directory has exactly the entries for ".", ".." and the files; as a map it is right exactly when
      no two names agree in their first 14 bytes. */
  lemma RootMaps(es: seq<D.Dirent>, args: seq<seq<byte>>)
    requires Lists(es, args)
    ensures forall name, inum :: D.Maps(es, name, inum) <==> Named(args, name, inum)
    ensures D.NoTwice(es) <==> Different(args)
    ensures Different(args) ==> forall name, inum :: Named(args, name, inum) <==>
      name in D.Names(es) && D.Names(es)[name] == inum
  {
    hide D.Key, D.Padded, D.Names, NameOf;
    forall k | 0 <= k < |args| + 2
      ensures es[k].inum == (if k < 2 then 1 else k) && D.Key(es[k].name) == D.Key(RootName(args, k))
    {
      ListedAt(es, args, k);
    }
    forall name, inum ensures D.Maps(es, name, inum) <==> Named(args, name, inum) {
      if D.Maps(es, name, inum) {
        var k :| 0 <= k < |es| && es[k].inum == inum != 0 && D.Key(es[k].name) == name;
        assert k < |args| + 2;
      }
      if Named(args, name, inum) {
        var k := if inum >= 2 then inum else if name == D.Key([46]) then 0 else 1;
        assert es[k].inum == inum && D.Key(es[k].name) == name;
      }
    }
    if D.NoTwice(es) {
      forall j, k | 0 <= j < k < |args| + 2 ensures D.Key(RootName(args, j)) != D.Key(RootName(args, k)) {
        assert D.Key(es[j].name) != D.Key(es[k].name);
      }
      forall name, inum ensures Named(args, name, inum) <==> name in D.Names(es) && D.Names(es)[name] == inum {
        D.NamesIff(es, name, inum);
        assert D.Maps(es, name, inum) <==> Named(args, name, inum);
      }
    }
  }

  lemma PaddedBytes(name: seq<byte>)
    ensures |D.Padded(name)| == 14 && forall k :: 0 <= k < 14 ==> 0 <= D.Padded(name)[k] < 256
  {
    D.KeyAt(name);
  }

  /** One struct dirent. */
  method MakeEntry(inum: nat, name: seq<byte>) returns (e: seq<byte>)
    requires inum < 200
    ensures |e| == DIRENT && D.Decode(e) == D.Dirent(inum, D.Padded(name))
  {
    hide D.Padded;
    var field := DirCode.Strncpy(name);
    PaddedBytes(name);
    var bytes: D.Bytes := [inum % 256, inum / 256] + field;
    assert forall k :: 0 <= k < |bytes| ==> 0 <= bytes[k] < 256;
    e := bytes;
    assert e[2..] == field;
  }

  method RootEntries(args: seq<seq<byte>>) returns (entries: seq<seq<byte>>)
    requires |args| < 198
    ensures |entries| == |args| + 2 && forall e :: e in entries ==> |e| == DIRENT
    ensures D.Decode(entries[0]) == D.Dirent(1, D.Padded([46]))
    ensures D.Decode(entries[1]) == D.Dirent(1, D.Padded([46, 46]))
    ensures forall k :: 2 <= k < |entries| ==> D.Decode(entries[k]) == D.Dirent(k, D.Padded(NameOf(args[k - 2])))
  {
    hide D.Padded, D.Decode;
    var dot := MakeEntry(1, [46]);
    var dots := MakeEntry(1, [46, 46]);
    entries := [dot, dots];
    while |entries| < |args| + 2
      invariant 2 <= |entries| <= |args| + 2 && forall e :: e in entries ==> |e| == DIRENT
      invariant entries[..2] == [dot, dots]
      invariant forall k :: 2 <= k < |entries| ==> D.Decode(entries[k]) == D.Dirent(k, D.Padded(NameOf(args[k - 2])))
    {
      var e := MakeEntry(|entries|, NameOf(args[|entries| - 2]));
      entries := entries + [e];
    }
    assert entries[0] == entries[..2][0] && entries[1] == entries[..2][1];
  }

  lemma {:induction false} JoinedAt(entries: seq<seq<byte>>, n: nat, k: nat)
    requires k < n <= |entries| && forall e :: e in entries ==> |e| == DIRENT
    ensures Joined(entries, n)[16 * k..16 * k + 16] == entries[k]
  {
    if k < n - 1 {
      JoinedAt(entries, n - 1, k);
      assert Joined(entries, n)[16 * k..16 * k + 16] == Joined(entries, n - 1)[16 * k..16 * k + 16];
    }
  }

  lemma ListingLists(entries: seq<seq<byte>>, args: seq<seq<byte>>)
    requires |entries| == |args| + 2 && forall e :: e in entries ==> |e| == DIRENT
    requires D.Decode(entries[0]) == D.Dirent(1, D.Padded([46]))
    requires D.Decode(entries[1]) == D.Dirent(1, D.Padded([46, 46]))
    requires forall k :: 2 <= k < |entries| ==> D.Decode(entries[k]) == D.Dirent(k, D.Padded(NameOf(args[k - 2])))
    ensures Lists(D.Entries(Listing(entries)), args)
  {
    hide D.Padded, NameOf, Joined;
    var c := Listing(entries);
    var es := D.Entries(c);
    forall k | 0 <= k < |args| + 2 ensures es[k] == D.Decode(entries[k]) {
      JoinedAt(entries, |entries|, k);
      assert D.EntryAt(c, k) == entries[k];
    }
    forall k | |args| + 2 <= k < |es| ensures es[k].inum == 0 {
      assert D.EntryAt(c, k)[0] == c[16 * k] == 0 && D.EntryAt(c, k)[1] == c[16 * k + 1] == 0;
    }
  }

  /** mkfs, from its arguments: the file contents and their names.  Whatever inode number an entry of the root has,
      the bytes of the file it names are there. */
  method MakeDisk(fssize: nat, args: seq<seq<byte>>, files: seq<seq<byte>>)
    returns (ok: bool, img: Image, bitmap: seq<bool>)
    requires NMETA <= fssize < WORD && |args| == |files| < 198 && forall f :: f in files ==> |f| <= MAXBYTES
    ensures ok <==> NMETA + Mkfs.Blocks((|args| + 2) * DIRENT) + Total(files, |files|) <= fssize
    ensures ok ==> img.Packed() && |bitmap| == |img.blocks| == fssize && BitsOk(bitmap, img.owner.Keys, NMETA)
    ensures ok ==> |img.inodes| == 200 && img.inodes[1].size == ((|args| + 2) / 32 + 1) * BSIZE <= MAXBYTES
    ensures ok ==> Lists(D.Entries(Content(img.Now(), 1)), args)
    ensures ok ==> (var es := D.Entries(Content(img.Now(), 1));
      && |es| >= |args| + 2 && FileIs(img.Now(), es[0].inum, Content(img.Now(), 1)) && es[1].inum == es[0].inum == 1
      && forall k :: 2 <= k < |files| + 2 ==> FileIs(img.Now(), es[k].inum, files[k - 2]))
    ensures ok ==> forall i :: 0 <= i < 200 && i != 1 ==> Dense(img.Now(), i)
    ensures ok ==> Covered(img.Now(), 1, 0, (|args| + 2) * DIRENT)
    ensures ok ==> (Addr(img.inodes, img.blocks, Data(1, (|args| + 2) / 32)) == 0 <==> (|args| + 2) % 32 == 0)
    ensures ok ==> img.freeblock == NMETA + Mkfs.Blocks((|args| + 2) * DIRENT) + Total(files, |files|)
  {
    hide Owns, Dense, Mkfs.Blocks, Total, Listing, Lists, Content, D.Decode, D.Padded, D.Entries, NameOf, BitsOk;
    hide Addr, FileIs, Covered;
    var entries := RootEntries(args);
    ok, img, bitmap := MakeFs(fssize, files, entries);
    ListingLists(entries, args);
    if ok {
      FileSize(img.Now(), 1, Listing(entries));
      ListedInums(D.Entries(Content(img.Now(), 1)), args);
    }
  }

  lemma ListedInums(es: seq<D.Dirent>, args: seq<seq<byte>>)
    requires Lists(es, args)
    ensures |es| >= |args| + 2 && es[0].inum == es[1].inum == 1
    ensures forall k :: 2 <= k < |args| + 2 ==> es[k].inum == k
  {
  }

  // ---------------------------------------------------------------- from mkfs to cat

  /** The root has no hole but the block that its rounded size adds, if that block is new. */
  lemma RootHoles(v: Vol, n: nat)
    requires VolOk(v) && 1 < |v.inodes| && 0 < n < 200 && Covered(v, 1, 0, n * DIRENT)
    requires Addr(v.inodes, v.blocks, Data(1, n / 32)) == 0 <==> n % 32 == 0
    ensures |Holes(v, 1, 0, (n / 32 + 1) * BSIZE)| == if n % 32 == 0 then 1 else 0
  {
    hide Owns, Addr, Holes, Covered;
    if n % 32 != 0 {
      RootCovered(v, n);
      NothingLacks(v, 1, 0, (n / 32 + 1) * BSIZE);
    } else {
      NothingLacks(v, 1, 0, n * DIRENT);
      FilledTakes(v, n * DIRENT);
      assert (n / 32 + 1) * BSIZE == n * DIRENT + BSIZE;
      HolesTwice(v, v, 1, 0, n * DIRENT, BSIZE, [], []);
      LastBlock(v, n);
    }
  }

  lemma RootCovered(v: Vol, n: nat)
    requires VolOk(v) && 1 < |v.inodes| && 0 < n < 200 && Covered(v, 1, 0, n * DIRENT)
    requires Addr(v.inodes, v.blocks, Data(1, n / 32)) != 0
    ensures Covered(v, 1, 0, (n / 32 + 1) * BSIZE)
  {
    forall bn: nat | Spans(0, (n / 32 + 1) * BSIZE, bn) ensures Addr(v.inodes, v.blocks, Data(1, bn)) != 0 {
      if bn < n / 32 { assert Spans(0, n * DIRENT, bn); }
    }
  }

  lemma LastBlock(v: Vol, n: nat)
    requires VolOk(v) && 1 < |v.inodes| && 0 < n < 200 && n % 32 == 0
    requires Addr(v.inodes, v.blocks, Data(1, n / 32)) == 0
    ensures |Holes(v, 1, n * DIRENT, BSIZE)| == 1
  {
    NeedIsHoles(v, 1, n * DIRENT, BSIZE);
    assert n * DIRENT / BSIZE == n / 32;
  }

  lemma FilledTakes(v: Vol, m: nat)
    requires VolOk(v) && 1 < |v.inodes| && Covered(v, 1, 0, m) && m <= NDIRECT * BSIZE && Holes(v, 1, 0, m) == {}
    ensures Takes(v, v, 1, 0, m, [], [])
  {
  }

  /** A file without holes keeps its contents and has none after another file was read. */
  lemma StillThere(v: Vol, v': Vol, i: nat, j: nat, d: seq<byte>)
    requires Patched(v, v', i, 0, []) && FileIs(v, j, d) && Dense(v, j) && j != i
    ensures j < |v'.inodes| && v'.inodes[j].size == |d| && FileIs(v', j, d) && Holes(v', j, 0, |d|) == {}
  {
    hide Addr, Byte;
    assert v'.inodes[j] == v.inodes[j];
    var c, c' := Content(v, j), Content(v', j);
    assert forall p :: 0 <= p < |c| ==> c[p] == Byte(v, j, p) == Byte(v', j, p) == c'[p];
    forall bn | Spans(0, |d|, bn) ensures Addr(v'.inodes, v'.blocks, Data(j, bn)) != 0 {
      assert SlotOk(|v.inodes|, Data(j, bn)) && Addr(v.inodes, v.blocks, Data(j, bn)) != 0;
    }
    NothingLacks(v', j, 0, |d|);
  }

  lemma FreeWhen(bitmap: seq<bool>, owner: map<nat, Slot>, freeblock: nat)
    requires BitsOk(bitmap, owner.Keys, NMETA) && NMETA <= freeblock <= |bitmap|
    requires forall b :: b in owner <==> NMETA <= b < freeblock
    ensures Free(bitmap) > 0 <==> freeblock < |bitmap|
  {
    FreeNone(bitmap);
    if freeblock < |bitmap| { assert !bitmap[freeblock]; }
  }

  /** What reading a root directory of n entries may take. */
  function Spare(n: nat): nat { if n % 32 == 0 then 1 else 0 }

  /** mkfs, mount, look the k-th file up in the root directory and read it to its end: what comes out is what went in.
      It works exactly when the image has room, with one block more for the hole that mkfs may leave in the root. */
  method MakeThenRead(fssize: nat, args: seq<seq<byte>>, files: seq<seq<byte>>, k: nat)
    returns (ok: bool, data: seq<byte>)
    requires NMETA <= fssize < WORD && |args| == |files| < 198 && forall f :: f in files ==> |f| <= MAXBYTES
    requires Different(args) && k < |args|
    ensures ok <==> NMETA + Mkfs.Blocks((|args| + 2) * DIRENT) + Total(files, |files|) + Spare(|args| + 2) <= fssize
    ensures ok ==> data == files[k]
  {
    hide Owns, Dense, Mkfs.Blocks, Total, Lists, Content, D.Entries, D.Key, D.Names, BitsOk, Addr, Covered, Free, Holes;
    hide Patched, Takes, Different, NameOf;
    data := [];
    var img, bitmap;
    ok, img, bitmap := MakeDisk(fssize, args, files);
    if !ok { return; }
    var fs := new Fs(bitmap, img.inodes, img.blocks, img.owner, NMETA);
    ghost var v := fs.Now();
    RootHoles(v, |args| + 2);
    FreeWhen(bitmap, img.owner, img.freeblock);
    var r, root;
    ok, r, root := FsRead.ReadFile(fs, 1, BSIZE);
    if !ok { return; }
    var inum := LookUp(root, args, k);
    StillThere(v, fs.Now(), 1, inum, files[k]);
    ok, r, data := FsRead.ReadFile(fs, inum, BSIZE);
  }

  method LookUp(root: seq<byte>, args: seq<seq<byte>>, k: nat) returns (inum: nat)
    requires |root| % 16 == 0 && Lists(D.Entries(root), args) && Different(args) && k < |args|
    ensures k + 2 < |D.Entries(root)| && inum == D.Entries(root)[k + 2].inum != 1
  {
    ListedInums(D.Entries(root), args);
    hide D.Key, D.Names, D.Padded, Lists, NameOf;
    RootMaps(D.Entries(root), args);
    var dir := new DirCode.Inode(true, 1);
    dir.data := root;
    var found, at;
    found, inum, at := dir.DirLookup(NameOf(args[k]));
    assert Named(args, D.Key(NameOf(args[k])), k + 2);
  }

  /** mkfs of the files "a" and "_a": the root has two entries of the same name. */
  method SameNames() returns (img: Image)
    ensures 1 < |img.inodes| && img.Packed() && img.inodes[1].size <= MAXBYTES
    ensures Lists(D.Entries(Content(img.Now(), 1)), [[97], [95, 97]])
    ensures !D.NoTwice(D.Entries(Content(img.Now(), 1)))
  {
    hide Owns, Addr, Content, D.Entries, D.Key, D.Padded, Lists;
    var args: seq<seq<byte>> := [[97], [95, 97]];
    var files: seq<seq<byte>> := [[], []];
    assert Total(files, 2) == 0 by { NoTotal(files, 2); }
    hide Total;
    var ok, bitmap;
    ok, img, bitmap := MakeDisk(2500, args, files);
    assert RootName(args, 2) == RootName(args, 3) == [97];
    RootMaps(D.Entries(Content(img.Now(), 1)), args);
  }

  // ---------------------------------------------------------------- a root directory with a hole

  /** Thirty files with one-letter names. */
  function Letters(): (args: seq<seq<byte>>)
    ensures |args| == 30 && forall k :: 0 <= k < 30 ==> args[k] == [97 + k]
  {
    seq(30, k requires 0 <= k < 30 => [97 + k])
  }

  lemma LettersDiffer()
    ensures Different(Letters())
  {
    hide D.Key, D.At, RootName;
    forall j, k | 0 <= j < k < 32 ensures D.Key(RootName(Letters(), j)) != D.Key(RootName(Letters(), k)) {
      LetterAt(j);
      LetterAt(k);
      D.KeysDiffer(RootName(Letters(), j), RootName(Letters(), k), if k == 1 then 1 else 0);
    }
  }

  lemma LetterAt(k: nat)
    requires k < 32
    ensures D.At(RootName(Letters(), k), 0) == if k < 2 then 46 else 95 + k
    ensures D.At(RootName(Letters(), k), 1) == if k == 1 then 46 else 0
  {
  }

  lemma HasFree(bitmap: seq<bool>, b: nat)
    requires b < |bitmap| && !bitmap[b]
    ensures Free(bitmap) > 0
  {
    FreeNone(bitmap);
  }

  /** mkfs of thirty empty files on the usual 2500 blocks, mounted: all is in order, but the second block of the
      root directory, which its size covers, is missing. */
  method RootWithHole() returns (fs: Fs)
    ensures fresh(fs) && fs.Sound() && |fs.inodes| == 200 && fs.inodes[1].size == 1024 && fs.trace == []
    ensures Lists(D.Entries(Content(fs.Now(), 1)), Letters()) && Different(Letters())
    ensures Addr(fs.inodes, fs.blocks, Data(1, 1)) == 0 && Free(fs.bitmap) > 0
  {
    hide Owns, Addr, Content, Lists, D.Entries, Free, Different;
    var files: seq<seq<byte>> := seq(30, _ => []);
    assert Total(files, 30) == 0 by { NoTotal(files, 30); }
    hide Total;
    var ok, img, bitmap := MakeDisk(2500, Letters(), files);
    fs := new Fs(bitmap, img.inodes, img.blocks, img.owner, NMETA);
    HasFree(bitmap, 2499);
    LettersDiffer();
  }

  /** readi of the hole: zeros, as it should be, but a block is taken, log_write is called for it, and the inode
      in memory is no longer the one on the disk. */
  method ReadTakesBlock() returns (fs: Fs, dst: seq<byte>, ghost before: seq<bool>)
    ensures fresh(fs) && dst == seq(16, _ => 0) && TookSome(before, fs.bitmap, fs.trace)
    ensures fs.Structure() && !fs.Sound() && |fs.dinodes| == 200 && fs.dinodes[1].size == 1024
    ensures fs.inodes[1].size == 1024 && Hole(fs.dinodes[1]) && !Hole(fs.inodes[1])
  {
    hide Owns, Addr, Content, Lists, Different, Free, Holes, TookSome, Takes, Patched, Byte, Covered;
    fs := RootWithHole();
    before := fs.bitmap;
    ghost var v := fs.Now();
    HoleAt(v);
    var ok, r;
    ok, r, dst := fs.Readi(1, 512, 16);
    ZeroBytes(v);
    HoleTaken(v, fs.Now(), before, fs.bitmap);
  }

  /** The root directory's inode has no second block. */
  ghost predicate Hole(ip: Inode) { |ip.addrs| == NDIRECT + 1 && ip.addrs[1] == 0 }

  lemma HoleAt(v: Vol)
    requires VolOk(v) && |v.inodes| == 200 && Addr(v.inodes, v.blocks, Data(1, 1)) == 0
    ensures Hole(v.inodes[1]) && |Holes(v, 1, 512, 16)| == 1
    ensures !Covered(v, 1, 512, 16) && !AllRooted(v.inodes[1], 512, 16)
  {
    AddrsShape(v, 1);
    NeedIsHoles(v, 1, 512, 16);
    assert Spans(512, 16, 1) && SlotOk(|v.inodes|, Data(1, 1));
    assert !Rooted(v.inodes[1], 1);
  }

  lemma ZeroBytes(v: Vol)
    requires VolOk(v) && |v.inodes| == 200 && Addr(v.inodes, v.blocks, Data(1, 1)) == 0
    ensures Bytes(v, 1, 512, 16) == seq(16, _ => 0)
  {
  }

  lemma HoleTaken(v: Vol, v': Vol, b: seq<bool>, b': seq<bool>)
    requires Takes(v, v', 1, 512, 16, b, b')
    ensures 1 < |v'.inodes| && !Hole(v'.inodes[1]) && Covered(v', 1, 512, 16)
  {
    CoveredOne(v', 1, 512, 16);
    assert SlotOk(|v.inodes|, Data(1, 1)) && Slotted(Data(1, 1), 1, 512, 16);
  }

  /** The entry that dirlink then writes there is in the file as the kernel sees it, but the inode on the disk still
      has no block for it: it is gone when the inode is read again. */
  method EntryLost(entry: seq<byte>) returns (fs: Fs, ok: bool, r: int)
    requires |entry| == 16
    ensures ok && r == 16 && fs.Structure() && |fs.inodes| == |fs.dinodes| == 200
    ensures Bytes(fs.Now(), 1, 512, 16) == entry && Hole(fs.dinodes[1]) && fs.dinodes[1].size == 1024
  {
    hide Owns, Addr, Holes, Free, TookSome, Takes, Patched, Byte, Covered, AllRooted, Hole;
    var dst;
    ghost var before;
    fs, dst, before := ReadTakesBlock();
    ghost var v := fs.Now();
    TakenCovers(v);
    NothingLacks(v, 1, 512, 16);
    ghost var homes;
    ok, r, homes := fs.Writei(1, entry, 512);
    FsRead.WrittenReads(v, fs.Now(), 1, 512, entry);
  }

  lemma TakenCovers(v: Vol)
    requires VolOk(v) && 1 < |v.inodes| && !Hole(v.inodes[1])
    ensures Covered(v, 1, 512, 16)
  {
    AddrsShape(v, 1);
    CoveredOne(v, 1, 512, 16);
  }

  /** So does a write of the hole that no read precedes: iupdate is not called, and the inode on the disk stays
      behind. */
  method WriteLeavesInode(entry: seq<byte>) returns (fs: Fs, ok: bool, r: int)
    requires |entry| == 16
    ensures ok && r == 16 && fs.Structure() && !fs.Sound() && |fs.dinodes| == 200 && Hole(fs.dinodes[1])
  {
    hide Owns, Addr, Content, Lists, Different, Free, Holes, Takes, Patched, Byte, Covered, Hole;
    fs := RootWithHole();
    HoleAt(fs.Now());
    ghost var homes;
    ok, r, homes := fs.Writei(1, entry, 512);
  }
}
