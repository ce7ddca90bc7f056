/** dirlookup, dirlink, isdirempty and sys_unlink on the bytes of a directory, and skipelem. */
module DirCode {
  import opened DirModel

  ghost predicate NoNul(s: Bytes) { forall i :: 0 <= i < |s| ==> s[i] != 0 }

  /** namecmp, which is strncmp up to 14 bytes. */
  method NameCmp(s: Bytes, t: Bytes) returns (r: int)
    ensures r == 0 <==> Key(s) == Key(t)
  {
    var i := 0;
    while i < DIRSIZ && At(s, i) != 0 && At(s, i) == At(t, i)
      invariant i <= DIRSIZ && forall k :: 0 <= k < i ==> At(s, k) == At(t, k) != 0
    {
      i := i + 1;
    }
    KeysDiffer(s, t, i);
    hide Key;
    if i == DIRSIZ { return 0; }
    return At(s, i) - At(t, i);
  }

  /** strncpy into the 14 bytes of a name field. */
  method Strncpy(t: Bytes) returns (s: Bytes)
    ensures s == Padded(t)
  {
    hide Key;
    s := [];
    KeyAt(t);
    while |s| < DIRSIZ && At(t, |s|) != 0
      invariant |s| <= DIRSIZ && forall k :: 0 <= k < |s| ==> s[k] == At(t, k) != 0
    {
      s := s + [At(t, |s|)];
    }
    ghost var n := |s|;
    assert n == |Key(t)| && s == Key(t);
    while |s| < DIRSIZ
      invariant n <= |s| <= DIRSIZ && s[..n] == Key(t) && forall k :: n <= k < |s| ==> s[k] == 0
    {
      s := s + [0];
    }
  }

  /** No entry after the first two is in use. */
  ghost predicate OnlyDots(data: Bytes) { forall j :: 2 <= j < |Entries(data)| ==> Entries(data)[j].inum == 0 }

  class Inode {
    var isDir: bool
    var nlink: int
    var data: Bytes

    /** A directory: whole entries, no name twice. */
    ghost predicate Valid() reads this { |data| % 16 == 0 && NoTwice(Entries(data)) }

    ghost function Dir(): map<Bytes, nat> reads this { Names(Entries(data)) }

    constructor (isDir: bool, nlink: int)
      ensures Valid() && Dir() == map[] && this.isDir == isDir && this.nlink == nlink && data == []
    {
      this.isDir, this.nlink, data := isDir, nlink, [];
    }

    /** dirlookup: the inode number under the name and the place of its entry. */
    method DirLookup(name: Bytes) returns (found: bool, inum: nat, k: nat)
      requires Valid()
      ensures found <==> Key(name) in Dir()
      ensures found ==>
        inum == Dir()[Key(name)] && k < |Entries(data)| && Entries(data)[k].inum != 0
        && Key(Entries(data)[k].name) == Key(name)
    {
      hide Key, Names;
      var off := 0;
      k := 0;
      while off < |data|
        invariant off == 16 * k <= |data|
        invariant forall j :: 0 <= j < k ==> Entries(data)[j].inum == 0 || Key(Entries(data)[j].name) != Key(name)
      {
        var de := Decode(data[off..off + 16]);
        assert de == Entries(data)[k];
        if de.inum != 0 {
          var c := NameCmp(name, de.name);
          if c == 0 {
            assert Maps(Entries(data), Key(name), de.inum);
            NamesIff(Entries(data), Key(name), de.inum);
            return true, de.inum, k;
          }
        }
        off, k := off + 16, k + 1;
      }
      NamesExact(Entries(data), Key(name));
      return false, 0, k;
    }

    /** The second loop of dirlink: the first free entry, or the end. */
    method FreeEntry() returns (k: nat)
      requires Valid()
      ensures k <= |Entries(data)| && (k < |Entries(data)| ==> Entries(data)[k].inum == 0)
      ensures forall j :: 0 <= j < k ==> Entries(data)[j].inum != 0
    {
      var off := 0;
      k := 0;
      while off < |data|
        invariant off == 16 * k <= |data| && forall j :: 0 <= j < k ==> Entries(data)[j].inum != 0
      {
        var de := Decode(data[off..off + 16]);
        assert de == Entries(data)[k];
        if de.inum == 0 { break; }
        off, k := off + 16, k + 1;
      }
    }

    /** dirlink: adds the name, unless it is there.  Only 16 bits of the inode number are kept; if they are
        all zero, dirlink reports success and the entry is a free one. */
    method DirLink(name: Bytes, inum: nat) returns (r: int)
      requires Valid()
      modifies this`data
      ensures Valid()
      ensures old(Key(name) in Dir()) ==> r == -1 && data == old(data)
      ensures !old(Key(name) in Dir()) ==>
        r == 0 && Dir() == if inum % USHORT == 0 then old(Dir()) else old(Dir())[Key(name) := inum % USHORT]
      ensures (exists k :: 0 <= k < |Entries(old(data))| && Entries(old(data))[k].inum == 0) ==> |data| == |old(data)|
    {
      hide Key, Names, NoTwice;
      var found, i, k0 := DirLookup(name);
      if found { return -1; }
      var k := FreeEntry();
      var field := Strncpy(name);
      PaddedKey(name);
      var de := [inum % 256, inum / 256 % 256] + field;
      assert Decode(de) == Dirent(inum % USHORT, field) by { assert de[2..] == field; Halves(inum); }
      PutEntries(data, k, de);
      LinkAdds(Entries(data), k, Decode(de));
      data := Put(data, k, de);
      return 0;
    }

    /** writei of a zeroed entry over entry k. */
    method ClearEntry(k: nat)
      requires Valid() && k < |Entries(data)| && Entries(data)[k].inum != 0
      modifies this`data
      ensures Valid() && |data| == |old(data)|
      ensures Dir() == old(Dir()) - {Key(old(Entries(data))[k].name)}
    {
      hide Key, Names, NoTwice;
      var de: Bytes := seq(16, i => 0);
      PutEntries(data, k, de);
      UnlinkRemoves(Entries(data), k, Decode(de));
      data := Put(data, k, de);
    }

    /** isdirempty: nothing but the first two entries. */
    method IsDirEmpty() returns (r: bool)
      requires Valid()
      ensures r <==> OnlyDots(data)
    {
      var off, k := 32, 2;
      while off < |data|
        invariant off == 16 * k && forall j :: 2 <= j < k && j < |Entries(data)| ==> Entries(data)[j].inum == 0
      {
        var de := Decode(data[off..off + 16]);
        assert de == Entries(data)[k];
        if de.inum != 0 { return false; }
        off, k := off + 16, k + 1;
      }
      return true;
    }
  }

  /** dirlink of inode 65536 under the name "a": success, and no entry. */
  method LinkOfNothing() returns (dp: Inode, r: int)
    ensures r == 0 && dp.Valid() && dp.Dir() == map[]
  {
    dp := new Inode(true, 1);
    r := dp.DirLink([97], 0x1_0000);
  }

  const DOT: Bytes := [46]
  const DOTDOT: Bytes := [46, 46]

  /** The body of sys_unlink, once the path has led to directory dp and the name; `inodes` are the inodes that
      iget finds by number. */
  method Unlink(dp: Inode, inodes: map<nat, Inode>, name: Bytes) returns (r: int, ghost ip: Inode)
    requires dp.Valid()
    requires Key(name) in dp.Dir() && Key(name) != Key(DOT) && Key(name) != Key(DOTDOT) ==>
      Unlinkable(dp, inodes, dp.Dir()[Key(name)])
    modifies dp, inodes.Values
    ensures dp.Valid()
    ensures r == 0 || r == -1
    ensures r == 0 <==> && Key(name) != Key(DOT) && Key(name) != Key(DOTDOT) && old(Key(name) in dp.Dir())
                        && (ip.isDir ==> OnlyDots(ip.data))
    ensures Key(name) != Key(DOT) && Key(name) != Key(DOTDOT) && old(Key(name) in dp.Dir()) ==>
      old(dp.Dir()[Key(name)]) in inodes && ip == inodes[old(dp.Dir()[Key(name)])] != dp
    ensures r == 0 ==> dp.Dir() == old(dp.Dir()) - {Key(name)} && |dp.data| == |old(dp.data)|
    ensures r == 0 ==> ip.nlink == old(ip.nlink) - 1 && dp.nlink == old(dp.nlink) - if ip.isDir then 1 else 0
    ensures r == 0 ==> forall x :: x in inodes.Values + {dp} ==>
      x.isDir == old(x.isDir) && (x != dp ==> x.data == old(x.data)) && (x != dp && x != ip ==> x.nlink == old(x.nlink))
    ensures r != 0 ==> unchanged(dp) && unchanged(inodes.Values)
  {
    hide Key, Names, NoTwice, OnlyDots;
    ip := dp;
    var c := NameCmp(name, DOT);
    var d := NameCmp(name, DOTDOT);
    if c == 0 || d == 0 { return -1, ip; }
    var found, inum, k := dp.DirLookup(name);
    if !found { return -1, ip; }
    var target := inodes[inum];
    ip := target;
    assert target in inodes.Values;
    if target.isDir {
      var empty := target.IsDirEmpty();
      if !empty { return -1, ip; }
    }
    dp.ClearEntry(k);
    if target.isDir { dp.nlink := dp.nlink - 1; }
    target.nlink := target.nlink - 1;
    return 0, ip;
  }

  /** Entry `inum` of dp leads to an inode other than dp (only "." leads back) that still counts a link, as the
      panics of the source demand. */
  ghost predicate Unlinkable(dp: Inode, inodes: map<nat, Inode>, inum: nat)
    reads inodes.Values
  {
    inum in inodes && inodes[inum] in inodes.Values && inodes[inum] != dp
    && inodes[inum].nlink >= 1 && (inodes[inum].isDir ==> inodes[inum].Valid())
  }

  // ---------------------------------------------------------------- paths

  method SkipSlashes(path: Bytes, i: nat) returns (j: nat)
    requires i <= |path|
    ensures i <= j <= |path| && (j < |path| ==> path[j] != SLASH) && Fields(path[j..], []) == Fields(path[i..], [])
  {
    hide Fields;
    j := i;
    while At(path, j) == SLASH
      invariant i <= j <= |path| && Fields(path[j..], []) == Fields(path[i..], [])
      decreases |path| - j
    {
      FieldsSlash(path, j);
      j := j + 1;
    }
  }

  /** skipelem: the next part of the path, cut to 14 bytes, in the name buffer, and where the one after it starts. */
  method Skipelem(path: Bytes, i: nat, name: array<nat>) returns (found: bool, j: nat, ghost part: Bytes)
    requires i <= |path| && NoNul(path) && name.Length == DIRSIZ
    modifies name
    ensures i <= j <= |path| && (found ==> i < j)
    ensures !found ==> Fields(path[i..], []) == []
    ensures found ==> Fields(path[i..], []) == [part] + Fields(path[j..], []) && Key(name[..]) == Short(part)
  {
    hide Fields, Key;
    j := SkipSlashes(path, i);
    part := [];
    if At(path, j) == 0 {
      FieldsNone(path);
      return false, j, part;
    }
    var s := j;
    while At(path, j) != SLASH && At(path, j) != 0
      invariant s <= j <= |path| && part == path[s..j] && Fields(path[j..], part) == Fields(path[i..], [])
      decreases |path| - j
    {
      FieldsByte(path, j, part);
      assert path[s..j + 1] == part + [path[j]];
      j := j + 1;
      part := path[s..j];
    }
    FieldsEnd(path, j, part);
    var len := j - s;
    CopyName(path, s, len, name);
    var e := SkipSlashes(path, j);
    j := e;
    found := true;
  }

  lemma FieldsNone(path: Bytes)
    ensures Fields(path[|path|..], []) == []
  {
  }

  /** The two memmove calls of skipelem. */
  method CopyName(path: Bytes, s: nat, len: nat, name: array<nat>)
    requires s + len <= |path| && NoNul(path) && name.Length == DIRSIZ
    modifies name
    ensures Key(name[..]) == Short(path[s..s + len])
  {
    var n := if len >= DIRSIZ then DIRSIZ else len;
    var k := 0;
    while k < n
      invariant k <= n && forall m :: 0 <= m < k ==> name[m] == path[s + m]
    {
      name[k] := path[s + k];
      k := k + 1;
    }
    if len < DIRSIZ { name[len] := 0; }
    KeyIs(name[..], path[s..s + n]);
    hide Key;
    assert Short(path[s..s + len]) == path[s..s + n];
  }

  /** The bytes of the name buffer up to a NUL. */
  method ReadName(name: array<nat>) returns (r: Bytes)
    requires name.Length == DIRSIZ
    ensures r == Key(name[..])
  {
    r := [];
    while |r| < DIRSIZ && name[|r|] != 0
      invariant |r| <= DIRSIZ && forall k :: 0 <= k < |r| ==> r[k] == name[k] != 0
    {
      r := r + [name[|r|]];
    }
    KeyIs(name[..], r);
  }

  /** The loop of namex over a path: it sees exactly the non-empty parts, cut to 14 bytes. */
  method Elements(path: Bytes) returns (names: seq<Bytes>)
    requires NoNul(path)
    ensures names == Shorts(Fields(path, []))
  {
    hide Fields, Key;
    var name := new nat[DIRSIZ];
    names := [];
    ghost var parts: seq<Bytes> := [];
    var found, i := true, 0;
    assert path[0..] == path;
    while found
      invariant i <= |path| && names == Shorts(parts)
        && Fields(path, []) == parts + (if found then Fields(path[i..], []) else [])
      decreases found, |path| - i
    {
      ghost var part;
      found, i, part := Skipelem(path, i, name);
      if found {
        var n := ReadName(name);
        names, parts := names + [n], parts + [part];
      }
    }
  }

  lemma Halves(inum: nat)
    ensures inum % 256 + 256 * (inum / 256 % 256) == inum % USHORT
  {
  }
}
