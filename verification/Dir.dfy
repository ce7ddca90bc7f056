/** Directories as files of 16-byte entries (fs.c, sysfile.c), and path splitting. */
module DirModel {
  const DIRSIZ: nat := 14
  const USHORT: nat := 0x1_0000
  const SLASH: nat := 47

  type Bytes = seq<nat>

  // ---------------------------------------------------------------- names

  /** Byte i of a C string or of a name field: NUL from its end on. */
  function At(s: Bytes, i: nat): nat { if i < |s| then s[i] else 0 }

  /** The name that s stands for from place i on: up to a NUL, and no further than n bytes. */
  ghost function KeyFrom(s: Bytes, i: nat, n: nat): (r: Bytes)
    ensures |r| <= n && (forall k :: 0 <= k < |r| ==> r[k] == At(s, i + k) != 0) && (|r| < n ==> At(s, i + |r|) == 0)
    decreases n
  {
    if n == 0 || At(s, i) == 0 then [] else [s[i]] + KeyFrom(s, i + 1, n - 1)
  }

  /** The name cut to 14 bytes. */
  ghost function Key(s: Bytes): Bytes { KeyFrom(s, 0, DIRSIZ) }

  /** Where two names first differ, or one of them ends, decides whether they are the same name. */
  lemma KeysDiffer(s: Bytes, t: Bytes, i: nat)
    requires i <= DIRSIZ && forall k :: 0 <= k < i ==> At(s, k) == At(t, k) != 0
    ensures i == DIRSIZ ==> Key(s) == Key(t)
    ensures i < DIRSIZ && (At(s, i) == 0 || At(s, i) != At(t, i)) ==> (Key(s) == Key(t) <==> At(s, i) == At(t, i))
  {
    KeyAt(s);
    KeyAt(t);
    hide Key;
  }

  lemma KeyAt(s: Bytes)
    ensures |Key(s)| <= DIRSIZ && (forall k :: 0 <= k < |Key(s)| ==> Key(s)[k] == At(s, k) != 0)
      && (|Key(s)| < DIRSIZ ==> At(s, |Key(s)|) == 0)
  {
    assert forall k :: 0 <= k < |Key(s)| ==> At(s, 0 + k) == At(s, k);
  }

  // ---------------------------------------------------------------- entries

  datatype Dirent = Dirent(inum: nat, name: Bytes)

  /** The bytes of one entry. */
  function Decode(e: Bytes): Dirent
    requires |e| == 16
  {
    Dirent(e[0] + 256 * e[1], e[2..])
  }

  /** Entry k of the directory's bytes. */
  function EntryAt(data: Bytes, k: nat): Bytes
    requires 16 * k + 16 <= |data|
  {
    data[16 * k..16 * k + 16]
  }

  ghost function Entries(data: Bytes): (r: seq<Dirent>)
    ensures |r| == |data| / 16 && forall k :: 0 <= k < |r| ==> r[k] == Decode(EntryAt(data, k))
  {
    seq(|data| / 16, k requires 0 <= k < |data| / 16 => Decode(EntryAt(data, k)))
  }

  /** No name twice among the entries in use. */
  ghost predicate NoTwice(es: seq<Dirent>) {
    forall j, k :: 0 <= j < k < |es| && es[j].inum != 0 && es[k].inum != 0 ==> Key(es[j].name) != Key(es[k].name)
  }

  /** The directory as a map from names to inode numbers. */
  ghost function Names(es: seq<Dirent>): map<Bytes, nat> {
    if es == [] then map[] else
      var m, e := Names(es[..|es| - 1]), es[|es| - 1];
      if e.inum == 0 then m else m[Key(e.name) := e.inum]
  }

  ghost predicate Maps(es: seq<Dirent>, name: Bytes, inum: nat) {
    exists k :: 0 <= k < |es| && es[k].inum == inum != 0 && Key(es[k].name) == name
  }

  lemma MapsLast(es: seq<Dirent>, name: Bytes, inum: nat)
    requires es != []
    ensures (var rest, e := es[..|es| - 1], es[|es| - 1];
      Maps(es, name, inum) <==> Maps(rest, name, inum) || (e.inum == inum != 0 && Key(e.name) == name))
  {
    hide Key;
    var rest, e := es[..|es| - 1], es[|es| - 1];
    if Maps(rest, name, inum) {
      var k :| 0 <= k < |rest| && rest[k].inum == inum != 0 && Key(rest[k].name) == name;
      assert es[k] == rest[k];
    }
    if Maps(es, name, inum) {
      var k :| 0 <= k < |es| && es[k].inum == inum != 0 && Key(es[k].name) == name;
      if k < |rest| { assert rest[k] == es[k]; }
    }
  }

  lemma LastNotBefore(es: seq<Dirent>, inum: nat)
    requires NoTwice(es) && es != [] && es[|es| - 1].inum != 0
    ensures !Maps(es[..|es| - 1], Key(es[|es| - 1].name), inum)
  {
  }

  /** Without duplicates, the map is exactly what the entries in use say. */
  lemma {:induction false} NamesExact(es: seq<Dirent>, name: Bytes)
    requires NoTwice(es)
    ensures name in Names(es) <==> exists inum :: Maps(es, name, inum)
    ensures forall inum :: Maps(es, name, inum) ==> Names(es)[name] == inum
    decreases |es|
  {
    if es == [] {
      assert Names(es) == map[] && forall inum :: !Maps(es, name, inum);
    } else {
      var rest, e := es[..|es| - 1], es[|es| - 1];
      NamesExact(rest, name);
      forall inum ensures Maps(es, name, inum) <==>
          Maps(rest, name, inum) || (e.inum == inum != 0 && Key(e.name) == name) {
        MapsLast(es, name, inum);
      }
      hide Maps, Key;
      if e.inum != 0 && Key(e.name) == name {
        forall inum ensures !Maps(rest, name, inum) { LastNotBefore(es, inum); }
        assert Maps(es, name, e.inum);
      }
    }
  }

  // ---------------------------------------------------------------- what the updates do to the map

  lemma SameNames(es': seq<Dirent>, m: map<Bytes, nat>)
    requires NoTwice(es') && (forall name, inum :: Maps(es', name, inum) <==> name in m && m[name] == inum)
    ensures Names(es') == m
  {
    forall name ensures name in Names(es') <==> name in m {
      NamesExact(es', name);
      if name in m { assert Maps(es', name, m[name]); }
    }
    forall name | name in m ensures Names(es')[name] == m[name] {
      NamesExact(es', name);
      assert Maps(es', name, m[name]);
    }
  }

  lemma NamesIff(es: seq<Dirent>, name: Bytes, inum: nat)
    requires NoTwice(es)
    ensures Maps(es, name, inum) <==> name in Names(es) && Names(es)[name] == inum
  {
    NamesExact(es, name);
    if name in Names(es) { var i :| Maps(es, name, i); }
  }

  /** A new name goes into a free entry, or into a new one at the end; with inode number 0 it is not there. */
  lemma LinkAdds(es: seq<Dirent>, k: nat, e: Dirent)
    requires NoTwice(es) && k <= |es| && (k < |es| ==> es[k].inum == 0) && Key(e.name) !in Names(es)
    ensures (var es' := if k < |es| then es[k := e] else es + [e];
      NoTwice(es') && Names(es') == if e.inum == 0 then Names(es) else Names(es)[Key(e.name) := e.inum])
  {
    hide Key, Names;
    var es' := if k < |es| then es[k := e] else es + [e];
    var m := if e.inum == 0 then Names(es) else Names(es)[Key(e.name) := e.inum];
    forall j | 0 <= j < |es| && es[j].inum != 0 ensures Key(es[j].name) != Key(e.name) {
      NamesIff(es, Key(es[j].name), es[j].inum);
      assert Maps(es, Key(es[j].name), es[j].inum);
    }
    assert NoTwice(es');
    forall name, inum ensures Maps(es', name, inum) <==> name in m && m[name] == inum {
      NamesIff(es, name, inum);
      if Maps(es, name, inum) {
        var j :| 0 <= j < |es| && es[j].inum == inum != 0 && Key(es[j].name) == name;
        assert es'[j] == es[j];
      }
      assert es'[k] == e;
      if Maps(es', name, inum) && (name != Key(e.name) || e.inum == 0) {
        var j :| 0 <= j < |es'| && es'[j].inum == inum != 0 && Key(es'[j].name) == name;
        assert j != k && es[j] == es'[j];
      }
    }
    SameNames(es', m);
  }

  /** Clearing an entry takes exactly its name away. */
  lemma UnlinkRemoves(es: seq<Dirent>, k: nat, e: Dirent)
    requires NoTwice(es) && k < |es| && es[k].inum != 0 && e.inum == 0
    ensures NoTwice(es[k := e]) && Names(es[k := e]) == Names(es) - {Key(es[k].name)} && Key(es[k].name) in Names(es)
  {
    hide Key, Names;
    var es' := es[k := e];
    var m := Names(es) - {Key(es[k].name)};
    NamesIff(es, Key(es[k].name), es[k].inum);
    assert Maps(es, Key(es[k].name), es[k].inum);
    forall name, inum ensures Maps(es', name, inum) <==> name in m && m[name] == inum {
      NamesIff(es, name, inum);
      if Maps(es', name, inum) {
        var j :| 0 <= j < |es'| && es'[j].inum == inum != 0 && Key(es'[j].name) == name;
        assert j != k && es[j] == es'[j] && Key(es[j].name) != Key(es[k].name);
      }
      if name in m && m[name] == inum {
        var j :| 0 <= j < |es| && es[j].inum == inum != 0 && Key(es[j].name) == name;
        assert es'[j] == es[j];
      }
    }
    SameNames(es', m);
  }

  // ---------------------------------------------------------------- bytes

  /** writei of one entry at place k, which may be the place just after the last. */
  function Put(data: Bytes, k: nat, e: Bytes): Bytes
    requires 16 * k <= |data| && |data| % 16 == 0 && |e| == 16
  {
    data[..16 * k] + e + if 16 * k + 16 <= |data| then data[16 * k + 16..] else []
  }

  lemma PutEntries(data: Bytes, k: nat, e: Bytes)
    requires 16 * k <= |data| && |data| % 16 == 0 && |e| == 16
    ensures |Put(data, k, e)| % 16 == 0
    ensures Entries(Put(data, k, e)) == if k < |Entries(data)| then Entries(data)[k := Decode(e)]
      else Entries(data) + [Decode(e)]
  {
    var d := Put(data, k, e);
    forall j | 0 <= j < |Entries(d)| ensures EntryAt(d, j) == if j == k then e else EntryAt(data, j) {}
  }

  /** strncpy to a name field. */
  ghost function Padded(name: Bytes): Bytes { Key(name) + seq(14 - |Key(name)|, i => 0) }

  /** A name is known by its bytes and by where it ends. */
  lemma KeyIs(s: Bytes, key: Bytes)
    requires |key| <= DIRSIZ && (forall k :: 0 <= k < |key| ==> At(s, k) == key[k] != 0)
      && (|key| < DIRSIZ ==> At(s, |key|) == 0)
    ensures Key(s) == key
  {
    KeyAt(s);
    hide Key;
    assert |Key(s)| == |key|;
  }

  lemma PaddedKey(name: Bytes)
    ensures |Padded(name)| == 14 && Key(Padded(name)) == Key(name)
  {
    KeyAt(name);
    hide Key;
    var p := Padded(name);
    assert forall k :: 0 <= k < |Key(name)| ==> At(p, k) == Key(name)[k];
    KeyIs(p, Key(name));
  }

  // ---------------------------------------------------------------- paths

  /** The non-empty parts of a path between slashes, the part `cur` having been read. */
  ghost function Fields(path: Bytes, cur: Bytes): seq<Bytes>
    decreases |path|
  {
    if path == [] then (if cur == [] then [] else [cur])
    else if path[0] == SLASH then (if cur == [] then [] else [cur]) + Fields(path[1..], [])
    else Fields(path[1..], cur + [path[0]])
  }

  /** Cut to 14 bytes. */
  ghost function Short(c: Bytes): Bytes { if |c| <= DIRSIZ then c else c[..DIRSIZ] }

  ghost function Shorts(cs: seq<Bytes>): (r: seq<Bytes>)
    ensures |r| == |cs| && forall i :: 0 <= i < |cs| ==> r[i] == Short(cs[i])
  {
    seq(|cs|, i requires 0 <= i < |cs| => Short(cs[i]))
  }

  /** A path with these parts. */
  ghost function JoinPath(parts: seq<Bytes>): Bytes {
    if parts == [] then [] else [SLASH] + parts[0] + JoinPath(parts[1..])
  }

  ghost predicate IsPart(c: Bytes) { c != [] && SLASH !in c }

  lemma {:induction false} FieldsWord(c: Bytes, cur: Bytes, rest: Bytes)
    requires SLASH !in c
    ensures Fields(c + rest, cur) == Fields(rest, cur + c)
    decreases |c|
  {
    if c == [] {
      assert c + rest == rest && cur + c == cur;
    } else {
      FieldsWord(c[1..], cur + [c[0]], rest);
      assert (c + rest)[1..] == c[1..] + rest && (cur + [c[0]]) + c[1..] == cur + c;
    }
  }

  /** Splitting a path undoes joining its parts. */
  lemma {:induction false} FieldsOfJoin(parts: seq<Bytes>, cur: Bytes)
    requires forall c :: c in parts ==> IsPart(c)
    ensures Fields(JoinPath(parts), cur) == (if cur == [] then [] else [cur]) + parts
    decreases |parts|
  {
    if parts != [] {
      var rest := JoinPath(parts[1..]);
      assert JoinPath(parts)[1..] == parts[0] + rest;
      assert IsPart(parts[0]) && forall c :: c in parts[1..] ==> c in parts;
      FieldsWord(parts[0], [], rest);
      assert [] + parts[0] == parts[0];
      FieldsOfJoin(parts[1..], parts[0]);
    }
  }

  /** Every part is non-empty and without a slash. */
  lemma {:induction false} FieldsAreParts(path: Bytes, cur: Bytes)
    requires SLASH !in cur
    ensures forall c :: c in Fields(path, cur) ==> IsPart(c)
    decreases |path|
  {
    if path != [] {
      if path[0] == SLASH { FieldsAreParts(path[1..], []); } else { FieldsAreParts(path[1..], cur + [path[0]]); }
    }
  }

  lemma FieldsSlash(path: Bytes, i: nat)
    requires i < |path| && path[i] == SLASH
    ensures Fields(path[i..], []) == Fields(path[i + 1..], [])
  {
    assert path[i..][1..] == path[i + 1..];
    assert [] + Fields(path[i + 1..], []) == Fields(path[i + 1..], []);
  }

  lemma FieldsByte(path: Bytes, i: nat, cur: Bytes)
    requires i < |path| && path[i] != SLASH
    ensures Fields(path[i..], cur) == Fields(path[i + 1..], cur + [path[i]])
  {
    assert path[i..][1..] == path[i + 1..];
  }

  lemma FieldsEnd(path: Bytes, i: nat, cur: Bytes)
    requires i <= |path| && (i < |path| ==> path[i] == SLASH) && cur != []
    ensures Fields(path[i..], cur) == [cur] + Fields(path[i..], [])
  {
    if i < |path| {
      assert path[i..][1..] == path[i + 1..];
      assert [] + Fields(path[i + 1..], []) == Fields(path[i + 1..], []);
    }
  }
}
