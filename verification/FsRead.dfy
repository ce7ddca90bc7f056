/** A program that reads a file from its start until read returns 0. */
module FsRead {
  import opened FsModel
  import opened FsTrace
  import opened FsCode

  /** What reading the first `off` bytes of file i, in pieces, did to the volume. */
  ghost predicate Passed(v: Vol, v': Vol, i: nat, off: nat, b: seq<bool>, b': seq<bool>) {
    && Patched(v, v', i, 0, []) && v'.inodes[i].size == v.inodes[i].size && Takes(v, v', i, 0, off, b, b')
    && (Covered(v, i, 0, off) ==> v' == v && b' == b)
  }

  lemma PassedNone(v: Vol, i: nat, b: seq<bool>)
    requires VolOk(v) && i < |v.inodes|
    ensures Passed(v, v, i, 0, b, b)
  {
    PatchedSelf(v, i, 0);
    TakesNone(v, i, 0, 0, b);
  }

  lemma PassedMore(u: Vol, v: Vol, w: Vol, i: nat, off: nat, r: nat, b0: seq<bool>, b1: seq<bool>, b2: seq<bool>)
    requires Passed(u, v, i, off, b0, b1)
    requires Patched(v, w, i, off, []) && Takes(v, w, i, off, r, b1, b2)
    requires w.inodes[i].size == v.inodes[i].size && (Covered(v, i, off, r) ==> w == v && b2 == b1)
    ensures Passed(u, w, i, off + r, b0, b2)
  {
    hide Owns, Addr, Byte, Patched, Covered, Takes, Spans;
    PatchedNone(v, w, i, off, 0);
    var none: seq<byte> := [];
    assert none + none == none;
    PatchedTwice(u, v, w, i, 0, none, none);
    TakesTwice(u, v, w, i, 0, off, r, b0, b1, b2);
    TakesFree(u, v, i, 0, off, b0, b1);
    CoveredTwice(u, i, 0, off, r);
  }

  /** cat's loop over fileread, n bytes at a time: it ends, with 0 and not with an error, and has exactly the contents
      of the file, provided the disk has room for the holes that readi fills on the way. */
  method ReadFile(fs: Fs, i: nat, n: nat) returns (ok: bool, r: int, data: seq<byte>)
    requires fs.Structure() && i < |fs.inodes| && 0 < n && fs.inodes[i].size + n < WORD
    modifies fs
    ensures ok <==>
      old(fs.inodes)[i].size <= MAXBYTES && |Holes(old(fs.Now()), i, 0, old(fs.inodes)[i].size)| <= Free(old(fs.bitmap))
    ensures ok ==> r == 0 && data == Content(old(fs.Now()), i)
    ensures ok ==> fs.Structure() && Passed(old(fs.Now()), fs.Now(), i, |data|, old(fs.bitmap), fs.bitmap)
  {
    hide Owns, Byte, Patched, Effect, TookSome, Covered, Bytes, Takes, Holes, Free, AllRooted, Passed;
    ghost var v, b := fs.Now(), fs.bitmap;
    ghost var size := fs.inodes[i].size;
    PassedNone(v, i, b);
    data := [];
    var off := 0;
    while true
      invariant fs.Structure() && i < |fs.inodes| && off <= size == fs.inodes[i].size
      invariant Passed(v, fs.Now(), i, off, b, fs.bitmap)
      invariant off <= MAXBYTES && data == Bytes(v, i, 0, off)
      decreases size - off
    {
      ghost var mid, midB := fs.Now(), fs.bitmap;
      PassedParts(v, mid, i, off, b, midB);
      var dst;
      ok, r, dst := fs.Readi(i, off, n);
      if !ok {
        if off + r <= MAXBYTES { TakesFails(v, mid, i, 0, off, r, size, b, midB); }
        return;
      }
      PassedMore(v, mid, fs.Now(), i, off, r, b, midB, fs.bitmap);
      if r == 0 { break; }
      BytesTwice(v, mid, i, 0, off, r);
      data := data + dst;
      off := off + r;
    }
    BytesOfContent(v, i, 0, size);
    PassedParts(v, fs.Now(), i, off, b, fs.bitmap);
    TakesFree(v, fs.Now(), i, 0, off, b, fs.bitmap);
    assert Content(v, i)[0..size] == Content(v, i);
  }

  lemma PassedParts(v: Vol, v': Vol, i: nat, off: nat, b: seq<bool>, b': seq<bool>)
    requires Passed(v, v', i, off, b, b')
    ensures Patched(v, v', i, 0, []) && VolOk(v) && i < |v.inodes| == |v'.inodes|
    ensures v'.inodes[i].size == v.inodes[i].size && Takes(v, v', i, 0, off, b, b')
  {
  }

  /** What was written covers the range and reads back. */
  lemma WrittenReads(v: Vol, v': Vol, i: nat, off: nat, src: seq<byte>)
    requires Written(v, v', i, off, src) && off + |src| <= MAXBYTES
    ensures VolOk(v') && i < |v'.inodes| && Bytes(v', i, off, |src|) == src && Covered(v', i, off, |src|)
    ensures v'.inodes[i].size >= off + |src| || src == []
  {
    hide Addr, Byte;
    assert forall bn :: Spans(off, |src|, bn) ==> Addr(v'.inodes, v'.blocks, Data(i, bn)) != 0;
  }

  /** writei and then readi of the same range: the same bytes, and the read changes nothing. */
  method WriteThenRead(fs: Fs, i: nat, src: seq<byte>, off: nat) returns (ok: bool, dst: seq<byte>)
    requires fs.Structure() && i < |fs.inodes| && off <= fs.inodes[i].size && 0 < |src| && off + |src| <= MAXBYTES
    modifies fs
    ensures ok <==> |Holes(old(fs.Now()), i, off, |src|)| <= Free(old(fs.bitmap))
    ensures ok ==> dst == src && fs.Structure() && Written(old(fs.Now()), fs.Now(), i, off, src)
  {
    hide Owns, Patched, Effect, TookSome, Covered, Bytes, Takes, Holes, Free, AllRooted, Written;
    dst := [];
    var r;
    ghost var homes;
    ok, r, homes := fs.Writei(i, src, off);
    if !ok { return; }
    WrittenReads(old(fs.Now()), fs.Now(), i, off, src);
    NothingLacks(fs.Now(), i, off, |src|);
    ok, r, dst := fs.Readi(i, off, |src|);
  }
}
