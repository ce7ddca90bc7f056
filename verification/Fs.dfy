/** On-disk structures of fs.c: inodes with twelve direct blocks and one indirect block, block
    ownership, and the byte contents of a file. */
module FsModel {
  const BSIZE: nat := 512
  const NDIRECT: nat := 12
  const NINDIRECT: nat := 128
  const MAXFILE: nat := 140
  const WORD: nat := 0x1_0000_0000

  type byte = x: int | 0 <= x < 256
  type Block = b: seq<byte> | |b| == BSIZE witness seq(BSIZE, _ => 0)

  // ---------------------------------------------------------------- words of a block

  /** Little-endian uint k of a block, as the indirect block is read through a uint pointer. */
  function Word(b: Block, k: nat): (w: nat)
    requires k < NINDIRECT
    ensures w < WORD
  {
    b[4 * k] as int + 0x100 * b[4 * k + 1] as int + 0x1_0000 * b[4 * k + 2] as int + 0x100_0000 * b[4 * k + 3] as int
  }

  function PutWord(b: Block, k: nat, w: nat): Block
    requires k < NINDIRECT && w < WORD
  {
    b[4 * k := w % 0x100][4 * k + 1 := w / 0x100 % 0x100]
     [4 * k + 2 := w / 0x1_0000 % 0x100][4 * k + 3 := w / 0x100_0000]
  }

  function Zeros(): (b: Block)
    ensures forall k :: 0 <= k < BSIZE ==> b[k] == 0
  {
    seq(BSIZE, _ => 0)
  }

  lemma WordOfPut(b: Block, k: nat, w: nat, j: nat)
    requires k < NINDIRECT && j < NINDIRECT && w < WORD
    ensures Word(PutWord(b, k, w), j) == if j == k then w else Word(b, j)
  {
    if j == k {
      assert w == w % 0x100 + 0x100 * (w / 0x100);
      assert w / 0x100 == w / 0x100 % 0x100 + 0x100 * (w / 0x1_0000) by { assert w / 0x100 / 0x100 == w / 0x1_0000; }
      assert w / 0x1_0000 == w / 0x1_0000 % 0x100 + 0x100 * (w / 0x100_0000) by
          { assert w / 0x1_0000 / 0x100 == w / 0x100_0000; }
    }
  }

  // ---------------------------------------------------------------- inodes and block maps

  datatype Inode = Inode(typ: nat, nlink: nat, size: nat, addrs: seq<nat>)

  /** Where a block may be used: the bn-th block of a file, or its indirect block. */
  datatype Slot = Data(i: nat, bn: nat) | Ind(i: nat)

  predicate ShapeOk(inodes: seq<Inode>, blocks: seq<Block>) {
    forall i :: 0 <= i < |inodes| ==> |inodes[i].addrs| == NDIRECT + 1 && inodes[i].addrs[NDIRECT] < |blocks|
  }

  function FileBlock(ip: Inode, blocks: seq<Block>, bn: nat): nat
    requires |ip.addrs| == NDIRECT + 1 && ip.addrs[NDIRECT] < |blocks| && bn < MAXFILE
  {
    if bn < NDIRECT then ip.addrs[bn]
    else if ip.addrs[NDIRECT] == 0 then 0
    else Word(blocks[ip.addrs[NDIRECT]], bn - NDIRECT)
  }

  ghost predicate SlotOk(n: nat, s: Slot) { s.i < n && (s.Data? ==> s.bn < MAXFILE) }

  ghost function Addr(inodes: seq<Inode>, blocks: seq<Block>, s: Slot): nat
    requires ShapeOk(inodes, blocks) && SlotOk(|inodes|, s)
  {
    if s.Ind? then inodes[s.i].addrs[NDIRECT] else FileBlock(inodes[s.i], blocks, s.bn)
  }

  /** `owner` names, for every block in use, the one slot that refers to it. */
  ghost predicate Owns(inodes: seq<Inode>, blocks: seq<Block>, owner: map<nat, Slot>, nmeta: nat) {
    && 0 < nmeta && |blocks| < WORD && ShapeOk(inodes, blocks)
    && (forall b :: b in owner ==>
        nmeta <= b < |blocks| && SlotOk(|inodes|, owner[b]) && Addr(inodes, blocks, owner[b]) == b)
    && (forall s :: SlotOk(|inodes|, s) && Addr(inodes, blocks, s) != 0 ==>
          Addr(inodes, blocks, s) in owner && owner[Addr(inodes, blocks, s)] == s)
  }

  /** A set bit marks exactly the metadata blocks and the blocks in use. */
  ghost predicate BitsOk(bitmap: seq<bool>, used: set<nat>, nmeta: nat) {
    forall b :: 0 <= b < |bitmap| ==> (bitmap[b] <==> b < nmeta || b in used)
  }

  /** No block is referred to twice. */
  lemma OwnedOnce(inodes: seq<Inode>, blocks: seq<Block>, owner: map<nat, Slot>, nmeta: nat, s: Slot, t: Slot)
    requires Owns(inodes, blocks, owner, nmeta) && SlotOk(|inodes|, s) && SlotOk(|inodes|, t)
    requires Addr(inodes, blocks, s) == Addr(inodes, blocks, t) != 0
    ensures s == t
  {
  }

  // ---------------------------------------------------------------- updates

  /** Writing a block that is not an indirect block changes no block map. */
  lemma WriteData(inodes: seq<Inode>, blocks: seq<Block>, owner: map<nat, Slot>, nmeta: nat, b: nat, x: Block)
    requires Owns(inodes, blocks, owner, nmeta) && 0 < b < |blocks| && (b in owner ==> owner[b].Data?)
    ensures Owns(inodes, blocks[b := x], owner, nmeta)
    ensures forall s :: SlotOk(|inodes|, s) ==> Addr(inodes, blocks[b := x], s) == Addr(inodes, blocks, s)
  {
    forall s | SlotOk(|inodes|, s) ensures Addr(inodes, blocks[b := x], s) == Addr(inodes, blocks, s) {
      assert SlotOk(|inodes|, Ind(s.i)) && Addr(inodes, blocks, Ind(s.i)) != b;
    }
  }

  lemma AllocDirect(inodes: seq<Inode>, blocks: seq<Block>, owner: map<nat, Slot>, nmeta: nat, i: nat, bn: nat, b: nat)
    requires Owns(inodes, blocks, owner, nmeta) && nmeta <= b < |blocks| && b !in owner
    requires i < |inodes| && bn < NDIRECT && inodes[i].addrs[bn] == 0
    ensures var inodes' := inodes[i := inodes[i].(addrs := inodes[i].addrs[bn := b])];
      Owns(inodes', blocks, owner[b := Data(i, bn)], nmeta)
      && forall s :: SlotOk(|inodes|, s) ==> Addr(inodes', blocks, s) == if s == Data(i, bn) then b
          else Addr(inodes, blocks, s)
  {
  }

  lemma AllocIndirect(inodes: seq<Inode>, blocks: seq<Block>, owner: map<nat, Slot>, nmeta: nat, i: nat, b: nat)
    requires Owns(inodes, blocks, owner, nmeta) && nmeta <= b < |blocks| && b !in owner && blocks[b] == Zeros()
    requires i < |inodes| && inodes[i].addrs[NDIRECT] == 0
    ensures var inodes' := inodes[i := inodes[i].(addrs := inodes[i].addrs[NDIRECT := b])];
      Owns(inodes', blocks, owner[b := Ind(i)], nmeta)
      && forall s :: SlotOk(|inodes|, s) ==> Addr(inodes', blocks, s) == if s == Ind(i) then b
          else Addr(inodes, blocks, s)
  {
  }

  lemma AllocEntry(inodes: seq<Inode>, blocks: seq<Block>, owner: map<nat, Slot>, nmeta: nat, i: nat, k: nat, b: nat)
    requires Owns(inodes, blocks, owner, nmeta) && nmeta <= b < |blocks| && b !in owner
    requires i < |inodes| && k < NINDIRECT && inodes[i].addrs[NDIRECT] != 0
    requires Word(blocks[inodes[i].addrs[NDIRECT]], k) == 0
    ensures var a := inodes[i].addrs[NDIRECT]; var blocks' := blocks[a := PutWord(blocks[a], k, b)];
      Owns(inodes, blocks', owner[b := Data(i, NDIRECT + k)], nmeta)
      && forall s :: SlotOk(|inodes|, s) ==>
           Addr(inodes, blocks', s) == if s == Data(i, NDIRECT + k) then b else Addr(inodes, blocks, s)
  {
    var a := inodes[i].addrs[NDIRECT];
    var blocks' := blocks[a := PutWord(blocks[a], k, b)];
    forall s | SlotOk(|inodes|, s)
      ensures Addr(inodes, blocks', s) == if s == Data(i, NDIRECT + k) then b else Addr(inodes, blocks, s)
    {
      assert s.i != i ==> Addr(inodes, blocks, Ind(s.i)) != Addr(inodes, blocks, Ind(i));
      if s.Data? && s.i == i && s.bn >= NDIRECT { WordOfPut(blocks[a], k, b, s.bn - NDIRECT); }
    }
  }

  lemma FreeDirect(inodes: seq<Inode>, blocks: seq<Block>, owner: map<nat, Slot>, nmeta: nat, i: nat, k: nat)
    requires Owns(inodes, blocks, owner, nmeta) && i < |inodes| && k < NDIRECT && inodes[i].addrs[k] != 0
    ensures inodes[i].addrs[k] in owner && nmeta <= inodes[i].addrs[k] < |blocks|
    ensures forall b :: b in owner ==> (owner[b] == Data(i, k) <==> b == inodes[i].addrs[k])
    ensures var inodes' := inodes[i := inodes[i].(addrs := inodes[i].addrs[k := 0])];
      Owns(inodes', blocks, owner - {inodes[i].addrs[k]}, nmeta)
  {
    assert SlotOk(|inodes|, Data(i, k)) && Addr(inodes, blocks, Data(i, k)) == inodes[i].addrs[k];
    var inodes' := inodes[i := inodes[i].(addrs := inodes[i].addrs[k := 0])];
    assert forall s :: SlotOk(|inodes|, s) && s != Data(i, k) ==> Addr(inodes', blocks, s) == Addr(inodes, blocks, s);
  }

  /** Slots of file i reached through its indirect block. */
  ghost predicate ViaIndirect(s: Slot, i: nat) { s.i == i && (s.Ind? || s.bn >= NDIRECT) }

  ghost function WithoutIndirect(owner: map<nat, Slot>, i: nat): map<nat, Slot> {
    map b | b in owner && !ViaIndirect(owner[b], i) :: owner[b]
  }

  lemma FreeIndirect(inodes: seq<Inode>, blocks: seq<Block>, owner: map<nat, Slot>, nmeta: nat, i: nat)
    requires Owns(inodes, blocks, owner, nmeta) && i < |inodes| && inodes[i].addrs[NDIRECT] != 0
    ensures var inodes' := inodes[i := inodes[i].(addrs := inodes[i].addrs[NDIRECT := 0])];
      Owns(inodes', blocks, WithoutIndirect(owner, i), nmeta)
  {
    var inodes' := inodes[i := inodes[i].(addrs := inodes[i].addrs[NDIRECT := 0])];
    assert forall s :: SlotOk(|inodes|, s) ==>
      Addr(inodes', blocks, s) == if ViaIndirect(s, i) then 0 else Addr(inodes, blocks, s);
  }
}
