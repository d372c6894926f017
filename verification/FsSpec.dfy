/** Blocks of files (fs.c): the free map, ownership, contents. */
module FsSpec {
  import opened Blocks

  const NDIRECT: nat := 12
  const NINDIRECT: nat := 128
  const MAXFILE: nat := 140            // NDIRECT + NINDIRECT
  const MAXBYTES: nat := 71680         // MAXFILE * BSIZE
  /** Slots of an inode: 12 direct pointers, the indirect pointer, the indirect block's entries. */
  const NSLOTS: nat := 141
  const INODES_PER_BLOCK: nat := 8

  datatype Inode = Inode(size: uint, addrs: seq<uint>)

  datatype Sb = Sb(size: nat, ninodes: nat, inodestart: nat, bmapstart: nat) {
    predicate Valid() {
      inodestart + ninodes / INODES_PER_BLOCK + 1 <= bmapstart && DataStart() <= size < 0x8000_0000
    }
    /** Blocks below this are metadata. */
    function DataStart(): nat { bmapstart + size / BPB + 1 }
    function MapBlock(b: nat): nat { b / BPB + bmapstart }
    function InodeBlock(i: nat): nat { i / INODES_PER_BLOCK + inodestart }
  }

  /** `view` is the blocks as bread returns them, `inodes` the in-memory inodes. */
  datatype Fsys = Fsys(view: seq<Block>, inodes: seq<Inode>)

  ghost predicate Shape(sb: Sb, s: Fsys) {
    && sb.Valid() && |s.view| == sb.size && |s.inodes| == sb.ninodes
    && (forall i :: 0 <= i < |s.inodes| ==> |s.inodes[i].addrs| == NDIRECT + 1)
  }

  predicate Used(sb: Sb, view: seq<Block>, b: nat)
    requires sb.Valid() && |view| == sb.size && b < sb.size
  {
    Bit(view[sb.MapBlock(b)], b % BPB)
  }

  /** The block number in slot `j` of inode `i`, 0 for none. */
  function Ref(sb: Sb, s: Fsys, i: nat, j: nat): uint
    requires Shape(sb, s) && i < sb.ninodes && j < NSLOTS
  {
    var a := s.inodes[i].addrs;
    if j <= NDIRECT then a[j]
    else if 0 < a[NDIRECT] < sb.size then Word(s.view[a[NDIRECT]], j - NDIRECT - 1)
    else 0
  }

  /** The slot holding the address of block `bn` of a file. */
  function SlotOf(bn: nat): nat { if bn < NDIRECT then bn else bn + 1 }

  function FileByte(sb: Sb, s: Fsys, i: nat, k: nat): byte
    requires Shape(sb, s) && i < sb.ninodes && k < MAXBYTES
  {
    var e := Ref(sb, s, i, SlotOf(k / BSIZE));
    if 0 < e < sb.size then s.view[e][k % BSIZE] else 0
  }

  /** The first `n` bytes of a file. */
  function Bytes(sb: Sb, s: Fsys, i: nat, n: nat): seq<byte>
    requires Shape(sb, s) && i < sb.ninodes && n <= MAXBYTES
  {
    seq(n, k requires 0 <= k < n => FileByte(sb, s, i, k))
  }

  function Content(sb: Sb, s: Fsys, i: nat): (c: seq<byte>)
    requires Shape(sb, s) && i < sb.ninodes && s.inodes[i].size <= MAXBYTES
    ensures |c| == s.inodes[i].size
  {
    Bytes(sb, s, i, s.inodes[i].size)
  }

  function CeilDiv(n: nat): nat { (n + BSIZE - 1) / BSIZE }

  /** The file has blocks 0..nb and no others, and an indirect block just when it needs one. */
  ghost predicate HasBlocks(sb: Sb, s: Fsys, i: nat, nb: nat)
    requires Shape(sb, s) && i < sb.ninodes
  {
    && nb <= MAXFILE
    && (forall bn :: 0 <= bn < MAXFILE ==> (Ref(sb, s, i, SlotOf(bn)) != 0 <==> bn < nb))
    && (Ref(sb, s, i, NDIRECT) != 0 <==> nb > NDIRECT)
  }

  /** No holes, nothing past the end. */
  ghost predicate WellFormed(sb: Sb, s: Fsys, i: nat)
    requires Shape(sb, s) && i < sb.ninodes
    ensures WellFormed(sb, s, i) ==> s.inodes[i].size <= MAXBYTES
  {
    s.inodes[i].size <= MAXBYTES && HasBlocks(sb, s, i, CeilDiv(s.inodes[i].size))
  }

  type Owner = map<nat, (nat, nat)>

  ghost predicate SlotOwned(sb: Sb, s: Fsys, owner: Owner, i: nat, j: nat)
    requires Shape(sb, s) && i < sb.ninodes && j < NSLOTS
  {
    var b := Ref(sb, s, i, j); b != 0 ==> b in owner && owner[b] == (i, j)
  }

  ghost predicate BlockOwned(sb: Sb, s: Fsys, b: nat, slot: (nat, nat))
    requires Shape(sb, s)
  {
    sb.DataStart() <= b < sb.size && slot.0 < sb.ninodes && slot.1 < NSLOTS && Ref(sb, s, slot.0, slot.1) == b
  }

  /** `owner` names the one slot referring to each block that some slot refers to. */
  ghost predicate RefsOwned(sb: Sb, s: Fsys, owner: Owner)
    ensures RefsOwned(sb, s, owner) ==> Shape(sb, s)
  {
    && Shape(sb, s)
    && (forall i, j :: 0 <= i < sb.ninodes && 0 <= j < NSLOTS ==> SlotOwned(sb, s, owner, i, j))
    && (forall b :: b in owner ==> BlockOwned(sb, s, b, owner[b]))
  }

  /** The free map marks metadata and the owned blocks. */
  ghost predicate MapIs(sb: Sb, view: seq<Block>, owner: Owner) {
    && sb.Valid() && |view| == sb.size
    && forall b :: 0 <= b < sb.size ==> (Used(sb, view, b) <==> b < sb.DataStart() || b in owner)
  }

  ghost predicate Owned(sb: Sb, s: Fsys, owner: Owner)
    ensures Owned(sb, s, owner) ==> Shape(sb, s) && RefsOwned(sb, s, owner) && MapIs(sb, s.view, owner)
  {
    RefsOwned(sb, s, owner) && MapIs(sb, s.view, owner)
  }

  /** A slot in use holds a data block's number. */
  lemma RefInRange(sb: Sb, s: Fsys, owner: Owner, i: nat, j: nat)
    requires RefsOwned(sb, s, owner) && i < sb.ninodes && j < NSLOTS && Ref(sb, s, i, j) != 0
    ensures sb.DataStart() <= Ref(sb, s, i, j) < sb.size && Ref(sb, s, i, j) in owner
  {
    var b := Ref(sb, s, i, j);
    assert SlotOwned(sb, s, owner, i, j) && BlockOwned(sb, s, b, owner[b]);
  }

  /** Block ownership: a bit of the free map is set exactly for metadata and for blocks some slot
      refers to, and no two slots refer to the same block. */
  lemma OwnershipMeans(sb: Sb, s: Fsys, owner: Owner)
    requires Owned(sb, s, owner)
    ensures forall b :: 0 <= b < sb.size ==>
      (Used(sb, s.view, b) <==>
        b < sb.DataStart() || exists i, j :: 0 <= i < sb.ninodes && 0 <= j < NSLOTS && Ref(sb, s, i, j) == b)
    ensures forall i, j, k, l | 0 <= i < sb.ninodes && 0 <= j < NSLOTS && 0 <= k < sb.ninodes && 0 <= l < NSLOTS ::
      Ref(sb, s, i, j) == Ref(sb, s, k, l) != 0 ==> i == k && j == l
  {
    forall b | 0 <= b < sb.size
      ensures Used(sb, s.view, b) <==>
        b < sb.DataStart() || exists i, j :: 0 <= i < sb.ninodes && 0 <= j < NSLOTS && Ref(sb, s, i, j) == b
    {
      if b in owner { assert BlockOwned(sb, s, b, owner[b]); }
      if i, j :| 0 <= i < sb.ninodes && 0 <= j < NSLOTS && Ref(sb, s, i, j) == b {
        assert SlotOwned(sb, s, owner, i, j);
      }
    }
    forall i, j, k, l | 0 <= i < sb.ninodes && 0 <= j < NSLOTS && 0 <= k < sb.ninodes && 0 <= l < NSLOTS
      && Ref(sb, s, i, j) == Ref(sb, s, k, l) != 0
      ensures i == k && j == l
    {
      assert SlotOwned(sb, s, owner, i, j) && SlotOwned(sb, s, owner, k, l);
    }
  }

  // ----- elementary changes -----

  function PutUsed(sb: Sb, view: seq<Block>, b: nat, on: bool): (r: seq<Block>)
    requires sb.Valid() && |view| == sb.size && b < sb.size
    ensures |r| == |view|
  {
    view[sb.MapBlock(b) := PutBit(view[sb.MapBlock(b)], b % BPB, on)]
  }

  /** balloc's effect: the block's bit set, the block zeroed. */
  function Alloc(sb: Sb, view: seq<Block>, b: nat): seq<Block>
    requires sb.Valid() && |view| == sb.size && b < sb.size
  {
    PutUsed(sb, view, b, true)[b := ZeroBlock()]
  }

  lemma UsedAfterPut(sb: Sb, view: seq<Block>, b: nat, on: bool, c: nat)
    requires sb.Valid() && |view| == sb.size && b < sb.size && c < sb.size
    ensures Used(sb, PutUsed(sb, view, b, on), c) == if c == b then on else Used(sb, view, c)
  {
    BitOfPutBit(view[sb.MapBlock(b)], b % BPB, on, c % BPB);
  }

  lemma SameMap(sb: Sb, v: seq<Block>, w: seq<Block>, owner: Owner)
    requires MapIs(sb, v, owner) && |w| == sb.size
    requires forall m :: 0 <= m < sb.DataStart() ==> w[m] == v[m]
    ensures MapIs(sb, w, owner)
  {
    forall b | 0 <= b < sb.size ensures Used(sb, w, b) <==> Used(sb, v, b) {
      assert w[sb.MapBlock(b)] == v[sb.MapBlock(b)];
    }
  }

  lemma MapAfterAlloc(sb: Sb, view: seq<Block>, owner: Owner, b: nat, slot: (nat, nat))
    requires MapIs(sb, view, owner) && sb.DataStart() <= b < sb.size
    ensures MapIs(sb, Alloc(sb, view, b), owner[b := slot])
  {
    var v := PutUsed(sb, view, b, true);
    forall c | 0 <= c < sb.size ensures Used(sb, v, c) <==> c < sb.DataStart() || c in owner[b := slot] {
      UsedAfterPut(sb, view, b, true, c);
    }
    SameMap(sb, v, Alloc(sb, view, b), owner[b := slot]);
  }

  /** `r` is `s` with slot (i, j), empty before, now referring to the zeroed block `b`. */
  ghost predicate Attached(sb: Sb, s: Fsys, r: Fsys, i: nat, j: nat, b: nat) {
    && Shape(sb, s) && Shape(sb, r) && i < sb.ninodes && j < NSLOTS
    && Ref(sb, s, i, j) == 0
    && (forall i', j' :: 0 <= i' < sb.ninodes && 0 <= j' < NSLOTS ==>
          Ref(sb, r, i', j') == if (i', j') == (i, j) then b else Ref(sb, s, i', j'))
    && sb.DataStart() <= b < sb.size && r.view[b] == ZeroBlock()
  }

  lemma AttachedSlot(sb: Sb, s: Fsys, r: Fsys, owner: Owner, i: nat, j: nat, b: nat, i': nat, j': nat)
    requires RefsOwned(sb, s, owner) && b !in owner && Attached(sb, s, r, i, j, b) && i' < sb.ninodes && j' < NSLOTS
    ensures SlotOwned(sb, r, owner[b := (i, j)], i', j')
  {
    assert SlotOwned(sb, s, owner, i', j');
  }

  /** Ownership follows a block from the free list into one empty slot, and since the block is
      zeroed every byte of every file stays what it was. */
  lemma AttachedOwned(sb: Sb, s: Fsys, r: Fsys, owner: Owner, i: nat, j: nat, b: nat)
    requires RefsOwned(sb, s, owner) && b !in owner && Attached(sb, s, r, i, j, b)
    requires forall c :: c in owner && owner[c].1 != NDIRECT ==> r.view[c] == s.view[c]
    ensures RefsOwned(sb, r, owner[b := (i, j)])
    ensures SameBytes(sb, s, r)
  {
    var owner' := owner[b := (i, j)];
    assert RefsOwned(sb, r, owner') by {
      forall i', j' | 0 <= i' < sb.ninodes && 0 <= j' < NSLOTS ensures SlotOwned(sb, r, owner', i', j') {
        AttachedSlot(sb, s, r, owner, i, j, b, i', j');
      }
    }
    forall i', k | 0 <= i' < sb.ninodes && 0 <= k < MAXBYTES
      ensures FileByte(sb, r, i', k) == FileByte(sb, s, i', k)
    {
      AttachedByte(sb, s, r, owner, i, j, b, i', k);
    }
  }

  lemma AttachedByte(sb: Sb, s: Fsys, r: Fsys, owner: Owner, i: nat, j: nat, b: nat, i': nat, k: nat)
    requires RefsOwned(sb, s, owner) && b !in owner && Attached(sb, s, r, i, j, b)
    requires forall c :: c in owner && owner[c].1 != NDIRECT ==> r.view[c] == s.view[c]
    requires i' < sb.ninodes && k < MAXBYTES
    ensures FileByte(sb, r, i', k) == FileByte(sb, s, i', k)
  {
    var e := Ref(sb, s, i', SlotOf(k / BSIZE));
    if e != 0 { assert SlotOwned(sb, s, owner, i', SlotOf(k / BSIZE)); }
  }

  ghost predicate SameBytes(sb: Sb, s: Fsys, r: Fsys) {
    && Shape(sb, s) && Shape(sb, r)
    && forall i, k :: 0 <= i < sb.ninodes && 0 <= k < MAXBYTES ==> FileByte(sb, r, i, k) == FileByte(sb, s, i, k)
  }

  // ----- allocating a block into a pointer of the inode -----

  function AttachDirect(sb: Sb, s: Fsys, i: nat, j: nat, b: uint): Fsys
    requires Shape(sb, s) && i < sb.ninodes && j <= NDIRECT && b < sb.size
  {
    Fsys(Alloc(sb, s.view, b), s.inodes[i := s.inodes[i].(addrs := s.inodes[i].addrs[j := b])])
  }

  lemma AttachDirectRef(sb: Sb, s: Fsys, owner: Owner, i: nat, j: nat, b: uint, i': nat, j': nat)
    requires RefsOwned(sb, s, owner) && i < sb.ninodes && j <= NDIRECT && sb.DataStart() <= b < sb.size && b !in owner
    requires Ref(sb, s, i, j) == 0 && i' < sb.ninodes && j' < NSLOTS
    ensures Shape(sb, AttachDirect(sb, s, i, j, b))
    ensures Ref(sb, AttachDirect(sb, s, i, j, b), i', j') == if (i', j') == (i, j) then b else Ref(sb, s, i', j')
  {
    if j' > NDIRECT {
      var p := Ref(sb, s, i', NDIRECT);
      if p != 0 {
        assert SlotOwned(sb, s, owner, i', NDIRECT);
      } else if i' == i && j == NDIRECT {
      }
    }
  }

  lemma AttachDirectOwned(sb: Sb, s: Fsys, owner: Owner, i: nat, j: nat, b: uint)
    requires RefsOwned(sb, s, owner) && i < sb.ninodes && j <= NDIRECT && sb.DataStart() <= b < sb.size && b !in owner
    requires Ref(sb, s, i, j) == 0
    ensures var r := AttachDirect(sb, s, i, j, b);
      RefsOwned(sb, r, owner[b := (i, j)]) && SameBytes(sb, s, r) && Attached(sb, s, r, i, j, b)
  {
    var r := AttachDirect(sb, s, i, j, b);
    forall i', j' | 0 <= i' < sb.ninodes && 0 <= j' < NSLOTS
      ensures Ref(sb, r, i', j') == if (i', j') == (i, j) then b else Ref(sb, s, i', j')
    {
      AttachDirectRef(sb, s, owner, i, j, b, i', j');
    }
    AttachedOwned(sb, s, r, owner, i, j, b);
  }

  // ----- allocating a block into an entry of the indirect block -----

  lemma StoreView(sb: Sb, view: seq<Block>, p: nat, b: nat, data: Block)
    requires sb.Valid() && |view| == sb.size && sb.DataStart() <= b < sb.size && sb.DataStart() <= p < sb.size && b != p
    ensures var v := Alloc(sb, view, b)[p := data];
      && v[p] == data && v[b] == ZeroBlock() && Alloc(sb, view, b)[p] == view[p]
      && (forall c :: sb.DataStart() <= c < sb.size && c != b && c != p ==> v[c] == view[c])
      && (forall m :: 0 <= m < sb.DataStart() ==> v[m] == Alloc(sb, view, b)[m])
  {
  }

  lemma AttachIndirectOwned(sb: Sb, s: Fsys, owner: Owner, i: nat, k: nat, b: uint, r: Fsys)
    requires RefsOwned(sb, s, owner) && i < sb.ninodes && k < NINDIRECT && sb.DataStart() <= b < sb.size && b !in owner
    requires Ref(sb, s, i, NDIRECT) != 0 && Ref(sb, s, i, NDIRECT + 1 + k) == 0
    requires r.inodes == s.inodes && |r.view| == sb.size && r.view[b] == ZeroBlock()
    requires var p := Ref(sb, s, i, NDIRECT); 0 < p < sb.size && Stored(s.view[p], r.view[p], k, b)
    requires forall c :: c in owner && c != Ref(sb, s, i, NDIRECT) ==> c < sb.size && r.view[c] == s.view[c]
    ensures RefsOwned(sb, r, owner[b := (i, NDIRECT + 1 + k)]) && SameBytes(sb, s, r)
    ensures Attached(sb, s, r, i, NDIRECT + 1 + k, b)
  {
    assert SlotOwned(sb, s, owner, i, NDIRECT);
    IndirectStores(sb, s, r, owner, i, k, b);
    AttachedOwned(sb, s, r, owner, i, NDIRECT + 1 + k, b);
  }

  lemma IndirectStores(sb: Sb, s: Fsys, r: Fsys, owner: Owner, i: nat, k: nat, b: uint)
    requires RefsOwned(sb, s, owner) && i < sb.ninodes && k < NINDIRECT && sb.DataStart() <= b < sb.size && b !in owner
    requires Shape(sb, r) && r.inodes == s.inodes
    requires var p := Ref(sb, s, i, NDIRECT); 0 < p < sb.size && Stored(s.view[p], r.view[p], k, b)
    requires forall c :: c in owner && c != Ref(sb, s, i, NDIRECT) ==> r.view[c] == s.view[c]
    ensures forall i', j' :: 0 <= i' < sb.ninodes && 0 <= j' < NSLOTS ==>
      Ref(sb, r, i', j') == if (i', j') == (i, NDIRECT + 1 + k) then b else Ref(sb, s, i', j')
  {
    var p := Ref(sb, s, i, NDIRECT);
    assert SlotOwned(sb, s, owner, i, NDIRECT);
    forall i', j' | 0 <= i' < sb.ninodes && 0 <= j' < NSLOTS
      ensures Ref(sb, r, i', j') == if (i', j') == (i, NDIRECT + 1 + k) then b else Ref(sb, s, i', j')
    {
      if i' != i && Ref(sb, s, i', NDIRECT) != 0 { assert SlotOwned(sb, s, owner, i', NDIRECT); }
    }
  }

  // ----- writing file data -----

  function WriteData(sb: Sb, s: Fsys, i: nat, bn: nat, data: Block): Fsys
    requires Shape(sb, s) && i < sb.ninodes && bn < MAXFILE && Ref(sb, s, i, SlotOf(bn)) < sb.size
  {
    s.(view := s.view[Ref(sb, s, i, SlotOf(bn)) := data])
  }

  ghost predicate SameRefs(sb: Sb, s: Fsys, r: Fsys) {
    && Shape(sb, s) && Shape(sb, r)
    && forall i, j :: 0 <= i < sb.ninodes && 0 <= j < NSLOTS ==> Ref(sb, r, i, j) == Ref(sb, s, i, j)
  }

  lemma WriteDataRefs(sb: Sb, s: Fsys, owner: Owner, i: nat, bn: nat, data: Block)
    requires RefsOwned(sb, s, owner) && i < sb.ninodes && bn < MAXFILE && Ref(sb, s, i, SlotOf(bn)) != 0
    ensures Ref(sb, s, i, SlotOf(bn)) in owner && SameRefs(sb, s, WriteData(sb, s, i, bn, data))
  {
    var e := Ref(sb, s, i, SlotOf(bn));
    assert SlotOwned(sb, s, owner, i, SlotOf(bn));
    var r := WriteData(sb, s, i, bn, data);
    forall i', j | 0 <= i' < sb.ninodes && 0 <= j < NSLOTS ensures Ref(sb, r, i', j) == Ref(sb, s, i', j) {
      var p := Ref(sb, s, i', NDIRECT);
      if p != 0 { assert SlotOwned(sb, s, owner, i', NDIRECT); }
    }
  }

  lemma SameRefsOwned(sb: Sb, s: Fsys, r: Fsys, owner: Owner)
    requires RefsOwned(sb, s, owner) && SameRefs(sb, s, r)
    ensures RefsOwned(sb, r, owner)
  {
    forall i, j | 0 <= i < sb.ninodes && 0 <= j < NSLOTS ensures SlotOwned(sb, r, owner, i, j) {
      assert SlotOwned(sb, s, owner, i, j);
    }
    forall c | c in owner ensures BlockOwned(sb, r, c, owner[c]) {
      assert BlockOwned(sb, s, c, owner[c]);
    }
  }

  lemma WriteDataByte(sb: Sb, s: Fsys, owner: Owner, i: nat, bn: nat, data: Block, i': nat, k: nat)
    requires RefsOwned(sb, s, owner) && i < sb.ninodes && bn < MAXFILE && 0 < Ref(sb, s, i, SlotOf(bn)) < sb.size
    requires SameRefs(sb, s, WriteData(sb, s, i, bn, data)) && i' < sb.ninodes && k < MAXBYTES
    ensures FileByte(sb, WriteData(sb, s, i, bn, data), i', k)
      == if i' == i && k / BSIZE == bn then data[k % BSIZE] else FileByte(sb, s, i', k)
  {
    assert SlotOwned(sb, s, owner, i, SlotOf(bn)) && SlotOwned(sb, s, owner, i', SlotOf(k / BSIZE));
  }

  /** Replacing a data block changes the bytes of that block of that file only. */
  lemma WriteDataOwned(sb: Sb, s: Fsys, owner: Owner, i: nat, bn: nat, data: Block)
    requires Owned(sb, s, owner) && i < sb.ninodes && bn < MAXFILE && Ref(sb, s, i, SlotOf(bn)) != 0
    ensures Ref(sb, s, i, SlotOf(bn)) in owner
    ensures Owned(sb, WriteData(sb, s, i, bn, data), owner) && SameRefs(sb, s, WriteData(sb, s, i, bn, data))
    ensures forall i', k :: 0 <= i' < sb.ninodes && 0 <= k < MAXBYTES ==>
      FileByte(sb, WriteData(sb, s, i, bn, data), i', k)
        == if i' == i && k / BSIZE == bn then data[k % BSIZE] else FileByte(sb, s, i', k)
  {
    WriteDataRefs(sb, s, owner, i, bn, data);
    var r := WriteData(sb, s, i, bn, data);
    SameRefsOwned(sb, s, r, owner);
    SameMap(sb, s.view, r.view, owner);
    forall i', k | 0 <= i' < sb.ninodes && 0 <= k < MAXBYTES
      ensures FileByte(sb, r, i', k) == if i' == i && k / BSIZE == bn then data[k % BSIZE] else FileByte(sb, s, i', k)
    {
      WriteDataByte(sb, s, owner, i, bn, data, i', k);
    }
  }

  // ----- truncation -----

  ghost function Without(owner: Owner, i: nat): Owner { map b | b in owner && owner[b].0 != i :: owner[b] }

  /** When itrunc reaches slot `j`: direct pointers, then the indirect entries, then the indirect pointer. */
  function Turn(j: nat): nat { if j < NDIRECT then j else if j == NDIRECT then NSLOTS - 1 else j - 1 }

  /** The blocks itrunc has freed after `n` slots. */
  ghost function Freed(owner: Owner, i: nat, n: nat): set<nat> {
    set b | b in owner && owner[b].0 == i && Turn(owner[b].1) < n
  }

  lemma FreedStep(sb: Sb, s: Fsys, owner: Owner, i: nat, j: nat)
    requires RefsOwned(sb, s, owner) && i < sb.ninodes && j < NSLOTS
    ensures var b := Ref(sb, s, i, j);
      && (b == 0 ==> Freed(owner, i, Turn(j) + 1) == Freed(owner, i, Turn(j)))
      && (b != 0 ==> b in owner && b !in Freed(owner, i, Turn(j)) && sb.DataStart() <= b < sb.size
                     && Freed(owner, i, Turn(j) + 1) == Freed(owner, i, Turn(j)) + {b})
  {
    var b, n := Ref(sb, s, i, j), Turn(j);
    assert SlotOwned(sb, s, owner, i, j);
    if b != 0 { assert BlockOwned(sb, s, b, owner[b]); }
    forall c | c in Freed(owner, i, n + 1) && c !in Freed(owner, i, n) ensures c == b != 0 {
      assert BlockOwned(sb, s, c, owner[c]);
      assert owner[c].1 == j;
    }
    assert Freed(owner, i, n) <= Freed(owner, i, n + 1);
  }

  /** Without an indirect block there is nothing after the direct pointers. */
  lemma FreedDirectOnly(sb: Sb, s: Fsys, owner: Owner, i: nat)
    requires RefsOwned(sb, s, owner) && i < sb.ninodes && Ref(sb, s, i, NDIRECT) == 0
    ensures Freed(owner, i, NSLOTS) == Freed(owner, i, NDIRECT)
  {
    forall b | b in Freed(owner, i, NSLOTS) ensures b in Freed(owner, i, NDIRECT) {
      assert BlockOwned(sb, s, b, owner[b]);
    }
  }

  lemma MapAfterFree(sb: Sb, view: seq<Block>, owner: Owner, gone: set<nat>, b: nat)
    requires MapIs(sb, view, owner - gone) && sb.DataStart() <= b < sb.size && b !in gone && b in owner
    ensures Used(sb, view, b) && MapIs(sb, PutUsed(sb, view, b, false), owner - (gone + {b}))
  {
    assert b in owner - gone;
    forall c | 0 <= c < sb.size
      ensures Used(sb, PutUsed(sb, view, b, false), c) <==> c < sb.DataStart() || c in owner - (gone + {b})
    {
      UsedAfterPut(sb, view, b, false, c);
    }
  }

  /** itrunc, whole: the inode empty, its blocks' bits cleared, nothing else changed. */
  lemma TruncOwned(sb: Sb, s: Fsys, owner: Owner, i: nat, r: Fsys)
    requires RefsOwned(sb, s, owner) && i < sb.ninodes && Shape(sb, r)
    requires r.inodes == s.inodes[i := Inode(0, seq(NDIRECT + 1, _ => 0))]
    requires forall b :: sb.DataStart() <= b < sb.size ==> r.view[b] == s.view[b]
    ensures RefsOwned(sb, r, Without(owner, i)) && WellFormed(sb, r, i)
    ensures forall i', k :: 0 <= i' < sb.ninodes && i' != i && 0 <= k < MAXBYTES ==>
      FileByte(sb, r, i', k) == FileByte(sb, s, i', k)
    ensures forall i', j :: 0 <= i' < sb.ninodes && 0 <= j < NSLOTS ==>
      Ref(sb, r, i', j) == if i' == i then 0 else Ref(sb, s, i', j)
  {
    forall i', j | 0 <= i' < sb.ninodes && 0 <= j < NSLOTS
      ensures Ref(sb, r, i', j) == if i' == i then 0 else Ref(sb, s, i', j)
    {
      var p := Ref(sb, s, i', NDIRECT);
      if p != 0 { assert SlotOwned(sb, s, owner, i', NDIRECT); }
    }
    var owner' := Without(owner, i);
    forall i', j | 0 <= i' < sb.ninodes && 0 <= j < NSLOTS ensures SlotOwned(sb, r, owner', i', j) {
      assert SlotOwned(sb, s, owner, i', j);
    }
    forall c | c in owner' ensures BlockOwned(sb, r, c, owner'[c]) {
      assert BlockOwned(sb, s, c, owner[c]);
    }
    forall i', k | 0 <= i' < sb.ninodes && i' != i && 0 <= k < MAXBYTES
      ensures FileByte(sb, r, i', k) == FileByte(sb, s, i', k)
    {
      var f := Ref(sb, s, i', SlotOf(k / BSIZE));
      if f != 0 { assert SlotOwned(sb, s, owner, i', SlotOf(k / BSIZE)); }
    }
  }
}
